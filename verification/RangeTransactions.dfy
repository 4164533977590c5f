/**
 Range transactions running at the same time. Each transaction locks its rows one by one in
 any order, works on its own copies row by row, and finally saves and commits, or rolls back.
 A row is locked by at most one transaction, as SELECT ... FOR UPDATE guarantees.
 */
module RangeTransactions {
  import opened Calendar
  import opened Ledger
  import LedgerLaws

  /** The locked rows with their working copies, and how far the two loops have come. */
  datatype Txn = Txn(op: RangeOp, copies: map<Key, Row>, checked: set<Key>, moved: set<Key>)

  /** A transaction that ran to its end: committed, or refused by one of its own tests. */
  datatype Entry = Entry(op: RangeOp, committed: bool)

  datatype Sys = Sys(table: Table, txns: map<int, Txn>, history: seq<Entry>)

  datatype Action =
    | Begin(id: int, op: RangeOp)
    | Lock(id: int, key: Key)
    | Check(id: int, key: Key)
    | Change(id: int, key: Key)
    | Refuse(id: int)
    | Commit(id: int)
    | Abort(id: int)

  /** The rows the locking query selects. */
  ghost predicate Selects(t: Table, op: RangeOp, k: Key) {
    k in t && Covers(op, k) && t[k].hotel == op.hotel
  }

  predicate LockedBy(s: Sys, k: Key, id: int) {
    id in s.txns && k in s.txns[id].copies
  }

  ghost predicate Free(s: Sys, k: Key) {
    forall id | id in s.txns :: k !in s.txns[id].copies
  }

  ghost predicate AllLocked(s: Sys, x: Txn) {
    forall k | Selects(s.table, x.op, k) :: k in x.copies
  }

  /** The number of locked rows equals the number of dates: no night is missing. */
  predicate CountMatches(x: Txn) {
    |x.copies| == x.op.checkOut - x.op.checkIn
  }

  /** Holds test every row before changing any; the others test each row as they change it. */
  predicate MayChange(x: Txn, k: Key) {
    k in x.copies && k !in x.moved &&
    (if x.op.kind == Hold then x.checked == x.copies.Keys else Guard(x.op.kind, x.copies[k], x.op.quantity))
  }

  /** A test the loops can come to and find failing. */
  predicate FailsAt(x: Txn, k: Key) {
    k in x.copies && k !in x.moved &&
    if x.op.kind == Hold && x.checked != x.copies.Keys then
      k !in x.checked && !Guard(Hold, x.copies[k], x.op.quantity)
    else
      !RowAccepts(x.op.kind, x.copies[k], x.op.quantity)
  }

  ghost predicate Enabled(s: Sys, a: Action) {
    match a
    case Begin(id, op) => id !in s.txns && op.quantity > 0 && op.checkIn < op.checkOut
    case Lock(id, k) =>
      && id in s.txns && s.txns[id].checked == s.txns[id].moved == {}
      && Selects(s.table, s.txns[id].op, k) && Free(s, k)
    case Check(id, k) =>
      && id in s.txns && AllLocked(s, s.txns[id]) && CountMatches(s.txns[id])
      && s.txns[id].op.kind == Hold && k in s.txns[id].copies && s.txns[id].moved == {}
      && Guard(Hold, s.txns[id].copies[k], s.txns[id].op.quantity)
    case Change(id, k) =>
      && id in s.txns && AllLocked(s, s.txns[id]) && CountMatches(s.txns[id])
      && MayChange(s.txns[id], k)
      && Balanced(Move(s.txns[id].op.kind, s.txns[id].copies[k], s.txns[id].op.quantity))
    case Refuse(id) =>
      && id in s.txns && AllLocked(s, s.txns[id])
      && (!CountMatches(s.txns[id]) || exists k :: FailsAt(s.txns[id], k))
    case Commit(id) =>
      && id in s.txns && AllLocked(s, s.txns[id]) && CountMatches(s.txns[id])
      && s.txns[id].moved == s.txns[id].copies.Keys
    case Abort(id) => id in s.txns
  }

  ghost function Do(s: Sys, a: Action): Sys
    requires Enabled(s, a)
  {
    match a
    case Begin(id, op) => s.(txns := s.txns[id := Txn(op, map[], {}, {})])
    case Lock(id, k) =>
      var x := s.txns[id];
      s.(txns := s.txns[id := x.(copies := x.copies[k := s.table[k]])])
    case Check(id, k) =>
      var x := s.txns[id];
      s.(txns := s.txns[id := x.(checked := x.checked + {k})])
    case Change(id, k) =>
      var x := s.txns[id];
      s.(txns := s.txns[id := x.(copies := x.copies[k := Move(x.op.kind, x.copies[k], x.op.quantity)],
                                 moved := x.moved + {k})])
    case Refuse(id) => s.(txns := s.txns - {id}, history := s.history + [Entry(s.txns[id].op, false)])
    case Commit(id) =>
      Sys(s.table + s.txns[id].copies, s.txns - {id}, s.history + [Entry(s.txns[id].op, true)])
    case Abort(id) => s.(txns := s.txns - {id})
  }

  ghost predicate PossibleRun(s: Sys, acts: seq<Action>)
    decreases |acts|
  {
    acts != [] ==> Enabled(s, acts[0]) && PossibleRun(Do(s, acts[0]), acts[1..])
  }

  ghost function Run(s: Sys, acts: seq<Action>): Sys
    requires PossibleRun(s, acts)
    decreases |acts|
  {
    if acts == [] then s else Run(Do(s, acts[0]), acts[1..])
  }

  // ---------------------------------------------------------------- the serial reference

  /** The same operations one after another, with nothing running beside them. */
  ghost function Serial(t: Table, h: seq<Entry>): Table {
    if h == [] then t else RunOp(Serial(t, h[..|h| - 1]), h[|h| - 1].op)
  }

  /** Each finished transaction committed exactly if the serial execution accepts it at its place. */
  ghost predicate SameVerdicts(t: Table, h: seq<Entry>) {
    forall n | 0 <= n < |h| :: h[n].committed <==> Accepts(Serial(t, h[..n]), h[n].op)
  }

  /** The operations that committed, in commit order. */
  function Committed(h: seq<Entry>): seq<RangeOp> {
    if h == [] then []
    else Committed(h[..|h| - 1]) + if h[|h| - 1].committed then [h[|h| - 1].op] else []
  }

  ghost function SerialOps(t: Table, ops: seq<RangeOp>): Table {
    if ops == [] then t else RunOp(SerialOps(t, ops[..|ops| - 1]), ops[|ops| - 1])
  }

  // ---------------------------------------------------------------- what every step keeps

  /** A locked row is current: its copy is the committed row, moved or not, and passed its tests if it moved. */
  ghost predicate Current(t: Table, x: Txn) {
    && x.op.quantity > 0 && x.op.checkIn < x.op.checkOut
    && x.moved <= x.copies.Keys && x.checked <= x.copies.Keys
    && (forall k | k in x.copies :: Selects(t, x.op, k))
    && (forall k | k in x.copies && k !in x.moved :: x.copies[k] == t[k])
    && (forall k | k in x.moved ::
          x.copies[k] == Move(x.op.kind, t[k], x.op.quantity) && RowAccepts(x.op.kind, t[k], x.op.quantity))
    && (forall k | k in x.checked :: Guard(Hold, t[k], x.op.quantity))
    && (x.op.kind == Hold && x.moved != {} ==> x.checked == x.copies.Keys)
  }

  ghost predicate Disjoint(s: Sys) {
    forall i, j, k | LockedBy(s, k, i) && LockedBy(s, k, j) :: i == j
  }

  ghost predicate Inv(s: Sys, start: Table) {
    && Disjoint(s)
    && (forall id | id in s.txns :: Current(s.table, s.txns[id]))
    && s.table == Serial(start, s.history)
    && SameVerdicts(start, s.history)
  }

  lemma CountMeansComplete(t: Table, x: Txn)
    requires Current(t, x) && forall k | Selects(t, x.op, k) :: k in x.copies
    ensures CountMatches(x) <==> forall k | Covers(x.op, k) :: Selects(t, x.op, k)
  {
    LedgerLaws.FullCountIffComplete(x.op, x.copies.Keys);
  }

  /** Committing is applying the operation to the committed table of that moment. */
  lemma CommitApplies(t: Table, x: Txn)
    requires Current(t, x) && (forall k | Selects(t, x.op, k) :: k in x.copies)
    requires CountMatches(x) && x.moved == x.copies.Keys
    ensures Accepts(t, x.op) && t + x.copies == Apply(t, x.op)
  {
    CountMeansComplete(t, x);
    assert forall k | Covers(x.op, k) :: k in x.moved;
    assert (t + x.copies).Keys == t.Keys;
    forall k | k in t
      ensures (t + x.copies)[k] == Apply(t, x.op)[k]
    {
      if Covers(x.op, k) { assert k in x.moved; }
    }
  }

  /** A refusal is the serial verdict too. */
  lemma RefusalIsRight(t: Table, x: Txn)
    requires Current(t, x) && (forall k | Selects(t, x.op, k) :: k in x.copies)
    requires !CountMatches(x) || exists k :: FailsAt(x, k)
    ensures !Accepts(t, x.op)
  {
    CountMeansComplete(t, x);
    if CountMatches(x) {
      var k :| FailsAt(x, k);
      assert Selects(t, x.op, k) && x.copies[k] == t[k];
    }
  }

  lemma {:induction false} SerialSnoc(t: Table, h: seq<Entry>, e: Entry)
    ensures Serial(t, h + [e]) == RunOp(Serial(t, h), e.op)
    ensures SameVerdicts(t, h) && (e.committed <==> Accepts(Serial(t, h), e.op)) ==> SameVerdicts(t, h + [e])
  {
    var g := h + [e];
    assert g[..|g| - 1] == h;
    forall n | 0 <= n < |h|
      ensures g[..n] == h[..n]
    {
    }
    assert g[..|h|] == h;
  }

  lemma CopiesStayCurrent(t: Table, u: Table, x: Txn)
    requires Current(t, x) && u.Keys == t.Keys
    requires forall k | k in t :: u[k].hotel == t[k].hotel
    requires forall k | k in x.copies :: u[k] == t[k]
    ensures Current(u, x)
  {
  }

  /** No other transaction's copies touch the rows a committing transaction holds. */
  lemma OthersUntouched(s: Sys, id: int, other: int)
    requires Enabled(s, Commit(id)) && Disjoint(s) && (forall i | i in s.txns :: Current(s.table, s.txns[i]))
    requires other in s.txns && other != id
    ensures Current(Do(s, Commit(id)).table, s.txns[other])
  {
    var x := s.txns[id];
    CommitApplies(s.table, x);
    forall k | k in s.txns[other].copies
      ensures k !in x.copies
    {
      if k in x.copies { assert LockedBy(s, k, id) && LockedBy(s, k, other); }
    }
    CopiesStayCurrent(s.table, Do(s, Commit(id)).table, s.txns[other]);
  }

  lemma LockedIsCurrent(t: Table, x: Txn, k: Key)
    requires Current(t, x) && Selects(t, x.op, k) && k !in x.copies && x.moved == {}
    ensures Current(t, x.(copies := x.copies[k := t[k]]))
  {
  }

  lemma ChangedIsCurrent(t: Table, x: Txn, k: Key)
    requires Current(t, x) && MayChange(x, k) && Balanced(Move(x.op.kind, x.copies[k], x.op.quantity))
    ensures Current(t, x.(copies := x.copies[k := Move(x.op.kind, x.copies[k], x.op.quantity)], moved := x.moved + {k}))
  {
  }

  lemma CurrentAfter(s: Sys, a: Action, id: int)
    requires Enabled(s, a) && Disjoint(s) && (forall i | i in s.txns :: Current(s.table, s.txns[i]))
    requires id in Do(s, a).txns
    ensures Current(Do(s, a).table, Do(s, a).txns[id])
  {
    if a.Commit? {
      OthersUntouched(s, a.id, id);
    } else if id == a.id && a.Lock? {
      LockedIsCurrent(s.table, s.txns[id], a.key);
    } else if id == a.id && a.Change? {
      ChangedIsCurrent(s.table, s.txns[id], a.key);
    } else if id == a.id && a.Check? {
      assert Current(s.table, s.txns[id]);
    }
  }

  lemma StepKeepsInv(s: Sys, a: Action, start: Table)
    requires Enabled(s, a) && Inv(s, start)
    ensures Inv(Do(s, a), start)
  {
    var u := Do(s, a);
    forall i, j, k | LockedBy(u, k, i) && LockedBy(u, k, j)
      ensures i == j
    {
      DisjointAfter(s, a, i, j, k);
    }
    forall id | id in u.txns
      ensures Current(u.table, u.txns[id])
    {
      CurrentAfter(s, a, id);
    }
    HistoryAfter(s, a, start);
  }

  lemma HistoryAfter(s: Sys, a: Action, start: Table)
    requires Enabled(s, a) && Inv(s, start)
    ensures Do(s, a).table == Serial(start, Do(s, a).history) && SameVerdicts(start, Do(s, a).history)
  {
    if a.Refuse? {
      RefusalIsRight(s.table, s.txns[a.id]);
      SerialSnoc(start, s.history, Entry(s.txns[a.id].op, false));
    } else if a.Commit? {
      CommitApplies(s.table, s.txns[a.id]);
      SerialSnoc(start, s.history, Entry(s.txns[a.id].op, true));
    }
  }

  lemma DisjointAfter(s: Sys, a: Action, i: int, j: int, k: Key)
    requires Enabled(s, a) && Disjoint(s)
    requires LockedBy(Do(s, a), k, i) && LockedBy(Do(s, a), k, j)
    ensures i == j
  {
    if !(a.Lock? && k == a.key) {
      assert LockedBy(s, k, i) && LockedBy(s, k, j);
    }
  }

  lemma {:induction false} RunKeepsInv(s: Sys, acts: seq<Action>, start: Table)
    requires PossibleRun(s, acts) && Inv(s, start)
    ensures Inv(Run(s, acts), start)
    decreases |acts|
  {
    if acts != [] {
      StepKeepsInv(s, acts[0], start);
      RunKeepsInv(Do(s, acts[0]), acts[1..], start);
    }
  }

  lemma {:induction false} RefusalsLeaveNoTrace(t: Table, h: seq<Entry>)
    requires SameVerdicts(t, h)
    ensures Serial(t, h) == SerialOps(t, Committed(h))
    decreases |h|
  {
    if h != [] {
      var g := h[..|h| - 1];
      forall n | 0 <= n < |g|
        ensures g[..n] == h[..n]
      {
      }
      RefusalsLeaveNoTrace(t, g);
      var c := Committed(g);
      assert h[..|h| - 1] == g;
      if h[|h| - 1].committed {
        assert (c + [h[|h| - 1].op])[..|c|] == c;
      } else {
        assert c + [] == c;
      }
    }
  }

  /**
   Every interleaving of range transactions is equivalent to running the committed ones one
   after another in commit order; and each verdict, commit or refusal, is the one the serial
   execution gives at the moment the transaction ends.
   */
  lemma Serializable(start: Table, acts: seq<Action>)
    requires PossibleRun(Sys(start, map[], []), acts)
    ensures var end := Run(Sys(start, map[], []), acts);
            && end.table == SerialOps(start, Committed(end.history))
            && SameVerdicts(start, end.history)
  {
    RunKeepsInv(Sys(start, map[], []), acts, start);
    RefusalsLeaveNoTrace(start, Run(Sys(start, map[], []), acts).history);
  }

  /** What the committed operations of a history add to the counters of one row, in total. */
  function Net(h: seq<Entry>, k: Key): (int, int, int) {
    if h == [] then (0, 0, 0)
    else
      var (a, b, c) := Net(h[..|h| - 1], k);
      var last := h[|h| - 1];
      if last.committed && Covers(last.op, k) then
        var (x, y, z) := LedgerLaws.Delta(last.op.kind, last.op.quantity);
        (a + x, b + y, c + z)
      else (a, b, c)
  }

  lemma {:induction false} SerialSums(t: Table, h: seq<Entry>, k: Key)
    requires SameVerdicts(t, h) && k in t
    ensures k in Serial(t, h)
    ensures var r := Serial(t, h)[k];
            (r.available - t[k].available, r.blocked - t[k].blocked, r.sold - t[k].sold) == Net(h, k)
    decreases |h|
  {
    if h != [] {
      var g, last := h[..|h| - 1], h[|h| - 1];
      forall n | 0 <= n < |g|
        ensures g[..n] == h[..n]
      {
      }
      SerialSums(t, g, k);
      if last.committed {
        LedgerLaws.ExactFrame(Serial(t, g), last.op, k);
      }
    }
  }

  /** No update is lost: at any moment each committed row is its starting value plus every committed movement. */
  lemma NoLostUpdate(start: Table, acts: seq<Action>, k: Key)
    requires PossibleRun(Sys(start, map[], []), acts) && k in start
    ensures var end := Run(Sys(start, map[], []), acts);
            && k in end.table
            && (end.table[k].available - start[k].available, end.table[k].blocked - start[k].blocked,
                end.table[k].sold - start[k].sold) == Net(end.history, k)
  {
    RunKeepsInv(Sys(start, map[], []), acts, start);
    SerialSums(start, Run(Sys(start, map[], []), acts).history, k);
  }

  lemma CanCheck(s: Sys, id: int, k: Key)
    requires id in s.txns && Current(s.table, s.txns[id]) && AllLocked(s, s.txns[id]) && CountMatches(s.txns[id])
    requires s.txns[id].op.kind == Hold && k in s.txns[id].copies && k !in s.txns[id].checked
    requires !FailsAt(s.txns[id], k)
    ensures Enabled(s, Check(id, k))
  {
  }

  lemma CanChange(s: Sys, id: int, k: Key)
    requires id in s.txns && Current(s.table, s.txns[id]) && AllLocked(s, s.txns[id]) && CountMatches(s.txns[id])
    requires s.txns[id].op.kind == Hold ==> s.txns[id].checked == s.txns[id].copies.Keys
    requires k in s.txns[id].copies && k !in s.txns[id].moved && !FailsAt(s.txns[id], k)
    ensures Enabled(s, Change(id, k))
  {
  }

  /** Once a transaction has all its rows it can always make its next step without waiting for another. */
  lemma NeverStuck(s: Sys, start: Table, id: int)
    requires Inv(s, start) && id in s.txns && AllLocked(s, s.txns[id])
    ensures || Enabled(s, Commit(id)) || Enabled(s, Refuse(id))
            || (exists k :: Enabled(s, Check(id, k)) && k !in s.txns[id].checked)
            || (exists k :: Enabled(s, Change(id, k)))
  {
    var x := s.txns[id];
    assert Current(s.table, x);
    if CountMatches(x) && !(exists k :: FailsAt(x, k)) && x.moved != x.copies.Keys {
      if x.op.kind == Hold && x.checked != x.copies.Keys {
        var c :| c in x.copies && c !in x.checked;
        CanCheck(s, id, c);
      } else {
        var k :| k in x.copies && k !in x.moved;
        CanChange(s, id, k);
      }
    }
  }

  /** The steps a transaction with all its rows still has before it can commit. */
  function WorkLeft(x: Txn): nat {
    |x.copies.Keys - x.moved| + if x.op.kind == Hold then |x.copies.Keys - x.checked| else 0
  }

  lemma OneFewer(all: set<Key>, done: set<Key>, k: Key)
    requires k in all && k !in done
    ensures |all - (done + {k})| == |all - done| - 1
  {
    assert all - done == (all - (done + {k})) + {k};
  }

  predicate Progress(s: Sys, a: Action) {
    a.id in s.txns && (a.Change? || (a.Check? && a.key !in s.txns[a.id].checked))
  }

  /** Each check or change of a row takes one step off, and the transaction still has all its rows. */
  lemma ProgressTakesWork(s: Sys, a: Action)
    requires Enabled(s, a) && Progress(s, a)
    ensures a.id in Do(s, a).txns && AllLocked(Do(s, a), Do(s, a).txns[a.id])
    ensures WorkLeft(Do(s, a).txns[a.id]) == WorkLeft(s.txns[a.id]) - 1
  {
    var x := s.txns[a.id];
    if a.Check? {
      OneFewer(x.copies.Keys, x.checked, a.key);
    } else {
      OneFewer(x.copies.Keys, x.moved, a.key);
      assert x.copies[a.key := Move(x.op.kind, x.copies[a.key], x.op.quantity)].Keys == x.copies.Keys;
    }
  }

  /** Nothing another transaction does gives it more work or takes a row from it. */
  lemma OthersLeaveWork(s: Sys, start: Table, a: Action, id: int)
    requires Inv(s, start) && Enabled(s, a) && a.id != id && id in s.txns && AllLocked(s, s.txns[id])
    ensures id in Do(s, a).txns && Do(s, a).txns[id] == s.txns[id] && AllLocked(Do(s, a), s.txns[id])
  {
    if a.Commit? { CommitApplies(s.table, s.txns[a.id]); }
  }

  lemma NextStep(s: Sys, start: Table, id: int) returns (a: Action)
    requires Inv(s, start) && id in s.txns && AllLocked(s, s.txns[id])
    ensures a.id == id && Enabled(s, a)
    ensures a.Commit? || a.Refuse? || Progress(s, a)
  {
    NeverStuck(s, start, id);
    if Enabled(s, Commit(id)) {
      a := Commit(id);
    } else if Enabled(s, Refuse(id)) {
      a := Refuse(id);
    } else if k :| Enabled(s, Check(id, k)) && k !in s.txns[id].checked {
      a := Check(id, k);
    } else {
      var k :| Enabled(s, Change(id, k));
      a := Change(id, k);
    }
  }

  /**
   From the moment it has all its rows a transaction can run to its end alone, in at most one
   step more than the work it has left.
   */
  lemma {:induction false} CanFinishAlone(s: Sys, start: Table, id: int) returns (acts: seq<Action>)
    requires Inv(s, start) && id in s.txns && AllLocked(s, s.txns[id])
    ensures forall i | 0 <= i < |acts| :: acts[i].id == id
    ensures |acts| <= WorkLeft(s.txns[id]) + 1
    ensures PossibleRun(s, acts) && id !in Run(s, acts).txns
    ensures exists e :: Run(s, acts).history == s.history + [e] && e.op == s.txns[id].op
    decreases WorkLeft(s.txns[id])
  {
    var a := NextStep(s, start, id);
    var t := Do(s, a);
    if a.Commit? || a.Refuse? {
      acts := [a];
      assert acts[1..] == [];
      assert t.history == s.history + [Entry(s.txns[id].op, a.Commit?)];
    } else {
      StepKeepsInv(s, a, start);
      ProgressTakesWork(s, a);
      var rest := CanFinishAlone(t, start, id);
      acts := [a] + rest;
      assert acts[1..] == rest;
    }
  }
}
