/** Laws of the ledger: its invariant over every run, the algebra of movements, batches of holds, and frozen rows. */
module LedgerLaws {
  import opened Calendar
  import opened Outcomes
  import opened Ledger

  // ---------------------------------------------------------------- the invariant over every run

  /** A row that takes a movement was not oversubscribed, and keeps its invariant. */
  lemma MoveKeepsRow(kind: Kind, r: Row, q: int)
    requires RowInv(r) && RowAccepts(kind, r, q)
    ensures RowInv(Move(kind, r, q)) && !Oversubscribed(r) && !Oversubscribed(Move(kind, r, q))
  {
  }

  lemma StepKeepsInvariant(t: Table, e: LedgerEvent)
    requires Allowed(t, e) && LedgerInv(t)
    ensures LedgerInv(StepLedger(t, e))
  {
  }

  /** In every run of creations, total changes and range operations the counters stay consistent. */
  lemma {:induction false} RunKeepsInvariant(t: Table, es: seq<LedgerEvent>)
    requires AllowedRun(t, es) && LedgerInv(t)
    ensures LedgerInv(Replay(t, es))
    decreases |es|
  {
    if es != [] {
      StepKeepsInvariant(t, es[0]);
      RunKeepsInvariant(StepLedger(t, es[0]), es[1..]);
    }
  }

  /** An accepted range operation moves exactly the covered rows of its hotel, by exactly its quantity. */
  lemma ExactFrame(t: Table, op: RangeOp, k: Key)
    requires Accepts(t, op) && k in t
    ensures !Covers(op, k) ==> RunOp(t, op)[k] == t[k]
    ensures Covers(op, k) ==>
              && t[k].hotel == op.hotel
              && var u := RunOp(t, op)[k];
                 && u.available - t[k].available == Delta(op.kind, op.quantity).0
                 && u.blocked - t[k].blocked == Delta(op.kind, op.quantity).1
                 && u.sold - t[k].sold == Delta(op.kind, op.quantity).2
                 && u.total == t[k].total && u.hotel == t[k].hotel && u.stopSell == t[k].stopSell
  {
  }

  /** What each kind does to the available, blocked and sold counters. */
  function Delta(kind: Kind, q: int): (int, int, int) {
    match kind
    case Hold => (-q, q, 0)
    case ConfirmHeld => (0, -q, q)
    case ConfirmDirect => (-q, 0, q)
    case Release => (q, -q, 0)
    case Cancel => (q, 0, -q)
  }

  // ---------------------------------------------------------------- the row count test

  /** A set of covered keys is as large as the stay is long exactly when it holds every covered key. */
  lemma FullCountIffComplete(op: RangeOp, got: set<Key>)
    requires op.checkIn < op.checkOut
    requires forall k | k in got :: Covers(op, k)
    ensures |got| == op.checkOut - op.checkIn <==> forall k | Covers(op, k) :: k in got
  {
    var all := KeysOf(op.roomType, op.checkIn, op.checkOut);
    assert got <= all;
    assert |all - got| == |all| - |got|;
    if |got| == op.checkOut - op.checkIn {
      assert all - got == {};
      assert forall k | Covers(op, k) :: k in all;
    }
    if forall k | Covers(op, k) :: k in got {
      assert all == got;
    }
  }

  // ---------------------------------------------------------------- the algebra of movements

  /** Several operations in a row, defined when every one of them is accepted. */
  ghost function Chain(t: Table, ops: seq<RangeOp>): Option<Table> {
    if ops == [] then Some(t)
    else if Accepts(t, ops[0]) then Chain(Apply(t, ops[0]), ops[1..])
    else None
  }

  lemma ChainOne(t: Table, a: RangeOp)
    ensures Chain(t, [a]) == if Accepts(t, a) then Some(Apply(t, a)) else None
  {
  }

  lemma ChainCons(t: Table, a: RangeOp, rest: seq<RangeOp>)
    ensures Chain(t, [a] + rest) == if Accepts(t, a) then Chain(Apply(t, a), rest) else None
  {
  }

  lemma ChainTwo(t: Table, a: RangeOp, b: RangeOp)
    ensures Chain(t, [a, b]) ==
            if Accepts(t, a) && Accepts(Apply(t, a), b) then Some(Apply(Apply(t, a), b)) else None
  {
    assert [a, b] == [a] + [b];
    ChainCons(t, a, [b]);
    ChainOne(Apply(t, a), b);
  }

  /**
   After a successful hold, the matching release gives the table back; it is refused only
   if a covered row had a negative blocked counter, which no reachable row has.
   */
  lemma HoldThenRelease(t: Table, hold: RangeOp, release: RangeOp)
    requires hold.kind == Hold && release == hold.(kind := Release)
    requires Accepts(t, hold)
    ensures Apply(Apply(t, hold), release) == t
    ensures Accepts(Apply(t, hold), release) <==> forall k | Covers(hold, k) :: t[k].blocked >= 0
    ensures LedgerInv(t) ==> Chain(t, [hold, release]) == Some(t)
  {
    var u := Apply(t, hold);
    forall k | Covers(hold, k)
      ensures k in u && u[k].hotel == hold.hotel
      ensures RowAccepts(Release, u[k], hold.quantity) <==> t[k].blocked >= 0
    {
    }
    assert forall k :: Covers(hold, k) == Covers(release, k);
    ChainTwo(t, hold, release);
  }

  /** Holding and then confirming from the hold is the same partial function as confirming directly. */
  lemma HoldThenConfirmIsDirect(t: Table, hold: RangeOp, confirm: RangeOp, direct: RangeOp)
    requires LedgerInv(t)
    requires hold.kind == Hold && confirm == hold.(kind := ConfirmHeld) && direct == hold.(kind := ConfirmDirect)
    ensures Chain(t, [hold, confirm]) == Chain(t, [direct])
  {
    assert forall k :: Covers(hold, k) == Covers(confirm, k) == Covers(direct, k);
    var u := Apply(t, hold);
    forall k | Covers(hold, k) && k in t && hold.quantity > 0
      ensures RowAccepts(Hold, t[k], hold.quantity) && RowAccepts(ConfirmHeld, u[k], hold.quantity) <==>
              RowAccepts(ConfirmDirect, t[k], hold.quantity)
    {
      assert RowInv(t[k]);
    }
    assert Apply(u, confirm) == Apply(t, direct);
    ChainTwo(t, hold, confirm);
    ChainOne(t, direct);
    if Accepts(t, direct) {
      assert Accepts(t, hold) && Accepts(u, confirm);
    }
  }

  /** Hold, confirm from the hold, cancel: back to the start whenever the hold is accepted. */
  lemma HoldConfirmCancel(t: Table, hold: RangeOp, confirm: RangeOp, cancel: RangeOp)
    requires LedgerInv(t) && Accepts(t, hold)
    requires hold.kind == Hold && confirm == hold.(kind := ConfirmHeld) && cancel == hold.(kind := Cancel)
    ensures Chain(t, [hold, confirm, cancel]) == Some(t)
  {
    var u := Apply(t, hold);
    var v := Apply(u, confirm);
    assert forall k :: Covers(hold, k) == Covers(confirm, k) == Covers(cancel, k);
    forall k | Covers(hold, k)
      ensures RowAccepts(ConfirmHeld, u[k], hold.quantity) && RowAccepts(Cancel, v[k], hold.quantity)
    {
      assert RowInv(t[k]);
    }
    assert Accepts(u, confirm) && Accepts(v, cancel);
    assert Apply(v, cancel) == t;
    assert [hold, confirm, cancel] == [hold] + [confirm, cancel];
    ChainCons(t, hold, [confirm, cancel]);
    ChainTwo(u, confirm, cancel);
  }

  // ---------------------------------------------------------------- batches of holds

  /** Rooms a batch asks for on one night. */
  function Demand(batch: seq<RangeOp>, k: Key): int {
    if batch == [] then 0
    else (if Covers(batch[0], k) then batch[0].quantity else 0) + Demand(batch[1..], k)
  }

  ghost predicate HoldBatch(batch: seq<RangeOp>) {
    forall i | 0 <= i < |batch| ::
      batch[i].kind == Hold && batch[i].quantity > 0 && batch[i].checkIn < batch[i].checkOut
  }

  /** Every night asked for exists in the right hotel, is on sale, and has rooms for the whole batch. */
  ghost predicate BatchFits(t: Table, batch: seq<RangeOp>) {
    forall i, k | 0 <= i < |batch| && Covers(batch[i], k) ::
      k in t && t[k].hotel == batch[i].hotel && !t[k].stopSell && Demand(batch, k) <= t[k].available
  }

  /** The table a fully accepted batch leaves. */
  function Held(t: Table, batch: seq<RangeOp>): Table {
    map k | k in t :: Move(Hold, t[k], Demand(batch, k))
  }

  lemma {:induction false} DemandNonNegative(batch: seq<RangeOp>, k: Key)
    requires HoldBatch(batch)
    ensures Demand(batch, k) >= 0
    ensures Demand(batch, k) > 0 <==> exists i :: 0 <= i < |batch| && Covers(batch[i], k)
  {
    if batch != [] {
      DemandNonNegative(batch[1..], k);
      if i :| 0 <= i < |batch| && Covers(batch[i], k) {
        if i > 0 { assert Covers(batch[1..][i - 1], k); }
      }
      if Demand(batch[1..], k) > 0 {
        var i :| 0 <= i < |batch[1..]| && Covers(batch[1..][i], k);
        assert Covers(batch[i + 1], k);
      }
    }
  }

  /** One hold is accepted exactly when each of its nights fits it alone. */
  lemma HoldAcceptedIff(t: Table, op: RangeOp)
    requires LedgerInv(t) && op.kind == Hold && op.quantity > 0 && op.checkIn < op.checkOut
    ensures Accepts(t, op) <==>
            forall k | Covers(op, k) ::
              k in t && t[k].hotel == op.hotel && !t[k].stopSell && op.quantity <= t[k].available
  {
  }

  /** A direct confirm has the same condition as a hold; a cancel needs sold rooms and a night not oversubscribed. */
  lemma DirectAndCancelAcceptedIff(t: Table, op: RangeOp)
    requires LedgerInv(t) && op.quantity > 0 && op.checkIn < op.checkOut
    ensures op.kind == ConfirmDirect ==>
              (Accepts(t, op) <==>
               forall k | Covers(op, k) ::
                 k in t && t[k].hotel == op.hotel && !t[k].stopSell && op.quantity <= t[k].available)
    ensures op.kind == Cancel ==>
              (Accepts(t, op) <==>
               forall k | Covers(op, k) ::
                 k in t && t[k].hotel == op.hotel && op.quantity <= t[k].sold && !Oversubscribed(t[k]))
  {
  }

  /**
   Every kind of operation, on consistent rows: a positive quantity, a real stay, and on each of
   its nights a row of the hotel with that many rooms to move. Holds and confirms need it on
   sale; the others, and a confirm from the hold, need it not to owe more than its total.
   */
  lemma AcceptedIff(t: Table, op: RangeOp)
    requires LedgerInv(t)
    ensures Accepts(t, op) <==>
            && op.quantity > 0 && op.checkIn < op.checkOut
            && forall k: Key | k.roomType == op.roomType && op.checkIn <= k.night < op.checkOut ::
                 && k in t && t[k].hotel == op.hotel
                 && match op.kind
                    case Hold => !t[k].stopSell && op.quantity <= t[k].available
                    case ConfirmDirect => !t[k].stopSell && op.quantity <= t[k].available
                    case ConfirmHeld =>
                      !t[k].stopSell && op.quantity <= t[k].blocked && t[k].blocked + t[k].sold <= t[k].total
                    case Release => op.quantity <= t[k].blocked && t[k].blocked + t[k].sold <= t[k].total
                    case Cancel => op.quantity <= t[k].sold && t[k].blocked + t[k].sold <= t[k].total
  {
    assert forall k: Key :: Covers(op, k) <==> k.roomType == op.roomType && op.checkIn <= k.night < op.checkOut;
    assert forall k | k in t :: RowInv(t[k]);
  }

  /** Rooms of a new room type can be held on the sixty nights from the first, up to its total, and on no other. */
  lemma OpenedNightsCanBeHeld(t: Table, hotel: int, roomType: int, first: Day, total: nat, op: RangeOp)
    requires LedgerInv(t) && Allowed(t, Opened(hotel, roomType, first, total))
    requires op.kind == Hold && op.hotel == hotel && op.roomType == roomType && op.checkIn < op.checkOut
    ensures Accepts(StepLedger(t, Opened(hotel, roomType, first, total)), op) <==>
            0 < op.quantity <= total && first <= op.checkIn && op.checkOut <= first + 60
  {
    var u := StepLedger(t, Opened(hotel, roomType, first, total));
    var start, end := Key(roomType, op.checkIn), Key(roomType, op.checkOut - 1);
    assert Covers(op, start) && Covers(op, end);
    forall k: Key | k.roomType == roomType
      ensures k in u <==> first <= k.night < first + 60
      ensures k in u ==> u[k] == Row(hotel, total, total, 0, 0, false)
    {
    }
  }

  /**
   A new total is written to every night of the room type and to no other; what is available is
   the rest after blocked and sold, if any; blocked, sold, hotel and stop-sell stay.
   */
  lemma TotalReachesEveryNight(t: Table, roomType: int, total: int, k: Key)
    requires k in t
    ensures var r, u := t[k], SetTotal(t, roomType, total)[k];
            if k.roomType != roomType then u == r
            else
              u == Row(r.hotel, total, if total > r.blocked + r.sold then total - r.blocked - r.sold else 0,
                       r.blocked, r.sold, r.stopSell)
  {
  }

  /** Taking the first hold of a batch leaves a table on which the rest fits exactly if the batch fitted. */
  lemma FitsAfterFirst(t: Table, batch: seq<RangeOp>)
    requires LedgerInv(t) && HoldBatch(batch) && batch != [] && Accepts(t, batch[0])
    ensures BatchFits(Apply(t, batch[0]), batch[1..]) <==> BatchFits(t, batch)
  {
    var u, rest := Apply(t, batch[0]), batch[1..];
    forall k
      ensures Demand(rest, k) >= 0
      ensures Demand(rest, k) > 0 <==> exists i :: 0 <= i < |rest| && Covers(rest[i], k)
    {
      DemandNonNegative(rest, k);
    }
    if BatchFits(u, rest) {
      forall i, k | 0 <= i < |batch| && Covers(batch[i], k)
        ensures k in t && t[k].hotel == batch[i].hotel && !t[k].stopSell && Demand(batch, k) <= t[k].available
      {
        if i > 0 {
          assert Covers(rest[i - 1], k);
        } else if Demand(rest, k) > 0 {
          var j :| 0 <= j < |rest| && Covers(rest[j], k);
        }
      }
    }
    if BatchFits(t, batch) {
      forall i, k | 0 <= i < |rest| && Covers(rest[i], k)
        ensures k in u && u[k].hotel == rest[i].hotel && !u[k].stopSell && Demand(rest, k) <= u[k].available
      {
        assert Covers(batch[i + 1], k);
      }
    }
  }

  lemma FitsGivesFirst(t: Table, batch: seq<RangeOp>)
    requires LedgerInv(t) && HoldBatch(batch) && batch != [] && BatchFits(t, batch)
    ensures Accepts(t, batch[0])
  {
    HoldAcceptedIff(t, batch[0]);
    forall k | Covers(batch[0], k)
      ensures batch[0].quantity <= Demand(batch, k)
    {
      DemandNonNegative(batch[1..], k);
    }
  }

  lemma HeldAfterFirst(t: Table, batch: seq<RangeOp>)
    requires batch != [] && batch[0].kind == Hold
    ensures Held(Apply(t, batch[0]), batch[1..]) == Held(t, batch)
  {
  }

  /**
   A batch of holds over any overlapping ranges is accepted in full exactly when every night
   it covers exists, is on sale and has at least the summed demand available; the table then
   differs by exactly the summed demand of each night.
   */
  lemma {:induction false} BatchAcceptedIff(t: Table, batch: seq<RangeOp>)
    requires LedgerInv(t) && HoldBatch(batch)
    ensures Chain(t, batch).Some? <==> BatchFits(t, batch)
    ensures Chain(t, batch).Some? ==> Chain(t, batch).value == Held(t, batch)
    decreases |batch|
  {
    if batch == [] {
      assert Held(t, batch) == t;
    } else {
      if BatchFits(t, batch) { FitsGivesFirst(t, batch); }
      if Accepts(t, batch[0]) {
        StepKeepsInvariant(t, Range(batch[0]));
        FitsAfterFirst(t, batch);
        BatchAcceptedIff(Apply(t, batch[0]), batch[1..]);
        HeldAfterFirst(t, batch);
      }
    }
  }

  lemma {:induction false} DemandSplit(a: seq<RangeOp>, b: seq<RangeOp>, k: Key)
    ensures Demand(a + b, k) == Demand(a, k) + Demand(b, k)
  {
    if a == [] {
      assert a + b == b;
    } else {
      assert (a + b)[1..] == a[1..] + b;
      DemandSplit(a[1..], b, k);
    }
  }

  lemma DropMatch<T>(a: seq<T>, b: seq<T>, i: nat)
    requires multiset(a) == multiset(b) && a != [] && i < |b| && b[i] == a[0]
    ensures multiset(a[1..]) == multiset(b[..i] + b[i + 1..])
  {
    assert a == [a[0]] + a[1..];
    assert b == b[..i] + [b[i]] + b[i + 1..];
    calc {
      multiset(a[1..]);
      multiset(a) - multiset{a[0]};
      multiset(b) - multiset{b[i]};
      multiset(b[..i]) + multiset(b[i + 1..]);
    }
  }

  lemma DemandDrop(b: seq<RangeOp>, i: nat, k: Key)
    requires i < |b|
    ensures Demand(b, k) == Demand([b[i]], k) + Demand(b[..i] + b[i + 1..], k)
  {
    assert b == (b[..i] + [b[i]]) + b[i + 1..];
    DemandSplit(b[..i] + [b[i]], b[i + 1..], k);
    DemandSplit(b[..i], [b[i]], k);
    DemandSplit(b[..i], b[i + 1..], k);
  }

  lemma {:induction false} DemandIgnoresOrder(a: seq<RangeOp>, b: seq<RangeOp>, k: Key)
    requires multiset(a) == multiset(b)
    ensures Demand(a, k) == Demand(b, k)
    decreases |a|
  {
    if a == [] {
      assert |multiset(b)| == 0;
    } else {
      assert a[0] in multiset(b);
      var i :| 0 <= i < |b| && b[i] == a[0];
      DropMatch(a, b, i);
      DemandIgnoresOrder(a[1..], b[..i] + b[i + 1..], k);
      DemandDrop(b, i, k);
    }
  }

  /** The order in which a batch of holds arrives changes neither its full acceptance nor the final table. */
  lemma BatchOrderIrrelevant(t: Table, a: seq<RangeOp>, b: seq<RangeOp>)
    requires LedgerInv(t) && HoldBatch(a) && multiset(a) == multiset(b)
    ensures Chain(t, a) == Chain(t, b)
  {
    forall x
      ensures x in a <==> x in b
    {
      assert x in multiset(a) <==> x in multiset(b);
    }
    forall i | 0 <= i < |b|
      ensures b[i] in a
    {
      assert b[i] in b;
    }
    assert HoldBatch(b);
    forall k
      ensures Demand(a, k) == Demand(b, k)
    {
      DemandIgnoresOrder(a, b, k);
    }
    if BatchFits(t, a) { FitsIgnoresOrder(t, a, b); }
    if BatchFits(t, b) { FitsIgnoresOrder(t, b, a); }
    BatchAcceptedIff(t, a);
    BatchAcceptedIff(t, b);
    assert Held(t, a) == Held(t, b);
  }

  lemma FitsIgnoresOrder(t: Table, a: seq<RangeOp>, b: seq<RangeOp>)
    requires forall x :: x in a <==> x in b
    requires forall k :: Demand(a, k) == Demand(b, k)
    requires BatchFits(t, a)
    ensures BatchFits(t, b)
  {
    forall i, k | 0 <= i < |b| && Covers(b[i], k)
      ensures k in t && t[k].hotel == b[i].hotel && !t[k].stopSell && Demand(b, k) <= t[k].available
    {
      assert b[i] in a;
      var j :| 0 <= j < |a| && a[j] == b[i];
      assert Covers(a[j], k);
    }
  }

  // ---------------------------------------------------------------- frozen rows

  /** An oversubscribed row refuses every kind and quantity, and only such a row refuses a possible release. */
  lemma OversubscribedRefusesAll(r: Row, kind: Kind, q: int)
    requires RowInv(r) && q > 0
    ensures Oversubscribed(r) ==> !RowAccepts(kind, r, q)
    ensures q <= r.blocked ==> (RowAccepts(Release, r, q) <==> !Oversubscribed(r))
    ensures q <= r.sold ==> (RowAccepts(Cancel, r, q) <==> !Oversubscribed(r))
  {
  }

  /** No total change in the run raises the row's total to what it already owes. */
  ghost predicate NeverRaised(es: seq<LedgerEvent>, k: Key, owed: int) {
    forall i | 0 <= i < |es| :: es[i].TotalSet? && es[i].roomType == k.roomType ==> es[i].newTotal < owed
  }

  lemma FrozenStep(t: Table, e: LedgerEvent, k: Key)
    requires Allowed(t, e) && LedgerInv(t) && k in t && Oversubscribed(t[k])
    requires e.TotalSet? && e.roomType == k.roomType ==> e.newTotal < t[k].blocked + t[k].sold
    ensures k in StepLedger(t, e) && Oversubscribed(StepLedger(t, e)[k])
    ensures StepLedger(t, e)[k].blocked == t[k].blocked && StepLedger(t, e)[k].sold == t[k].sold
    ensures StepLedger(t, e)[k].available == 0
  {
  }

  /**
   A row left oversubscribed is frozen: throughout any run in which its total is not raised
   back, its counters do not move and every range operation touching it is refused.
   */
  lemma {:induction false} FrozenUntilRaised(t: Table, es: seq<LedgerEvent>, k: Key)
    requires AllowedRun(t, es) && LedgerInv(t) && k in t && Oversubscribed(t[k])
    requires NeverRaised(es, k, t[k].blocked + t[k].sold)
    ensures k in Replay(t, es) && Oversubscribed(Replay(t, es)[k])
    ensures Replay(t, es)[k].blocked == t[k].blocked && Replay(t, es)[k].sold == t[k].sold
    ensures forall op: RangeOp | Covers(op, k) :: !Accepts(Replay(t, es), op)
    decreases |es|
  {
    if es == [] {
      forall op: RangeOp | Covers(op, k)
        ensures !Accepts(t, op)
      {
        if Accepts(t, op) { OversubscribedRefusesAll(t[k], op.kind, op.quantity); }
      }
    } else {
      assert es[0] in es;
      FrozenStep(t, es[0], k);
      StepKeepsInvariant(t, es[0]);
      forall i | 0 <= i < |es[1..]|
        ensures es[1..][i].TotalSet? && es[1..][i].roomType == k.roomType ==>
                  es[1..][i].newTotal < t[k].blocked + t[k].sold
      {
        assert es[1..][i] == es[i + 1];
      }
      FrozenUntilRaised(StepLedger(t, es[0]), es[1..], k);
    }
  }
}
