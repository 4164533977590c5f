/**
 The expiry sweep: each minute it finds up to fifty holds past their expiry, oldest first,
 and cancels them one by one. Other calls may run between the find and each cancel.
 */
module CronSweep {
  import opened Outcomes
  import opened Bounds
  import opened Calendar
  import opened Ledger
  import opened Claims
  import opened HotelState
  import opened HotelInvariants
  import HotelRuns

  const BATCH := 50

  predicate IsExpired(b: Booking, now: int) {
    b.status == OnHold && b.holdExpiresAt.Some? && b.holdExpiresAt.value < now
  }

  function ExpiredAt(s: State, now: int): set<nat> {
    set id | id in s.bookings && IsExpired(s.bookings[id], now)
  }

  /** One booking's hold ends no later than another's. */
  predicate NoLater(s: State, a: nat, b: nat) {
    && a in s.bookings && s.bookings[a].holdExpiresAt.Some?
    && b in s.bookings && s.bookings[b].holdExpiresAt.Some?
    && s.bookings[a].holdExpiresAt.value <= s.bookings[b].holdExpiresAt.value
  }

  /** What the query may return: at most fifty expired holds, oldest first, ties in any order. */
  ghost predicate IsBatch(s: State, batch: seq<nat>) {
    && |batch| == Min(BATCH, |ExpiredAt(s, s.now)|)
    && (forall i | 0 <= i < |batch| :: batch[i] in ExpiredAt(s, s.now))
    && (forall i, j | 0 <= i < j < |batch| :: batch[i] != batch[j] && NoLater(s, batch[i], batch[j]))
    && (forall i, id | 0 <= i < |batch| && id in ExpiredAt(s, s.now) && id !in batch :: NoLater(s, batch[i], id))
  }

  // ---------------------------------------------------------------- the sweep among other calls

  datatype Sweep = Sweep(foundAt: int, left: seq<nat>)

  datatype World = World(s: State, sweeps: map<nat, Sweep>)

  datatype Action =
    | Call(event: Event)
    | Find(worker: nat, batch: seq<nat>)
    | CancelNext(worker: nat)
    | Stop(worker: nat)

  /** Expired holds are cancelled only by sweeps; a sweep stops early when a cancel throws. */
  ghost predicate Enabled(w: World, a: Action) {
    match a
    case Call(e) => !e.CancelExpiredHold? && Possible(w.s, e)
    case Find(worker, batch) => worker !in w.sweeps && IsBatch(w.s, batch)
    case CancelNext(worker) => worker in w.sweeps && w.sweeps[worker].left != []
    case Stop(worker) => worker in w.sweeps
  }

  ghost function Do(w: World, a: Action): World
    requires Enabled(w, a)
  {
    match a
    case Call(e) => w.(s := Step(w.s, e))
    case Find(worker, batch) => w.(sweeps := w.sweeps[worker := Sweep(w.s.now, batch)])
    case CancelNext(worker) =>
      var sweep := w.sweeps[worker];
      World(AfterExpiry(w.s, sweep.left[0]), w.sweeps[worker := sweep.(left := sweep.left[1..])])
    case Stop(worker) => w.(sweeps := w.sweeps - {worker})
  }

  /** A found booking that is still on hold was already past its expiry when it was found. */
  ghost predicate StillExpired(s: State, sweep: Sweep) {
    && sweep.foundAt <= s.now
    && forall i | 0 <= i < |sweep.left| ::
         sweep.left[i] in s.bookings &&
         (s.bookings[sweep.left[i]].status == OnHold ==> IsExpired(s.bookings[sweep.left[i]], sweep.foundAt))
  }

  ghost predicate SweepInv(w: World) {
    && Inv(w.s)
    && forall worker | worker in w.sweeps :: StillExpired(w.s, w.sweeps[worker])
  }

  /** A booking that is still on hold after a call was on hold before it, with the same expiry. */
  lemma CallKeepsSweep(s: State, e: Event, sweep: Sweep)
    requires Possible(s, e) && StillExpired(s, sweep)
    ensures StillExpired(Step(s, e), sweep)
  {
    forall i | 0 <= i < |sweep.left|
      ensures var id := sweep.left[i];
              id in Step(s, e).bookings &&
              (Step(s, e).bookings[id].status == OnHold ==> IsExpired(Step(s, e).bookings[id], sweep.foundAt))
    {
      StepFollowsEdges(s, e, sweep.left[i]);
    }
    ClockNeverFalls(s, e);
  }

  lemma ClockNeverFalls(s: State, e: Event)
    requires Possible(s, e)
    ensures s.now <= Step(s, e).now
  {
  }

  lemma ActionKeepsInv(w: World, a: Action)
    requires Enabled(w, a) && SweepInv(w)
    ensures SweepInv(Do(w, a))
  {
    var v := Do(w, a);
    match a
    case Call(e) =>
      StepKeepsInv(w.s, e);
      forall worker | worker in v.sweeps
        ensures StillExpired(v.s, v.sweeps[worker])
      {
        CallKeepsSweep(w.s, e, w.sweeps[worker]);
      }
    case Find(worker, batch) =>
    case CancelNext(worker) =>
      var e := CancelExpiredHold(w.sweeps[worker].left[0]);
      StepKeepsInv(w.s, e);
      forall other | other in v.sweeps
        ensures StillExpired(v.s, v.sweeps[other])
      {
        CallKeepsSweep(w.s, e, w.sweeps[other]);
      }
    case Stop(worker) =>
  }

  ghost predicate PossibleActions(w: World, acts: seq<Action>)
    decreases |acts|
  {
    acts != [] ==> Enabled(w, acts[0]) && PossibleActions(Do(w, acts[0]), acts[1..])
  }

  ghost function After(w: World, acts: seq<Action>): World
    requires PossibleActions(w, acts)
    decreases |acts|
  {
    if acts == [] then w else After(Do(w, acts[0]), acts[1..])
  }

  lemma {:induction false} ActionsKeepInv(w: World, acts: seq<Action>)
    requires PossibleActions(w, acts) && SweepInv(w)
    ensures SweepInv(After(w, acts))
    decreases |acts|
  {
    if acts != [] {
      ActionKeepsInv(w, acts[0]);
      ActionsKeepInv(Do(w, acts[0]), acts[1..]);
    }
  }

  /**
   Whatever calls and other sweeps run between a find and a cancel, the next action of a
   sweep changes a booking only if it is on hold and its expiry lay before the find.
   */
  lemma SweepCancelsOnlyExpired(start: State, acts: seq<Action>, worker: nat, id: nat)
    requires Initial(start) && PossibleActions(World(start, map[]), acts)
    requires var w := After(World(start, map[]), acts); Enabled(w, CancelNext(worker)) && id in w.s.bookings
    ensures var w := After(World(start, map[]), acts);
            var v := Do(w, CancelNext(worker));
            && id in v.s.bookings
            && (v.s.bookings[id] != w.s.bookings[id] ==>
                && id == w.sweeps[worker].left[0]
                && w.s.bookings[id].status == OnHold && w.s.bookings[id].holdExpiresAt.Some?
                && w.s.bookings[id].holdExpiresAt.value < w.sweeps[worker].foundAt <= w.s.now
                && v.s.bookings[id] ==
                   w.s.bookings[id].(status := Cancelled, cancelReason := Some(HoldExpired),
                                     canceledAt := Some(w.s.now)))
  {
    InitialInv(start);
    ActionsKeepInv(World(start, map[]), acts);
  }

  // ---------------------------------------------------------------- one sweep

  /** One uninterrupted sweep over a batch; a cancel that throws ends it. */
  ghost function SweepAll(s: State, batch: seq<nat>): State
    decreases |batch|
  {
    if batch == [] then s
    else
      var t := AfterExpiry(s, batch[0]);
      if batch[0] in t.bookings && t.bookings[batch[0]].status == OnHold then s else SweepAll(t, batch[1..])
  }

  /** Some night of the booking is oversubscribed, so its release is refused. */
  ghost predicate Frozen(s: State, id: nat) {
    id in s.bookings && HotelRuns.OnOversubscribedNight(s.rows, s.bookings[id])
  }

  ghost predicate Clear(s: State, ids: set<nat>) {
    forall id | id in ids :: !Frozen(s, id)
  }

  /** How many bookings of the batch come before the first frozen one. */
  ghost function ClearPrefix(s: State, batch: seq<nat>): (n: nat)
    ensures n <= |batch|
    ensures forall i | 0 <= i < n :: !Frozen(s, batch[i])
    ensures n < |batch| ==> Frozen(s, batch[n])
  {
    if batch == [] || Frozen(s, batch[0]) then 0 else 1 + ClearPrefix(s, batch[1..])
  }

  ghost predicate SameFrozen(s: State, t: State) {
    forall id :: Frozen(s, id) <==> Frozen(t, id)
  }

  lemma {:induction false} SamePrefix(s: State, t: State, batch: seq<nat>)
    requires SameFrozen(s, t)
    ensures ClearPrefix(s, batch) == ClearPrefix(t, batch)
  {
    if batch != [] && !Frozen(s, batch[0]) {
      SamePrefix(s, t, batch[1..]);
    }
  }

  /** q rooms went from blocked back to available and nothing else changed. */
  predicate Returned(r: Row, u: Row, q: int) {
    u == r.(blocked := r.blocked - q, available := r.available + q)
  }

  /** The bookings in ids were swept: each night got their rooms back, and the other bookings are as they were. */
  ghost predicate Swept(s: State, t: State, ids: set<nat>) {
    && ids <= s.bookings.Keys
    && t.rows.Keys == s.rows.Keys && t.bookings.Keys == s.bookings.Keys
    && (forall id | id in s.bookings && id !in ids :: t.bookings[id] == s.bookings[id])
    && (forall k | k in s.rows :: Returned(s.rows[k], t.rows[k], OwedBy(ToBlocked, ids, s.bookings, k)))
  }

  /** Cancelling one expired hold: it leaves the backlog, its rooms return, and no night freezes or thaws. */
  lemma SweepOne(s: State, id: nat, now: int)
    requires Inv(s) && id in ExpiredAt(s, now) && !Frozen(s, id)
    ensures var t := AfterExpiry(s, id);
            && Inv(t) && t.now == s.now
            && t.bookings == s.bookings[id := ExpiredBooking(s.bookings[id], s.now)]
            && ExpiredAt(t, now) == ExpiredAt(s, now) - {id}
            && t.rows.Keys == s.rows.Keys
            && forall k | k in s.rows ::
                 && Returned(s.rows[k], t.rows[k], RoomsOn(ToBlocked, s.bookings[id], k))
                 && (Oversubscribed(t.rows[k]) <==> Oversubscribed(s.rows[k]))
  {
    var b := s.bookings[id];
    StepKeepsInv(s, CancelExpiredHold(id));
    HotelRuns.ExpiryFailsIff(s, id);
    assert BookingInv(s, id);
    var op := RangeFor(Release, b, b.rooms);
    assert Accepts(s.rows, op);
    assert forall k :: Covers(op, k) <==> StaysOn(b, k);
  }

  lemma SweepOneFreezesNone(s: State, id: nat, now: int)
    requires Inv(s) && id in ExpiredAt(s, now) && !Frozen(s, id)
    ensures SameFrozen(s, AfterExpiry(s, id))
  {
    SweepOne(s, id, now);
    var t := AfterExpiry(s, id);
    forall j
      ensures Frozen(s, j) <==> Frozen(t, j)
    {
      if j in s.bookings {
        assert SameStay(s.bookings[j], t.bookings[j]);
        assert forall k :: StaysOn(s.bookings[j], k) <==> StaysOn(t.bookings[j], k);
      }
    }
  }

  /** Two disjoint sweeps in a row are one sweep of both. */
  lemma SweptTwice(s: State, u: State, t: State, a: set<nat>, b: set<nat>)
    requires Swept(s, u, a) && Swept(u, t, b) && a !! b
    ensures Swept(s, t, a + b)
  {
    forall k | k in s.rows
      ensures OwedBy(ToBlocked, a + b, s.bookings, k) ==
              OwedBy(ToBlocked, a, s.bookings, k) + OwedBy(ToBlocked, b, u.bookings, k)
    {
      OwedUnion(ToBlocked, a, b, s.bookings, k);
      OwedSame(ToBlocked, b, s.bookings, u.bookings, k);
    }
  }

  lemma NothingSwept(s: State)
    ensures Swept(s, s, {})
  {
  }

  lemma SweptOne(s: State, id: nat, now: int)
    requires Inv(s) && id in ExpiredAt(s, now) && !Frozen(s, id)
    ensures Swept(s, AfterExpiry(s, id), {id})
  {
    SweepOne(s, id, now);
    forall k | k in s.rows
      ensures OwedBy(ToBlocked, {id}, s.bookings, k) == RoomsOn(ToBlocked, s.bookings[id], k)
    {
      OwedSplit(ToBlocked, {id}, s.bookings, id, k);
      assert {id} - {id} == {};
    }
  }

  ghost function IdsOf(batch: seq<nat>): set<nat> {
    set id | id in batch
  }

  /** A batch of distinct expired holds. */
  ghost predicate Sweepable(s: State, batch: seq<nat>, now: int) {
    && Inv(s)
    && (forall i | 0 <= i < |batch| :: batch[i] in ExpiredAt(s, now))
    && (forall i, j | 0 <= i < j < |batch| :: batch[i] != batch[j])
  }

  /** A frozen booking at the head of the batch ends the sweep before it has done anything. */
  lemma FrozenHeadStops(s: State, batch: seq<nat>, now: int)
    requires Sweepable(s, batch, now) && batch != [] && Frozen(s, batch[0])
    ensures SweepAll(s, batch) == s
  {
    HotelRuns.ExpiryFailsIff(s, batch[0]);
  }

  lemma SweepableRest(s: State, batch: seq<nat>, now: int)
    requires Sweepable(s, batch, now) && batch != [] && !Frozen(s, batch[0])
    ensures Sweepable(AfterExpiry(s, batch[0]), batch[1..], now)
    ensures SweepAll(s, batch) == SweepAll(AfterExpiry(s, batch[0]), batch[1..])
  {
    SweepOne(s, batch[0], now);
    var t := AfterExpiry(s, batch[0]);
    forall i | 0 <= i < |batch[1..]|
      ensures batch[1..][i] in ExpiredAt(t, now)
    {
      assert batch[1..][i] == batch[i + 1];
    }
  }

  lemma PrefixSplit(s: State, batch: seq<nat>)
    requires batch != [] && !Frozen(s, batch[0])
    requires forall i, j | 0 <= i < j < |batch| :: batch[i] != batch[j]
    ensures var n := ClearPrefix(s, batch[1..]);
            && ClearPrefix(s, batch) == 1 + n
            && batch[..1 + n] == [batch[0]] + batch[1..][..n]
            && IdsOf(batch[..1 + n]) == {batch[0]} + IdsOf(batch[1..][..n])
            && batch[0] !in IdsOf(batch[1..][..n])
  {
  }

  /** A sweep takes exactly the bookings before the first frozen one; a frozen night stays so. */
  lemma {:induction false} SweepTakesPrefix(s: State, batch: seq<nat>, now: int)
    requires Sweepable(s, batch, now)
    ensures var t, n := SweepAll(s, batch), ClearPrefix(s, batch);
            && Inv(t) && t.now == s.now && SameFrozen(s, t)
            && ExpiredAt(t, now) == ExpiredAt(s, now) - IdsOf(batch[..n])
    decreases |batch|
  {
    if batch == [] {
    } else if Frozen(s, batch[0]) {
      FrozenHeadStops(s, batch, now);
    } else {
      var u := AfterExpiry(s, batch[0]);
      SweepableRest(s, batch, now);
      SweepOne(s, batch[0], now);
      SweepOneFreezesNone(s, batch[0], now);
      SamePrefix(s, u, batch[1..]);
      SweepTakesPrefix(u, batch[1..], now);
      PrefixSplit(s, batch);
    }
  }

  /** Those bookings' rooms return to their nights, and nothing else changes. */
  lemma {:induction false} SweepReturnsPrefix(s: State, batch: seq<nat>, now: int)
    requires Sweepable(s, batch, now)
    ensures Swept(s, SweepAll(s, batch), IdsOf(batch[..ClearPrefix(s, batch)]))
    decreases |batch|
  {
    if batch == [] {
      NothingSwept(s);
    } else if Frozen(s, batch[0]) {
      FrozenHeadStops(s, batch, now);
      NothingSwept(s);
      assert IdsOf(batch[..0]) == {};
    } else {
      var u, rest := AfterExpiry(s, batch[0]), batch[1..];
      SweepableRest(s, batch, now);
      SweptOne(s, batch[0], now);
      SweepOneFreezesNone(s, batch[0], now);
      SamePrefix(s, u, rest);
      SweepReturnsPrefix(u, rest, now);
      PrefixSplit(s, batch);
      SweptTwice(s, u, SweepAll(u, rest), {batch[0]}, IdsOf(rest[..ClearPrefix(s, rest)]));
    }
  }

  // ---------------------------------------------------------------- draining a backlog

  lemma {:induction false} DistinctIds(batch: seq<nat>)
    requires forall i, j | 0 <= i < j < |batch| :: batch[i] != batch[j]
    ensures |IdsOf(batch)| == |batch|
  {
    if batch != [] {
      DistinctIds(batch[1..]);
      assert IdsOf(batch) == IdsOf(batch[1..]) + {batch[0]};
    }
  }

  /** A tick of the minute timer: the clock has moved on, the query has run, the batch is swept. */
  datatype MinuteTick = MinuteTick(at: int, batch: seq<nat>)

  /** The clock only moves forward, no further hold has expired, and the batch is what the query returned. */
  ghost predicate QuietTick(s: State, tick: MinuteTick) {
    && s.now <= tick.at
    && ExpiredAt(s, tick.at) == ExpiredAt(s, s.now)
    && IsBatch(s.(now := tick.at), tick.batch)
  }

  ghost function AfterTick(s: State, tick: MinuteTick): State {
    SweepAll(s.(now := tick.at), tick.batch)
  }

  /** What the tick sweeps: its batch up to the first frozen booking. */
  ghost function Taken(s: State, tick: MinuteTick): set<nat> {
    IdsOf(tick.batch[..ClearPrefix(s, tick.batch)])
  }

  lemma ClockChangeKeepsInv(s: State, at: int)
    requires Inv(s)
    ensures Inv(s.(now := at)) && SameFrozen(s, s.(now := at))
  {
    var u := s.(now := at);
    forall id | id in u.bookings
      ensures BookingInv(u, id)
    {
      assert BookingInv(s, id);
      assert PaidFor(u, id) == PaidFor(s, id);
    }
  }

  lemma SweptClock(s: State, t: State, ids: set<nat>, at: int)
    requires Swept(s.(now := at), t, ids)
    ensures Swept(s, t, ids)
  {
  }

  /** A tick sweeps the batch up to the first frozen booking, gives those rooms back, and freezes or thaws nothing. */
  lemma TickTakesPrefix(s: State, tick: MinuteTick)
    requires Inv(s) && QuietTick(s, tick)
    ensures var t := AfterTick(s, tick);
            && Inv(t) && t.now == tick.at && SameFrozen(s, t)
            && ExpiredAt(t, t.now) == ExpiredAt(s, s.now) - Taken(s, tick)
            && Taken(s, tick) <= ExpiredAt(s, s.now)
            && Swept(s, t, Taken(s, tick))
  {
    var u := s.(now := tick.at);
    assert ExpiredAt(u, tick.at) == ExpiredAt(s, s.now);
    ClockChangeKeepsInv(s, tick.at);
    SamePrefix(s, u, tick.batch);
    SweepTakesPrefix(u, tick.batch, tick.at);
    SweepReturnsPrefix(u, tick.batch, tick.at);
    SweptClock(s, AfterTick(s, tick), Taken(s, tick), tick.at);
  }

  lemma ClearTakesAll(s: State, tick: MinuteTick)
    requires QuietTick(s, tick) && Clear(s, ExpiredAt(s, s.now))
    ensures Taken(s, tick) == IdsOf(tick.batch)
    ensures |IdsOf(tick.batch)| == Min(BATCH, |ExpiredAt(s, s.now)|)
  {
    assert ExpiredAt(s.(now := tick.at), tick.at) == ExpiredAt(s, s.now);
    assert tick.batch[..|tick.batch|] == tick.batch;
    DistinctIds(tick.batch);
  }

  /** With no frozen hold in the backlog, one tick takes its oldest fifty, or all of it. */
  lemma TickShrinks(s: State, tick: MinuteTick)
    requires Inv(s) && Clear(s, ExpiredAt(s, s.now)) && QuietTick(s, tick)
    ensures var t := AfterTick(s, tick);
            && Clear(t, ExpiredAt(t, t.now))
            && |ExpiredAt(t, t.now)| == Max(0, |ExpiredAt(s, s.now)| - BATCH)
  {
    TickTakesPrefix(s, tick);
    ClearTakesAll(s, tick);
    assert |ExpiredAt(s, s.now) - IdsOf(tick.batch)| == |ExpiredAt(s, s.now)| - |IdsOf(tick.batch)|;
  }

  /** What a tick leaves behind expired no earlier than anything it took, frozen holds or not. */
  lemma OldestFirst(s: State, tick: MinuteTick, taken: nat, kept: nat)
    requires Inv(s) && QuietTick(s, tick) && taken in ExpiredAt(s, s.now)
    requires taken !in ExpiredAt(AfterTick(s, tick), tick.at) && kept in ExpiredAt(AfterTick(s, tick), tick.at)
    ensures NoLater(s, taken, kept)
    ensures s.bookings[taken].holdExpiresAt.value <= s.bookings[kept].holdExpiresAt.value
  {
    TickTakesPrefix(s, tick);
    var u, n := s.(now := tick.at), ClearPrefix(s, tick.batch);
    var i :| 0 <= i < n && tick.batch[i] == taken;
    if kept in tick.batch {
      var j :| 0 <= j < |tick.batch| && tick.batch[j] == kept;
      assert tick.batch[..n][i] == taken;
      assert NoLater(u, tick.batch[i], tick.batch[j]);
    } else {
      assert kept in ExpiredAt(u, u.now);
      assert NoLater(u, tick.batch[i], kept);
    }
  }

  ghost predicate QuietTicks(s: State, ticks: seq<MinuteTick>)
    decreases |ticks|
  {
    ticks != [] ==> QuietTick(s, ticks[0]) && QuietTicks(AfterTick(s, ticks[0]), ticks[1..])
  }

  ghost function AfterTicks(s: State, ticks: seq<MinuteTick>): State
    requires QuietTicks(s, ticks)
    decreases |ticks|
  {
    if ticks == [] then s else AfterTicks(AfterTick(s, ticks[0]), ticks[1..])
  }

  lemma {:induction false} TicksOnlyTake(s: State, ticks: seq<MinuteTick>)
    requires Inv(s) && QuietTicks(s, ticks)
    ensures var t := AfterTicks(s, ticks);
            && Inv(t) && SameFrozen(s, t)
            && ExpiredAt(t, t.now) <= ExpiredAt(s, s.now)
            && (forall id | id in ExpiredAt(s, s.now) && Frozen(s, id) :: id in ExpiredAt(t, t.now))
    decreases |ticks|
  {
    if ticks != [] {
      TickTakesPrefix(s, ticks[0]);
      TicksOnlyTake(AfterTick(s, ticks[0]), ticks[1..]);
    }
  }

  /** A frozen hold blocks every hold that expired after it: no number of ticks sweeps either of them. */
  lemma {:induction false} BehindFrozenWaits(s: State, ticks: seq<MinuteTick>, frozen: nat, id: nat)
    requires Inv(s) && QuietTicks(s, ticks)
    requires frozen in ExpiredAt(s, s.now) && Frozen(s, frozen)
    requires id in ExpiredAt(s, s.now) && !NoLater(s, id, frozen)
    ensures var t := AfterTicks(s, ticks); id in ExpiredAt(t, t.now) && t.bookings[id] == s.bookings[id]
    decreases |ticks|
  {
    if ticks != [] {
      var u := AfterTick(s, ticks[0]);
      TickTakesPrefix(s, ticks[0]);
      if id !in ExpiredAt(u, u.now) { OldestFirst(s, ticks[0], id, frozen); }
      BehindFrozenWaits(u, ticks[1..], frozen, id);
    }
  }

  lemma FiftyEach(n: nat, ticks: nat)
    ensures Max(0, Max(0, n - BATCH) - BATCH * ticks) == Max(0, n - BATCH * (ticks + 1))
    ensures Max(0, n - BATCH * ticks) == 0 <==> ticks >= (n + BATCH - 1) / BATCH
  {
  }

  /** With no frozen hold in it, the backlog falls by fifty with every tick. */
  lemma {:induction false} TicksShrink(s: State, ticks: seq<MinuteTick>)
    requires Inv(s) && Clear(s, ExpiredAt(s, s.now)) && QuietTicks(s, ticks)
    ensures var t := AfterTicks(s, ticks);
            |ExpiredAt(t, t.now)| == Max(0, |ExpiredAt(s, s.now)| - BATCH * |ticks|)
    decreases |ticks|
  {
    if ticks != [] {
      TickTakesPrefix(s, ticks[0]);
      TickShrinks(s, ticks[0]);
      TicksShrink(AfterTick(s, ticks[0]), ticks[1..]);
      FiftyEach(|ExpiredAt(s, s.now)|, |ticks[1..]|);
      assert |ticks| == |ticks[1..]| + 1;
    }
  }

  lemma JoinSweeps(s: State, u: State, t: State, all: set<nat>, mid: set<nat>, end: set<nat>)
    requires end <= mid <= all && Swept(s, u, all - mid) && Swept(u, t, mid - end)
    ensures Swept(s, t, all - end)
  {
    SweptTwice(s, u, t, all - mid, mid - end);
    assert (all - mid) + (mid - end) == all - end;
  }

  /** Each night gets back exactly what the holds swept so far had blocked. */
  lemma {:induction false} TicksReturnRooms(s: State, ticks: seq<MinuteTick>)
    requires Inv(s) && QuietTicks(s, ticks)
    ensures var t := AfterTicks(s, ticks);
            Swept(s, t, ExpiredAt(s, s.now) - ExpiredAt(t, t.now))
    decreases |ticks|
  {
    if ticks == [] {
      NothingSwept(s);
      assert ExpiredAt(s, s.now) - ExpiredAt(s, s.now) == {};
    } else {
      var u := AfterTick(s, ticks[0]);
      TickTakesPrefix(s, ticks[0]);
      TicksOnlyTake(u, ticks[1..]);
      TicksReturnRooms(u, ticks[1..]);
      var t := AfterTicks(u, ticks[1..]);
      assert Taken(s, ticks[0]) == ExpiredAt(s, s.now) - ExpiredAt(u, u.now);
      JoinSweeps(s, u, t, ExpiredAt(s, s.now), ExpiredAt(u, u.now), ExpiredAt(t, t.now));
    }
  }

  /**
   With no new expirations, a backlog of n expired holds is empty if and only if none of them
   stays on an oversubscribed night and at least ceil(n / 50) ticks have passed; then every
   night they held is available again.
   */
  lemma DrainedInCeilingTicks(s: State, ticks: seq<MinuteTick>)
    requires Inv(s) && QuietTicks(s, ticks)
    ensures var t := AfterTicks(s, ticks);
            var n := |ExpiredAt(s, s.now)|;
            && (ExpiredAt(t, t.now) == {} <==>
                Clear(s, ExpiredAt(s, s.now)) && |ticks| >= (n + 49) / 50)
            && (ExpiredAt(t, t.now) == {} ==> Swept(s, t, ExpiredAt(s, s.now)))
  {
    TicksOnlyTake(s, ticks);
    TicksReturnRooms(s, ticks);
    var t := AfterTicks(s, ticks);
    if Clear(s, ExpiredAt(s, s.now)) {
      TicksShrink(s, ticks);
      FiftyEach(|ExpiredAt(s, s.now)|, |ticks|);
      assert |ExpiredAt(t, t.now)| == 0 <==> ExpiredAt(t, t.now) == {};
    }
    if ExpiredAt(t, t.now) == {} {
      assert ExpiredAt(s, s.now) - ExpiredAt(t, t.now) == ExpiredAt(s, s.now);
    }
  }

  // ---------------------------------------------------------------- the same, hold by hold

  /** A tick changes no booking but holds whose expiry lies before it. */
  lemma TickSparesOthers(s: State, tick: MinuteTick, id: nat)
    requires Inv(s) && QuietTick(s, tick) && id in s.bookings
    requires s.bookings[id].status == OnHold && s.bookings[id].holdExpiresAt.Some? ==>
               s.bookings[id].holdExpiresAt.value >= tick.at
    ensures id in AfterTick(s, tick).bookings && AfterTick(s, tick).bookings[id] == s.bookings[id]
  {
    TickTakesPrefix(s, tick);
    assert id !in ExpiredAt(s, tick.at);
  }

  lemma {:induction false} SweepCancels(s: State, batch: seq<nat>, id: nat)
    requires id in s.bookings
    ensures var t := SweepAll(s, batch);
            && id in t.bookings
            && (t.bookings[id] == s.bookings[id]
                || (t.bookings[id].status == Cancelled && t.bookings[id].cancelReason == Some(HoldExpired)))
    decreases |batch|
  {
    if batch != [] {
      SweepCancels(AfterExpiry(s, batch[0]), batch[1..], id);
    }
  }

  /** A tick leaves a booking as it was, or cancels it as expired: exactly if it leaves the backlog. */
  lemma TickCancels(s: State, tick: MinuteTick, id: nat)
    requires Inv(s) && QuietTick(s, tick) && id in s.bookings
    ensures var t := AfterTick(s, tick);
            && id in t.bookings
            && if id in ExpiredAt(s, s.now) && id !in ExpiredAt(t, t.now)
               then t.bookings[id].status == Cancelled && t.bookings[id].cancelReason == Some(HoldExpired)
               else t.bookings[id] == s.bookings[id]
  {
    TickTakesPrefix(s, tick);
    SweepCancels(s.(now := tick.at), tick.batch, id);
  }

  lemma {:induction false} TicksCancel(s: State, ticks: seq<MinuteTick>, id: nat)
    requires Inv(s) && QuietTicks(s, ticks) && id in s.bookings
    ensures var t := AfterTicks(s, ticks);
            && id in t.bookings
            && if id in ExpiredAt(s, s.now) && id !in ExpiredAt(t, t.now)
               then t.bookings[id].status == Cancelled && t.bookings[id].cancelReason == Some(HoldExpired)
               else t.bookings[id] == s.bookings[id]
    decreases |ticks|
  {
    if ticks != [] {
      var u := AfterTick(s, ticks[0]);
      TickTakesPrefix(s, ticks[0]);
      TickCancels(s, ticks[0], id);
      TicksOnlyTake(u, ticks[1..]);
      TicksCancel(u, ticks[1..], id);
    }
  }

  /** The bookings on hold whose expiry lies before the clock. */
  function Late(s: State): set<nat> {
    set id | && id in s.bookings && s.bookings[id].status == OnHold
             && s.bookings[id].holdExpiresAt.Some? && s.bookings[id].holdExpiresAt.value < s.now
  }

  lemma LateIsBacklog(s: State)
    ensures Late(s) == ExpiredAt(s, s.now)
  {
  }

  lemma ClearNights(s: State, ids: set<nat>)
    requires forall id, k | id in ids && id in s.bookings && StaysOn(s.bookings[id], k) && k in s.rows ::
               s.rows[k].blocked + s.rows[k].sold <= s.rows[k].total
    ensures Clear(s, ids)
  {
  }

  /**
   A hold whose expiry has passed is cancelled as expired within ceil(n / 50) quiet ticks, n being
   the number of such holds, if no night of any of them owes more than its total; every other
   booking is as it was.
   */
  lemma LateHoldsAreCancelled(s: State, ticks: seq<MinuteTick>, id: nat)
    requires Inv(s) && QuietTicks(s, ticks) && id in s.bookings
    requires forall i, k | i in Late(s) && i in s.bookings && StaysOn(s.bookings[i], k) && k in s.rows ::
               s.rows[k].blocked + s.rows[k].sold <= s.rows[k].total
    requires |ticks| >= (|Late(s)| + 49) / 50
    ensures var t := AfterTicks(s, ticks);
            && id in t.bookings
            && if id in Late(s)
               then t.bookings[id].status == Cancelled && t.bookings[id].cancelReason == Some(HoldExpired)
               else t.bookings[id] == s.bookings[id]
  {
    LateIsBacklog(s);
    ClearNights(s, Late(s));
    DrainedInCeilingTicks(s, ticks);
    TicksCancel(s, ticks, id);
  }
}
