/** Safety over whole runs of service calls, replayed notices and sweeps. */
module HotelRuns {
  import opened Outcomes
  import opened Calendar
  import opened Ledger
  import opened Claims
  import opened HotelState
  import opened HotelInvariants
  import LedgerLaws

  // ---------------------------------------------------------------- blocked rooms cover the holds

  /** The bookings on hold. */
  function Holding(s: State): set<nat> {
    set id | id in s.bookings && s.bookings[id].status == OnHold
  }

  /**
   In every reachable state a night's blocked rooms are exactly the rooms of all covering
   bookings the sweep has not expired, hence at least the rooms of the bookings on hold.
   */
  lemma BlockedCoversHolds(start: State, es: seq<Event>, k: Key)
    requires Initial(start) && PossibleRun(start, es) && k in Run(start, es).rows
    ensures var s := Run(start, es);
            && s.rows[k].blocked == Owed(ToBlocked, s.bookings, k)
            && s.rows[k].blocked >= OwedBy(ToBlocked, Holding(s), s.bookings, k)
  {
    InitialInv(start);
    RunKeepsInv(start, es);
    var s := Run(start, es);
    assert forall id | id in s.bookings :: BookingInv(s, id);
    OwedMonotone(ToBlocked, Holding(s), s.bookings.Keys, s.bookings, k);
  }

  /** Some night of the stay owes more rooms than its lowered total. */
  ghost predicate OnOversubscribedNight(t: Table, b: Booking) {
    exists k :: StaysOn(b, k) && k in t && Oversubscribed(t[k])
  }

  /**
   Expiring a hold never fails for want of rows or blocked rooms: it fails exactly when a
   night of the stay was oversubscribed by a cut of the total.
   */
  lemma ExpiryFailsIff(s: State, id: nat)
    requires Inv(s) && id in s.bookings && s.bookings[id].status == OnHold
    ensures var b := s.bookings[id];
            && (AfterExpiry(s, id).bookings[id].status == OnHold <==> OnOversubscribedNight(s.rows, b))
            && (AfterExpiry(s, id).bookings[id].status != OnHold ==>
                AfterExpiry(s, id).bookings[id] == ExpiredBooking(b, s.now))
            && forall k | StaysOn(b, k) :: k in s.rows && s.rows[k].hotel == b.hotel && s.rows[k].blocked >= b.rooms
  {
    var b := s.bookings[id];
    assert BookingInv(s, id);
    forall k | StaysOn(b, k)
      ensures k in s.rows && s.rows[k].hotel == b.hotel && s.rows[k].blocked >= b.rooms
      ensures RowAccepts(Release, s.rows[k], b.rooms) <==> !Oversubscribed(s.rows[k])
    {
      BlockedCoversOne(s, id, k);
      LedgerLaws.OversubscribedRefusesAll(s.rows[k], Release, b.rooms);
    }
    var op := RangeFor(Release, b, b.rooms);
    assert forall k :: Covers(op, k) <==> StaysOn(b, k);
  }

  lemma BlockedCoversOne(s: State, id: nat, k: Key)
    requires Inv(s) && id in s.bookings && Live(s.bookings[id]) && StaysOn(s.bookings[id], k)
    ensures k in s.rows && s.rows[k].blocked >= s.bookings[id].rooms
  {
    assert BookingInv(s, id);
    assert forall i | i in s.bookings :: BookingInv(s, i);
    OwedMonotone(ToBlocked, {id}, s.bookings.Keys, s.bookings, k);
    OwedSplit(ToBlocked, {id}, s.bookings, id, k);
    assert {id} - {id} == {};
  }

  // ---------------------------------------------------------------- rooms that are never given back

  lemma StaysLive(s: State, e: Event, id: nat)
    requires Possible(s, e) && Inv(s) && id in s.bookings
    requires Live(s.bookings[id]) && s.bookings[id].status != OnHold
    ensures id in Step(s, e).bookings
    ensures Live(Step(s, e).bookings[id]) && Step(s, e).bookings[id].status != OnHold
  {
  }

  /**
   A booking that leaves its hold in any way other than the sweep keeps its rooms blocked for
   ever: no later run of calls brings the blocked counter of its nights below them.
   */
  lemma {:induction false} UnsweptHoldsStayBlocked(s: State, es: seq<Event>, id: nat, k: Key)
    requires Inv(s) && PossibleRun(s, es) && id in s.bookings
    requires Live(s.bookings[id]) && s.bookings[id].status != OnHold && StaysOn(s.bookings[id], k)
    ensures k in Run(s, es).rows && Run(s, es).rows[k].blocked >= s.bookings[id].rooms
    decreases |es|
  {
    if es == [] {
      BlockedCoversOne(s, id, k);
    } else {
      StepKeepsInv(s, es[0]);
      StaysLive(s, es[0], id);
      StepFollowsEdges(s, es[0], id);
      UnsweptHoldsStayBlocked(Step(s, es[0]), es[1..], id, k);
    }
  }

  // ---------------------------------------------------------------- the status machine

  /** How far a booking is from its hold. */
  function Rank(status: BookingStatus): nat {
    match status
    case OnHold => 0
    case PaymentPending => 1
    case _ => 2
  }

  /** No call, notice or sweep, in any order and however often repeated, takes a booking back towards its hold. */
  lemma {:induction false} RankNeverFalls(s: State, es: seq<Event>, id: nat)
    requires PossibleRun(s, es) && id in s.bookings
    ensures id in Run(s, es).bookings
    ensures Rank(s.bookings[id].status) <= Rank(Run(s, es).bookings[id].status)
    decreases |es|
  {
    if es != [] {
      StepFollowsEdges(s, es[0], id);
      RankNeverFalls(Step(s, es[0]), es[1..], id);
    }
  }

  /** Once left, a hold or a pending payment is never entered again. */
  lemma NeverReentered(s: State, before: seq<Event>, after: seq<Event>, id: nat, status: BookingStatus)
    requires status == OnHold || status == PaymentPending
    requires PossibleRun(s, before) && PossibleRun(Run(s, before), after)
    requires id in s.bookings && s.bookings[id].status == status
    requires id in Run(s, before).bookings && Run(s, before).bookings[id].status != status
    ensures id in Run(Run(s, before), after).bookings
    ensures Run(Run(s, before), after).bookings[id].status != status
  {
    RankNeverFalls(s, before, id);
    RankNeverFalls(Run(s, before), after, id);
  }

  // ---------------------------------------------------------------- payments and notices

  /** Each booking has at most one payment record. */
  lemma OnePaymentPerBooking(start: State, es: seq<Event>, p: nat, q: nat)
    requires Initial(start) && PossibleRun(start, es)
    requires p in Run(start, es).payments && q in Run(start, es).payments
    requires Run(start, es).payments[p].booking == Run(start, es).payments[q].booking
    ensures p == q
  {
    InitialInv(start);
    RunKeepsInv(start, es);
  }

  lemma PaymentsPersist(s: State, e: Event, order: nat)
    requires Possible(s, e) && order in s.payments
    ensures order in Step(s, e).payments
  {
  }

  /** A successful payment never changes again. */
  lemma {:induction false} SuccessIsFinal(s: State, es: seq<Event>, order: nat)
    requires PossibleRun(s, es) && order in s.payments && s.payments[order].status == Succeeded
    ensures order in Run(s, es).payments && Run(s, es).payments[order] == s.payments[order]
    decreases |es|
  {
    if es != [] {
      PaymentsPersist(s, es[0], order);
      StepOnPayments(s, es[0], order);
      SuccessIsFinal(Step(s, es[0]), es[1..], order);
    }
  }

  /** How often notices confirm the inventory of one booking during a run. */
  ghost function IpnConfirmations(s: State, es: seq<Event>, id: nat): nat
    requires PossibleRun(s, es)
    decreases |es|
  {
    if es == [] then 0
    else
      (if es[0].HandleIpn? && IpnConfirms(s, es[0].order, es[0].notice, id) then 1 else 0)
      + IpnConfirmations(Step(s, es[0]), es[1..], id)
  }

  ghost predicate HasSucceeded(s: State, id: nat) {
    exists order :: order in s.payments && s.payments[order].booking == id && s.payments[order].status == Succeeded
  }

  ghost function Successes(s: State, id: nat): nat {
    if HasSucceeded(s, id) then 1 else 0
  }

  /** Only a confirming notice makes a payment succeed, and only one that had not succeeded before. */
  lemma StepConfirmsOnce(s: State, e: Event, id: nat)
    requires Possible(s, e) && Inv(s)
    ensures Successes(Step(s, e), id) ==
            Successes(s, id) + if e.HandleIpn? && IpnConfirms(s, e.order, e.notice, id) then 1 else 0
  {
    var u := Step(s, e);
    if HasSucceeded(s, id) {
      var order :| order in s.payments && s.payments[order].booking == id && s.payments[order].status == Succeeded;
      PaymentsPersist(s, e, order);
      StepOnPayments(s, e, order);
      assert u.payments[order].status == Succeeded;
    }
    if e.HandleIpn? && IpnConfirms(s, e.order, e.notice, id) {
      assert u.payments[e.order].status == Succeeded && u.payments[e.order].booking == id;
    } else if HasSucceeded(u, id) {
      var order :| order in u.payments && u.payments[order].booking == id && u.payments[order].status == Succeeded;
      NewSuccess(s, e, order);
    }
  }

  lemma NewSuccess(s: State, e: Event, order: nat)
    requires Possible(s, e) && Inv(s) && order in Step(s, e).payments && Step(s, e).payments[order].status == Succeeded
    ensures order in s.payments && Step(s, e).payments[order].booking == s.payments[order].booking
    ensures s.payments[order].status != Succeeded ==>
              e.HandleIpn? && e.order == order && IpnConfirms(s, order, e.notice, s.payments[order].booking)
  {
  }

  /**
   Under any replay or reordering of notices and calls, the notices confirm each booking's
   inventory exactly as often as its payment becomes successful: at most once.
   */
  lemma {:induction false} ConfirmedOncePerSuccess(s: State, es: seq<Event>, id: nat)
    requires Inv(s) && PossibleRun(s, es)
    ensures IpnConfirmations(s, es, id) == Successes(Run(s, es), id) - Successes(s, id)
    decreases |es|
  {
    if es != [] {
      StepConfirmsOnce(s, es[0], id);
      StepKeepsInv(s, es[0]);
      ConfirmedOncePerSuccess(Step(s, es[0]), es[1..], id);
    }
  }

  lemma ConfirmedAtMostOnce(start: State, es: seq<Event>, id: nat)
    requires Initial(start) && PossibleRun(start, es)
    ensures IpnConfirmations(start, es, id) <= 1
    ensures IpnConfirmations(start, es, id) == 1 <==> HasSucceeded(Run(start, es), id)
  {
    InitialInv(start);
    ConfirmedOncePerSuccess(start, es, id);
  }
}
