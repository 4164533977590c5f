/** What every run of service calls keeps. */
module HotelInvariants {
  import opened Outcomes
  import opened Calendar
  import opened Ledger
  import opened Claims
  import opened HotelState
  import LedgerLaws

  // ---------------------------------------------------------------- the invariant

  /** A stored booking was once held: it asks for rooms on a non-empty stay whose rows all exist in its hotel. */
  ghost predicate Booked(t: Table, b: Booking) {
    && b.rooms > 0 && b.checkIn < b.checkOut
    && forall k | StaysOn(b, k) :: k in t && t[k].hotel == b.hotel
  }

  ghost predicate PaidFor(s: State, id: nat) {
    exists order :: order in s.payments && s.payments[order].booking == id
  }

  ghost predicate BookingInv(s: State, id: nat)
    requires id in s.bookings
  {
    var b := s.bookings[id];
    && Booked(s.rows, b)
    && (b.status == OnHold ==> b.holdExpiresAt.Some? && Live(b) && !PaidFor(s, id))
    && (!Live(b) ==> b.status == Cancelled && !PaidFor(s, id))
  }

  /** Every payment pays for one booking, each booking has at most one, and no bought booking has an open one. */
  ghost predicate PaymentInv(s: State) {
    && (forall order | order in s.payments :: s.payments[order].booking in s.bookings)
    && (forall order | order in s.payments && s.payments[order].booking in s.bookings ::
          s.payments[order].status != Succeeded ==> !Settled(s.bookings[s.payments[order].booking]))
    && (forall p, q | p in s.payments && q in s.payments && s.payments[p].booking == s.payments[q].booking :: p == q)
  }

  ghost predicate BlockedIsOwed(s: State) {
    forall k | k in s.rows :: s.rows[k].blocked == Owed(ToBlocked, s.bookings, k)
  }

  ghost predicate Inv(s: State) {
    && LedgerInv(s.rows)
    && (forall id | id in s.bookings :: BookingInv(s, id))
    && PaymentInv(s)
    && BlockedIsOwed(s)
  }

  lemma InitialInv(s: State)
    requires Initial(s)
    ensures Inv(s)
  {
  }

  // ---------------------------------------------------------------- the table part of a step

  function HoldFor(b: Booking): RangeOp {
    RangeFor(Hold, b, b.rooms)
  }

  /** The ledger event, if any, that a service call causes. */
  ghost function LedgerEvents(s: State, e: Event): seq<LedgerEvent> {
    match e
    case HoldBooking(_, q, user) =>
      if Storable(q) then [Range(HoldFor(NewBooking(q, user, s.now)))] else []
    case CancelExpiredHold(id) =>
      if id in s.bookings && s.bookings[id].status == OnHold
      then [Range(RangeFor(Release, s.bookings[id], s.bookings[id].rooms))] else []
    case UpdatePaymentType(id, _) =>
      if id in s.bookings && s.bookings[id].status == OnHold
      then [Range(RangeFor(ConfirmDirect, s.bookings[id], s.bookings[id].isSelfBook))] else []
    case CancelBooking(id, caller) =>
      if id in s.bookings && MayCancel(s.bookings[id], caller)
      then [Range(RangeFor(Cancel, s.bookings[id], s.bookings[id].rooms))] else []
    case HandleIpn(order, n) =>
      if order in s.payments && s.payments[order].status != Succeeded && Verdict(n) == Succeeded
         && s.payments[order].booking in s.bookings
      then
        var b := s.bookings[s.payments[order].booking];
        [Range(RangeFor(ConfirmDirect, b, b.rooms))]
      else []
    case CancelRange(op) => [Range(op)]
    case CreateRoomType(hotel, roomType, first, total) => [Opened(hotel, roomType, first, total)]
    case UpdateRoomType(roomType, newTotal) => [TotalSet(roomType, newTotal)]
    case UpdateBooking(_, _, _) => []
    case StartMomoPayment(_, _) => []
    case Tick(_) => []
  }

  lemma BookingOnLedger(s: State, id: nat, b: Booking)
    ensures AfterBooking(s, id, b).rows == RunOp(s.rows, HoldFor(b))
  {
  }

  lemma StepOnLedger(s: State, e: Event)
    requires Possible(s, e)
    ensures |LedgerEvents(s, e)| <= 1
    ensures LedgerEvents(s, e) == [] ==> Step(s, e).rows == s.rows
    ensures LedgerEvents(s, e) != [] ==>
              && Allowed(s.rows, LedgerEvents(s, e)[0])
              && Step(s, e).rows == StepLedger(s.rows, LedgerEvents(s, e)[0])
  {
    if e.HoldBooking? && Storable(e.request) {
      BookingOnLedger(s, e.id, NewBooking(e.request, e.user, s.now));
    }
  }

  /** The ledger events of a whole run of service calls, in order. */
  ghost function LedgerRun(s: State, es: seq<Event>): seq<LedgerEvent>
    requires PossibleRun(s, es)
    decreases |es|
  {
    if es == [] then [] else LedgerEvents(s, es[0]) + LedgerRun(Step(s, es[0]), es[1..])
  }

  /** Every run of service calls is, for the table, a run of the ledger; so every law of the ledger holds of it. */
  lemma {:induction false} RunOnLedger(s: State, es: seq<Event>)
    requires PossibleRun(s, es)
    ensures AllowedRun(s.rows, LedgerRun(s, es))
    ensures Replay(s.rows, LedgerRun(s, es)) == Run(s, es).rows
    decreases |es|
  {
    if es != [] {
      StepOnLedger(s, es[0]);
      RunOnLedger(Step(s, es[0]), es[1..]);
      var now, later := LedgerEvents(s, es[0]), LedgerRun(Step(s, es[0]), es[1..]);
      if now == [] {
        assert now + later == later;
      } else {
        assert (now + later)[1..] == later;
      }
    }
  }

  // ---------------------------------------------------------------- what a step may do to one booking

  /** Rows are never removed and never change hotel. */
  lemma RowsPersist(s: State, e: Event)
    requires Possible(s, e)
    ensures forall k | k in s.rows :: k in Step(s, e).rows && Step(s, e).rows[k].hotel == s.rows[k].hotel
  {
  }

  /** The fields of a stay never change once it is booked. */
  predicate SameStay(b: Booking, c: Booking) {
    && b.hotel == c.hotel && b.roomType == c.roomType && b.checkIn == c.checkIn && b.checkOut == c.checkOut
    && b.rooms == c.rooms && b.userId == c.userId && b.nights == c.nights
  }

  /** The edges of the booking status machine, with the calls that take them. */
  predicate Edge(e: Event, b: Booking, c: Booking) {
    || c.status == b.status
    || (e.CancelExpiredHold? && b.status == OnHold && c.status == Cancelled && c.cancelReason == Some(HoldExpired))
    || (e.UpdatePaymentType? && e.choice == PayAtHotel && b.status == OnHold && c.status == Confirmed)
    || (e.StartMomoPayment? && b.status == OnHold && c.status == PaymentPending)
    || (e.CancelBooking? && b.status != Expired && c.status == Cancelled)
    || (e.HandleIpn? && (c.status == Paid || c.status == Cancelled || c.status == Expired))
  }

  /** Every step keeps each booking, its stay, and follows an edge of the status machine. */
  lemma StepFollowsEdges(s: State, e: Event, id: nat)
    requires Possible(s, e) && id in s.bookings
    ensures id in Step(s, e).bookings
    ensures SameStay(s.bookings[id], Step(s, e).bookings[id])
    ensures Edge(e, s.bookings[id], Step(s, e).bookings[id])
    ensures s.bookings[id].status == OnHold && Step(s, e).bookings[id].status == OnHold ==>
              Step(s, e).bookings[id].holdExpiresAt == s.bookings[id].holdExpiresAt
  {
  }

  /** Payments appear only when a booking leaves its hold for the gateway. */
  lemma StepOnPayments(s: State, e: Event, order: nat)
    requires Possible(s, e) && order in Step(s, e).payments
    ensures order in s.payments ==>
              && Step(s, e).payments[order].booking == s.payments[order].booking
              && (s.payments[order].status == Succeeded ==> Step(s, e).payments[order] == s.payments[order])
    ensures order !in s.payments ==>
              && e == StartMomoPayment(Step(s, e).payments[order].booking, Some(order))
              && Step(s, e).payments[order].booking in s.bookings
              && s.bookings[Step(s, e).payments[order].booking].status == OnHold
              && Step(s, e).bookings[Step(s, e).payments[order].booking].status == PaymentPending
  {
  }

  // ---------------------------------------------------------------- the invariant is kept

  lemma StepKeepsLedger(s: State, e: Event)
    requires Possible(s, e) && LedgerInv(s.rows)
    ensures LedgerInv(Step(s, e).rows)
  {
    StepOnLedger(s, e);
    if LedgerEvents(s, e) != [] {
      LedgerLaws.StepKeepsInvariant(s.rows, LedgerEvents(s, e)[0]);
    }
  }

  /** A booking with an open payment is not bought by any step: only its own success notice could do that. */
  lemma OpenStaysUnsettled(s: State, e: Event, order: nat)
    requires Possible(s, e) && Inv(s) && order in Step(s, e).payments
    ensures Step(s, e).payments[order].booking in Step(s, e).bookings
    ensures Step(s, e).payments[order].status != Succeeded ==>
              !Settled(Step(s, e).bookings[Step(s, e).payments[order].booking])
  {
    StepOnPayments(s, e, order);
    var id := Step(s, e).payments[order].booking;
    StepFollowsEdges(s, e, id);
    if order in s.payments {
      assert PaidFor(s, id) && BookingInv(s, id);
    }
  }

  lemma OnePaymentStays(s: State, e: Event, p: nat, q: nat)
    requires Possible(s, e) && Inv(s) && p in Step(s, e).payments && q in Step(s, e).payments
    requires Step(s, e).payments[p].booking == Step(s, e).payments[q].booking
    ensures p == q
  {
    StepOnPayments(s, e, p);
    StepOnPayments(s, e, q);
    var id := Step(s, e).payments[p].booking;
    if p in s.payments || q in s.payments {
      assert PaidFor(s, id) && BookingInv(s, id);
    }
  }

  lemma StepKeepsPayments(s: State, e: Event)
    requires Possible(s, e) && Inv(s)
    ensures PaymentInv(Step(s, e))
  {
    var u := Step(s, e);
    forall order | order in u.payments
      ensures u.payments[order].booking in u.bookings
      ensures u.payments[order].status != Succeeded ==> !Settled(u.bookings[u.payments[order].booking])
    {
      OpenStaysUnsettled(s, e, order);
    }
    forall p, q | p in u.payments && q in u.payments && u.payments[p].booking == u.payments[q].booking
      ensures p == q
    {
      OnePaymentStays(s, e, p, q);
    }
  }

  lemma StaysBooked(t: Table, u: Table, b: Booking, c: Booking)
    requires Booked(t, b) && SameStay(b, c)
    requires forall k | k in t :: k in u && u[k].hotel == t[k].hotel
    ensures Booked(u, c)
  {
  }

  /** A booking becomes paid for only by leaving its hold for the gateway. */
  lemma StepPaysFor(s: State, e: Event, id: nat)
    requires Possible(s, e) && id in s.bookings && id in Step(s, e).bookings && PaidFor(Step(s, e), id)
    ensures PaidFor(s, id) || (s.bookings[id].status == OnHold && Step(s, e).bookings[id].status == PaymentPending)
  {
  }

  /** A booking's hold ends for the sweep only when it was on hold, and a swept booking is left alone. */
  lemma StepOnHold(s: State, e: Event, id: nat)
    requires Possible(s, e) && id in s.bookings && BookingInv(s, id)
    ensures id in Step(s, e).bookings
    ensures var b, c := s.bookings[id], Step(s, e).bookings[id];
            && (c.status == OnHold ==> b.status == OnHold && c.holdExpiresAt.Some? && Live(c))
            && (!Live(c) ==> c.status == Cancelled && (b.status == OnHold || !Live(b)))
  {
    if e.HandleIpn? && e.order in s.payments && s.payments[e.order].booking == id {
      assert PaidFor(s, id);
    }
  }

  lemma StepKeepsOldBooking(s: State, e: Event, id: nat)
    requires Possible(s, e) && Inv(s) && id in s.bookings
    ensures id in Step(s, e).bookings && BookingInv(Step(s, e), id)
  {
    assert BookingInv(s, id);
    StepFollowsEdges(s, e, id);
    RowsPersist(s, e);
    StaysBooked(s.rows, Step(s, e).rows, s.bookings[id], Step(s, e).bookings[id]);
    StepOnHold(s, e, id);
    if PaidFor(Step(s, e), id) { StepPaysFor(s, e, id); }
  }

  /** Storing a held booking: it is well booked, unpaid, and its rooms are blocked. */
  lemma HeldBookingInv(s: State, id: nat, b: Booking)
    requires Inv(s) && id !in s.bookings
    requires b.status == OnHold && b.cancelReason == None && b.holdExpiresAt.Some?
    requires Accepts(s.rows, HoldFor(b))
    ensures BookingInv(AfterBooking(s, id, b), id)
  {
  }

  lemma HeldRoomsBlocked(s: State, id: nat, b: Booking, k: Key)
    requires Inv(s) && id !in s.bookings && k in s.rows && b.cancelReason == None
    ensures AfterBooking(s, id, b).rows[k].blocked == Owed(ToBlocked, AfterBooking(s, id, b).bookings, k)
  {
    OwedUpdate(ToBlocked, s.bookings, id, b, k);
  }

  /** What one booking's release gives back is what it is no longer owed. */
  lemma ReleasedRoomsFreed(s: State, id: nat, k: Key)
    requires Inv(s) && k in s.rows
    ensures AfterExpiry(s, id).rows[k].blocked == Owed(ToBlocked, AfterExpiry(s, id).bookings, k)
  {
    if id in s.bookings {
      assert BookingInv(s, id);
      OwedUpdate(ToBlocked, s.bookings, id, ExpiredBooking(s.bookings[id], s.now), k);
    }
  }

  /** Calls other than a hold, an expiry and a creation leave every blocked counter and every claim to it alone. */
  lemma OthersKeepBlocked(s: State, e: Event, k: Key)
    requires Possible(s, e) && Inv(s) && k in s.rows
    requires !e.HoldBooking? && !e.CancelExpiredHold? && !e.CreateRoomType?
    ensures k in Step(s, e).rows && Step(s, e).rows[k].blocked == s.rows[k].blocked
  {
  }

  lemma OthersKeepClaims(s: State, e: Event, id: nat, k: Key)
    requires Possible(s, e) && Inv(s) && id in s.bookings
    requires !e.HoldBooking? && !e.CancelExpiredHold?
    ensures id in Step(s, e).bookings
    ensures RoomsOn(ToBlocked, Step(s, e).bookings[id], k) == RoomsOn(ToBlocked, s.bookings[id], k)
  {
    StepFollowsEdges(s, e, id);
    assert BookingInv(s, id);
  }

  /** A new room type's nights are claimed by nobody. */
  lemma CreationOwesNothing(c: Claim, s: State, k: Key)
    requires Inv(s) && k !in s.rows
    ensures Owed(c, s.bookings, k) == 0
  {
    forall id | id in s.bookings
      ensures RoomsOn(c, s.bookings[id], k) == 0
    {
      assert BookingInv(s, id);
    }
    OwedNothing(c, s.bookings.Keys, s.bookings, k);
  }

  lemma OthersKeepBoth(s: State, e: Event, k: Key)
    requires Possible(s, e) && Inv(s) && k in Step(s, e).rows
    requires !e.HoldBooking? && !e.CancelExpiredHold? && !e.CreateRoomType?
    ensures Step(s, e).rows[k].blocked == Owed(ToBlocked, Step(s, e).bookings, k)
  {
    var u := Step(s, e);
    StepOnLedger(s, e);
    OthersKeepBlocked(s, e, k);
    NoNewBooking(s, e);
    forall id | id in s.bookings
      ensures id in u.bookings && RoomsOn(ToBlocked, u.bookings[id], k) == RoomsOn(ToBlocked, s.bookings[id], k)
    {
      OthersKeepClaims(s, e, id, k);
    }
    OwedSame(ToBlocked, s.bookings.Keys, s.bookings, u.bookings, k);
  }

  lemma NoNewBooking(s: State, e: Event)
    requires Possible(s, e) && !e.HoldBooking?
    ensures Step(s, e).bookings.Keys == s.bookings.Keys
  {
  }

  /** A row's blocked counter moves only by holds and sweep releases, in step with what bookings are owed. */
  lemma StepKeepsBlocked(s: State, e: Event, k: Key)
    requires Possible(s, e) && Inv(s) && k in Step(s, e).rows
    ensures Step(s, e).rows[k].blocked == Owed(ToBlocked, Step(s, e).bookings, k)
  {
    if e.HoldBooking? {
      if Storable(e.request) { HeldRoomsBlocked(s, e.id, NewBooking(e.request, e.user, s.now), k); }
    } else if e.CancelExpiredHold? {
      ReleasedRoomsFreed(s, e.id, k);
    } else if e.CreateRoomType? {
      if k !in s.rows { CreationOwesNothing(ToBlocked, s, k); }
    } else {
      OthersKeepBoth(s, e, k);
    }
  }

  lemma StepKeepsInv(s: State, e: Event)
    requires Possible(s, e) && Inv(s)
    ensures Inv(Step(s, e))
  {
    var u := Step(s, e);
    StepKeepsLedger(s, e);
    StepKeepsPayments(s, e);
    forall id | id in u.bookings
      ensures BookingInv(u, id)
    {
      if id in s.bookings {
        StepKeepsOldBooking(s, e, id);
      } else {
        assert e.HoldBooking? && e.id == id;
        HeldBookingInv(s, id, NewBooking(e.request, e.user, s.now));
      }
    }
    forall k | k in u.rows
      ensures u.rows[k].blocked == Owed(ToBlocked, u.bookings, k)
    {
      StepKeepsBlocked(s, e, k);
    }
  }

  lemma {:induction false} RunKeepsInv(s: State, es: seq<Event>)
    requires PossibleRun(s, es) && Inv(s)
    ensures Inv(Run(s, es))
    decreases |es|
  {
    if es != [] {
      StepKeepsInv(s, es[0]);
      RunKeepsInv(Step(s, es[0]), es[1..]);
    }
  }
}
