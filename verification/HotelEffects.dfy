/**
 What each service call does, counter by counter and field by field, and exactly when the
 inventory lets it: stated without the range operations the calls are built from.
 */
module HotelEffects {
  import opened Outcomes
  import opened Calendar
  import opened Ledger
  import opened Claims
  import opened HotelState
  import opened HotelInvariants
  import CalendarLaws
  import HotelRuns
  import LedgerLaws
  import LedgerHistory

  /** The rows of a stay changed by the given amounts, and no other row did. */
  ghost predicate Shifted(t: Table, u: Table, b: Booking, available: int, blocked: int, sold: int) {
    && u.Keys == t.Keys
    && forall k | k in t ::
         u[k] == if StaysOn(b, k)
                 then t[k].(available := t[k].available + available, blocked := t[k].blocked + blocked,
                            sold := t[k].sold + sold)
                 else t[k]
  }

  /** Every night of the stay exists in the hotel, is on sale and has q rooms available. */
  ghost predicate HasRooms(t: Table, b: Booking, q: int) {
    q > 0 && forall k | StaysOn(b, k) :: k in t && t[k].hotel == b.hotel && !t[k].stopSell && q <= t[k].available
  }

  lemma CoversIsStay(kind: Kind, b: Booking, q: int)
    ensures forall k :: Covers(RangeFor(kind, b, q), k) <==> StaysOn(b, k)
  {
  }

  lemma TakesRoomsIff(t: Table, b: Booking, kind: Kind, q: int)
    requires LedgerInv(t) && b.checkIn < b.checkOut && (kind == Hold || kind == ConfirmDirect)
    ensures Accepts(t, RangeFor(kind, b, q)) <==> HasRooms(t, b, q)
    ensures HasRooms(t, b, q) ==>
              Shifted(t, RunOp(t, RangeFor(kind, b, q)), b, -q,
                      if kind == Hold then q else 0, if kind == Hold then 0 else q)
  {
  }

  /** The booking is stored and each of its nights moves its rooms from available to blocked. */
  ghost predicate Held(s: State, t: State, id: nat, b: Booking) {
    && t.bookings == s.bookings[id := b] && t.payments == s.payments && t.now == s.now
    && Shifted(s.rows, t.rows, b, -b.rooms, b.rooms, 0)
  }

  lemma BookingEffect(s: State, id: nat, b: Booking)
    requires Inv(s) && b.checkIn < b.checkOut
    ensures HasRooms(s.rows, b, b.rooms) ==> Held(s, AfterBooking(s, id, b), id, b)
    ensures !HasRooms(s.rows, b, b.rooms) ==> AfterBooking(s, id, b) == s
  {
  }

  lemma RequestRead(q: HoldRequest, user: Option<int>, now: int, first: Day, last: Day)
    requires q.checkIn == Iso(first) && q.checkOut == Iso(last)
    ensures Storable(q) <==> first < last
    ensures first < last ==>
              NewBooking(q, user, now) ==
              Booking(q.hotel, q.roomType, first, last, last - first, user, q.rooms, 1, 0, None, None,
                      Some(now + 600_000), None, OnHold)
  {
    CalendarLaws.ParsePrinted(first);
    CalendarLaws.ParsePrinted(last);
  }

  /** Rooms are asked for a stay that is not empty, and every night of it has them on sale in the hotel. */
  ghost predicate Fits(t: Table, q: HoldRequest, first: Day, last: Day) {
    && first < last && q.rooms > 0
    && forall k: Key | k.roomType == q.roomType && first <= k.night < last ::
         k in t && t[k].hotel == q.hotel && !t[k].stopSell && q.rooms <= t[k].available
  }

  /** The asked nights, and no others, moved the asked rooms from available to blocked, for a booking of that stay. */
  ghost predicate HeldFor(s: State, t: State, id: nat, q: HoldRequest, user: Option<int>, first: Day, last: Day) {
    && t.payments == s.payments && t.now == s.now && t.rows.Keys == s.rows.Keys
    && t.bookings ==
       s.bookings[id := Booking(q.hotel, q.roomType, first, last, last - first, user, q.rooms, 1, 0, None, None,
                                Some(s.now + 600_000), None, OnHold)]
    && forall k | k in s.rows ::
         t.rows[k] == if k.roomType == q.roomType && first <= k.night < last
                      then s.rows[k].(available := s.rows[k].available - q.rooms,
                                      blocked := s.rows[k].blocked + q.rooms)
                      else s.rows[k]
  }

  lemma StayEffect(s: State, id: nat, q: HoldRequest, user: Option<int>, first: Day, last: Day, b: Booking)
    requires Inv(s) && first < last
    requires b == Booking(q.hotel, q.roomType, first, last, last - first, user, q.rooms, 1, 0, None, None,
                          Some(s.now + 600_000), None, OnHold)
    ensures Fits(s.rows, q, first, last) ==> HeldFor(s, AfterBooking(s, id, b), id, q, user, first, last)
    ensures !Fits(s.rows, q, first, last) ==> AfterBooking(s, id, b) == s
  {
    BookingEffect(s, id, b);
    assert forall k: Key :: StaysOn(b, k) <==> k.roomType == q.roomType && first <= k.night < last;
  }

  /**
   A hold asked for from one day to another succeeds exactly when it fits; the booking of that
   stay then expires ten minutes from now. Otherwise nothing changes.
   */
  lemma HoldEffect(s: State, id: nat, q: HoldRequest, user: Option<int>, first: Day, last: Day)
    requires Inv(s) && id !in s.bookings && q.checkIn == Iso(first) && q.checkOut == Iso(last)
    ensures var t := Step(s, HoldBooking(id, q, user));
            if Fits(s.rows, q, first, last) then HeldFor(s, t, id, q, user, first, last) else t == s
  {
    RequestRead(q, user, s.now, first, last);
    if first < last {
      StayEffect(s, id, q, user, first, last, NewBooking(q, user, s.now));
    }
  }

  /** A hold whose dates are not both names of days changes nothing. */
  lemma HoldNeedsRealDates(s: State, id: nat, q: HoldRequest, user: Option<int>)
    requires id !in s.bookings
    requires (forall d: Day :: Iso(d) != q.checkIn) || (forall d: Day :: Iso(d) != q.checkOut)
    ensures Step(s, HoldBooking(id, q, user)) == s
  {
  }

  /**
   The sweep's cancellation of a booking on hold gives each night its rooms back, unless a night
   owes more than its total; then, and for any booking not on hold, nothing changes.
   */
  lemma ExpiryEffect(s: State, id: nat)
    requires Inv(s) && id in s.bookings
    ensures var b, t := s.bookings[id], Step(s, CancelExpiredHold(id));
            if b.status != OnHold
               || exists k :: StaysOn(b, k) && k in s.rows && s.rows[k].blocked + s.rows[k].sold > s.rows[k].total
            then t == s
            else
              && t.payments == s.payments && t.now == s.now
              && t.bookings ==
                 s.bookings[id := b.(status := Cancelled, cancelReason := Some(HoldExpired), canceledAt := Some(s.now))]
              && Shifted(s.rows, t.rows, b, b.rooms, -b.rooms, 0)
  {
    var b := s.bookings[id];
    if b.status == OnHold {
      HotelRuns.ExpiryFailsIff(s, id);
      assert HotelRuns.OnOversubscribedNight(s.rows, b) <==>
             exists k :: StaysOn(b, k) && k in s.rows && s.rows[k].blocked + s.rows[k].sold > s.rows[k].total;
      CoversIsStay(Release, b, b.rooms);
    }
  }

  /**
   Choosing a payment type for a booking on hold confirms is_self_book rooms from the available
   ones if every night has them, whatever the choice; the hold's own blocked rooms stay blocked.
   Only paying at the hotel ends the hold. For any other booking nothing changes.
   */
  lemma PaymentTypeEffect(s: State, id: nat, choice: PaymentType)
    requires Inv(s) && id in s.bookings
    ensures var b, t := s.bookings[id], Step(s, UpdatePaymentType(id, choice));
            if b.status != OnHold then t == s
            else
              && t.payments == s.payments && t.now == s.now
              && t.bookings ==
                 s.bookings[id := if choice == PayAtHotel
                                  then b.(paymentType := Some(PayAtHotel), status := Confirmed) else b]
              && if HasRooms(s.rows, b, b.isSelfBook)
                 then Shifted(s.rows, t.rows, b, -b.isSelfBook, 0, b.isSelfBook)
                 else t.rows == s.rows
  {
    assert BookingInv(s, id);
    TakesRoomsIff(s.rows, s.bookings[id], ConfirmDirect, s.bookings[id].isSelfBook);
  }

  /** An update stores the price, and the self-book flag or 1 if it is not given, and touches nothing else. */
  lemma UpdateEffect(s: State, id: nat, selfBook: Option<int>, price: int)
    requires id in s.bookings
    ensures var b, t := s.bookings[id], Step(s, UpdateBooking(id, selfBook, price));
            && t.rows == s.rows && t.payments == s.payments && t.now == s.now
            && t.bookings ==
               s.bookings[id := b.(isSelfBook := if selfBook == None then 1 else selfBook.value, totalPrice := price)]
  {
  }

  /** The price stored by an update is the amount of the payment the gateway is then asked for. */
  lemma PriceIsPaid(s: State, id: nat, selfBook: Option<int>, price: int, order: nat)
    requires Inv(s) && id in s.bookings && s.bookings[id].status == OnHold && order !in s.payments
    ensures var u := Step(s, UpdateBooking(id, selfBook, price));
            && Possible(u, StartMomoPayment(id, Some(order)))
            && Step(u, StartMomoPayment(id, Some(order))).payments == s.payments[order := Payment(id, price, Pending)]
  {
    assert BookingInv(s, id);
  }

  /** Calls about an unknown booking or order change nothing, nor does a notice for a payment that succeeded. */
  lemma UnknownChangesNothing(s: State, e: Event)
    requires Possible(s, e)
    requires || (e.CancelExpiredHold? && e.id !in s.bookings)
             || (e.UpdateBooking? && e.id !in s.bookings)
             || (e.UpdatePaymentType? && e.id !in s.bookings)
             || (e.StartMomoPayment? && e.id !in s.bookings)
             || (e.CancelBooking? && e.id !in s.bookings)
             || (e.HandleIpn? && (e.order !in s.payments || s.payments[e.order].status == Succeeded))
    ensures Step(s, e) == s
  {
  }

  /** The same choice, to pay in advance, made n times. */
  function Choices(id: nat, n: nat): seq<Event> {
    if n == 0 then [] else [UpdatePaymentType(id, Prepaid)] + Choices(id, n - 1)
  }

  lemma FewerRooms(t: Table, b: Booking, m: nat, q: int)
    requires m > 0 && HasRooms(t, b, m * q)
    ensures HasRooms(t, b, q)
  {
    assert q > 0;
    assert q <= m * q;
  }

  /** Once q rooms are taken, m times q more fit exactly if m + 1 times q fitted before. */
  lemma RoomsAfterTaking(t: Table, u: Table, b: Booking, m: nat, q: int)
    requires m > 0 && HasRooms(t, b, q) && Shifted(t, u, b, -q, 0, q)
    ensures HasRooms(u, b, m * q) <==> HasRooms(t, b, (m + 1) * q)
  {
    assert (m + 1) * q == m * q + q;
    forall k | StaysOn(b, k)
      ensures k in t && k in u && u[k].available == t[k].available - q
      ensures u[k].hotel == t[k].hotel && u[k].stopSell == t[k].stopSell
    {
    }
  }

  lemma ShiftedTwice(t: Table, u: Table, v: Table, b: Booking, q: int, m: nat)
    requires Shifted(t, u, b, -q, 0, q) && Shifted(u, v, b, -(m * q), 0, m * q)
    ensures Shifted(t, v, b, -((m + 1) * q), 0, (m + 1) * q)
  {
    assert (m + 1) * q == m * q + q;
  }

  lemma PrepaidChoiceStays(s: State, id: nat)
    requires Inv(s) && id in s.bookings && s.bookings[id].status == OnHold
    ensures var b, u := s.bookings[id], AfterPaymentType(s, id, Prepaid);
            && u.bookings == s.bookings && u.payments == s.payments && u.now == s.now && Inv(u)
            && if HasRooms(s.rows, b, b.isSelfBook) then Shifted(s.rows, u.rows, b, -b.isSelfBook, 0, b.isSelfBook)
               else u == s
  {
    PaymentTypeEffect(s, id, Prepaid);
    StepKeepsInv(s, UpdatePaymentType(id, Prepaid));
  }

  lemma FirstChoice(s: State, id: nat, n: nat)
    requires PossibleRun(AfterPaymentType(s, id, Prepaid), Choices(id, n))
    ensures PossibleRun(s, Choices(id, n + 1))
    ensures Run(s, Choices(id, n + 1)) == Run(AfterPaymentType(s, id, Prepaid), Choices(id, n))
  {
    assert Choices(id, n + 1)[1..] == Choices(id, n);
  }

  /** Of n choices, m sold is_self_book rooms each: all of them, or as many as every night had rooms for. */
  ghost predicate SoldTimes(s: State, t: State, b: Booking, m: nat, n: nat) {
    && m <= n
    && t.bookings == s.bookings && t.payments == s.payments
    && Shifted(s.rows, t.rows, b, -(m * b.isSelfBook), 0, m * b.isSelfBook)
    && (m > 0 ==> HasRooms(s.rows, b, m * b.isSelfBook))
    && (m < n ==> !HasRooms(s.rows, b, (m + 1) * b.isSelfBook))
  }

  lemma SoldOnceMore(s: State, u: State, t: State, b: Booking, m: nat, n: nat)
    requires HasRooms(s.rows, b, b.isSelfBook) && Shifted(s.rows, u.rows, b, -b.isSelfBook, 0, b.isSelfBook)
    requires u.bookings == s.bookings && u.payments == s.payments && SoldTimes(u, t, b, m, n)
    ensures SoldTimes(s, t, b, m + 1, n + 1)
  {
    ShiftedTwice(s.rows, u.rows, t.rows, b, b.isSelfBook, m);
    if m > 0 { RoomsAfterTaking(s.rows, u.rows, b, m, b.isSelfBook); }
    RoomsAfterTaking(s.rows, u.rows, b, m + 1, b.isSelfBook);
  }

  lemma NoneSold(s: State, t: State, b: Booking, m: nat, n: nat)
    requires !HasRooms(s.rows, b, b.isSelfBook) && SoldTimes(s, t, b, m, n)
    ensures SoldTimes(s, t, b, 0, n + 1)
  {
    if m > 0 { FewerRooms(s.rows, b, m, b.isSelfBook); }
  }

  lemma NoChoice(s: State, b: Booking)
    ensures SoldTimes(s, s, b, 0, 0)
  {
  }

  lemma OneMoreChoice(s: State, id: nat, n: nat, t: State, rest: nat) returns (m: nat)
    requires Inv(s) && id in s.bookings && s.bookings[id].status == OnHold
    requires SoldTimes(AfterPaymentType(s, id, Prepaid), t, s.bookings[id], rest, n)
    ensures SoldTimes(s, t, s.bookings[id], m, n + 1)
  {
    var b, u := s.bookings[id], AfterPaymentType(s, id, Prepaid);
    PrepaidChoiceStays(s, id);
    if HasRooms(s.rows, b, b.isSelfBook) {
      m := rest + 1;
      SoldOnceMore(s, u, t, b, rest, n);
    } else {
      m := 0;
      NoneSold(s, t, b, rest, n);
    }
  }

  /**
   Choosing to pay in advance leaves the booking on hold, so the choice can be repeated, and each
   repetition sells is_self_book rooms again: n choices sell that many times n, or as often as
   every night still has them.
   */
  lemma {:induction false} RepeatedChoices(s: State, id: nat, n: nat) returns (m: nat)
    requires Inv(s) && id in s.bookings && s.bookings[id].status == OnHold
    ensures PossibleRun(s, Choices(id, n))
    ensures SoldTimes(s, Run(s, Choices(id, n)), s.bookings[id], m, n)
    decreases n
  {
    if n == 0 {
      m := 0;
      NoChoice(s, s.bookings[id]);
    } else {
      var u := AfterPaymentType(s, id, Prepaid);
      PrepaidChoiceStays(s, id);
      var rest := RepeatedChoices(u, id, n - 1);
      FirstChoice(s, id, n - 1);
      m := OneMoreChoice(s, id, n - 1, Run(u, Choices(id, n - 1)), rest);
    }
  }

  /**
   Starting the gateway payment of a booking on hold moves no room and gives ten more minutes; a
   pending payment over its price exists if the gateway answers. For any other booking nothing changes.
   */
  lemma MomoStartEffect(s: State, id: nat, order: Option<nat>)
    requires Inv(s) && id in s.bookings && (order.Some? ==> order.value !in s.payments)
    ensures var b, t := s.bookings[id], Step(s, StartMomoPayment(id, order));
            if b.status != OnHold then t == s
            else
              && t.rows == s.rows && t.now == s.now && b.holdExpiresAt.Some?
              && t.bookings ==
                 s.bookings[id := b.(paymentType := Some(Prepaid), status := PaymentPending,
                                     holdExpiresAt := Some(b.holdExpiresAt.value + 600_000))]
              && t.payments == (if order == None then s.payments
                                else s.payments[order.value := Payment(id, b.totalPrice, Pending)])
              && (PaidFor(t, id) <==> order.Some?)
  {
    assert BookingInv(s, id);
    var t := AfterMomoStart(s, id, order);
    if s.bookings[id].status == OnHold && order.Some? {
      assert t.payments[order.value].booking == id;
    }
  }

  /** Every night of the stay has the booking's rooms among its sold ones and is not oversubscribed. */
  ghost predicate HasSold(t: Table, b: Booking) {
    forall k | StaysOn(b, k) :: k in t && b.rooms <= t[k].sold && !Oversubscribed(t[k])
  }

  /**
   A customer may cancel only their own booking, an owner only one of their own hotel, an admin
   any, and none of them one that is cancelled or expired: such a call changes nothing. An
   allowed one cancels the booking and moves its rooms from sold to available, even for a booking
   that never had any sold, whenever every night has that many sold; blocked rooms are never
   given back. After it no further call to cancel changes anything.
   */
  lemma CancelEffect(s: State, id: nat, caller: Caller)
    requires Inv(s) && id in s.bookings
    ensures var b, t := s.bookings[id], Step(s, CancelBooking(id, caller));
            if || b.status == Cancelled || b.status == Expired
               || (caller.Customer? && b.userId != Some(caller.userId))
               || caller == HotelOwner(false)
            then t == s
            else
              && t != s && t.payments == s.payments && t.now == s.now
              && t.bookings ==
                 s.bookings[id := b.(status := Cancelled, holdExpiresAt := None,
                                     cancelReason := if caller.Customer? then Some(CustomerCancelled)
                                                     else if caller.HotelOwner? then Some(HotelCancelled)
                                                     else b.cancelReason)]
              && (if HasSold(s.rows, b) then Shifted(s.rows, t.rows, b, b.rooms, 0, -b.rooms) else t.rows == s.rows)
              && forall other: Caller :: Step(t, CancelBooking(id, other)) == t
  {
    var b, t := s.bookings[id], AfterCancel(s, id, caller);
    assert BookingInv(s, id);
    CoversIsStay(Cancel, b, b.rooms);
    LedgerLaws.DirectAndCancelAcceptedIff(s.rows, RangeFor(Cancel, b, b.rooms));
    forall other: Caller
      ensures t != s ==> AfterCancel(t, id, other) == t
    {
    }
  }

  /** However a run goes, a customer's call never cancels a booking made for another user or for none. */
  lemma {:induction false} StrangersNeverCancel(s: State, es: seq<Event>, id: nat, stranger: int)
    requires PossibleRun(s, es) && id in s.bookings && s.bookings[id].userId != Some(stranger)
    ensures Step(Run(s, es), CancelBooking(id, Customer(stranger))) == Run(s, es)
    decreases |es|
  {
    if es != [] {
      StepFollowsEdges(s, es[0], id);
      StrangersNeverCancel(Step(s, es[0]), es[1..], id, stranger);
    }
  }

  /**
   A success notice takes the rooms a second time: they stay blocked by the hold and are sold
   from the available ones as well. If some night lacks them nothing at all is saved.
   */
  lemma PaidNoticeCountsRoomsTwice(s: State, order: nat, n: Notice)
    requires Inv(s) && order in s.payments && s.payments[order].status != Succeeded && n.resultCode == 0
    ensures s.payments[order].booking in s.bookings
    ensures var id := s.payments[order].booking;
            var b, t := s.bookings[id], Step(s, HandleIpn(order, n));
            if HasRooms(s.rows, b, b.rooms) then
              && t.bookings == s.bookings[id := b.(status := Paid)] && t.now == s.now
              && t.payments == s.payments[order := s.payments[order].(status := Succeeded)]
              && Shifted(s.rows, t.rows, b, -b.rooms, 0, b.rooms)
              && forall k | StaysOn(b, k) :: k in t.rows && t.rows[k].blocked >= b.rooms && t.rows[k].sold >= b.rooms
            else t == s
  {
    var id := s.payments[order].booking;
    var b := s.bookings[id];
    assert PaidFor(s, id);
    assert BookingInv(s, id);
    TakesRoomsIff(s.rows, b, ConfirmDirect, b.rooms);
    forall k | StaysOn(b, k)
      ensures k in s.rows && s.rows[k].blocked >= b.rooms
    {
      HotelRuns.BlockedCoversOne(s, id, k);
    }
    assert forall k | k in s.rows :: RowInv(s.rows[k]);
  }

  /**
   Any other notice moves no room. One that speaks of cancelling cancels payment and booking, else
   one that speaks of expiring lets both expire, else the payment failed; whatever the booking's
   status was.
   */
  lemma FailedNoticeMovesNoRoom(s: State, order: nat, n: Notice)
    requires Inv(s) && order in s.payments && s.payments[order].status != Succeeded && n.resultCode != 0
    ensures s.payments[order].booking in s.bookings
    ensures var p, t := s.payments[order], Step(s, HandleIpn(order, n));
            var b := s.bookings[p.booking];
            && t.rows == s.rows && t.now == s.now
            && t.payments ==
               s.payments[order := p.(status := if n.saysCancel then Voided
                                                else if n.saysExpire then TimedOut else Failed)]
            && t.bookings ==
               s.bookings[p.booking := b.(status := if n.saysCancel then Cancelled
                                                    else if n.saysExpire then Expired else b.status)]
  {
  }

  // ---------------------------------------------------------------- conservation

  /** No event but a change of the total alters a row's total or the sum of its counters. */
  lemma StepConserves(s: State, e: Event, k: Key)
    requires Possible(s, e) && k in s.rows && !(e.UpdateRoomType? && e.roomType == k.roomType)
    ensures k in Step(s, e).rows
    ensures var r, u := s.rows[k], Step(s, e).rows[k];
            u.total == r.total && u.available + u.blocked + u.sold == r.available + r.blocked + r.sold
  {
    RowsPersist(s, e);
    StepOnLedger(s, e);
    if LedgerEvents(s, e) != [] {
      var le := LedgerEvents(s, e)[0];
      if le.Range? && Accepts(s.rows, le.op) { LedgerLaws.ExactFrame(s.rows, le.op, k); }
      if le.Opened? { assert k !in OpenedRows(le.hotel, le.roomType, le.first, le.total); }
    }
  }

  /** Over any run that leaves a room type's total alone, rooms only change hands between its counters. */
  lemma {:induction false} RunConserves(s: State, es: seq<Event>, k: Key)
    requires PossibleRun(s, es) && k in s.rows
    requires forall i | 0 <= i < |es| :: !(es[i].UpdateRoomType? && es[i].roomType == k.roomType)
    ensures k in Run(s, es).rows
    ensures var r, u := s.rows[k], Run(s, es).rows[k];
            u.total == r.total && u.available + u.blocked + u.sold == r.available + r.blocked + r.sold
    decreases |es|
  {
    if es != [] {
      StepConserves(s, es[0], k);
      RunConserves(Step(s, es[0]), es[1..], k);
    }
  }

  /** No update along the run sets a total below what some night already owes when it happens. */
  ghost predicate NeverCuts(s: State, es: seq<Event>)
    requires PossibleRun(s, es)
    decreases |es|
  {
    es != [] ==>
      && (es[0].UpdateRoomType? ==> LedgerHistory.NoCut(s.rows, TotalSet(es[0].roomType, es[0].newTotal)))
      && NeverCuts(Step(s, es[0]), es[1..])
  }

  /** Starting clean, no run of service calls without such a cut promises more rooms than a night has. */
  lemma {:induction false} ServicesNeverOverbook(s: State, es: seq<Event>)
    requires PossibleRun(s, es) && NeverCuts(s, es)
    requires LedgerInv(s.rows) && LedgerHistory.NoneOversubscribed(s.rows)
    ensures forall k | k in Run(s, es).rows :: var r := Run(s, es).rows[k]; RowInv(r) && r.blocked + r.sold <= r.total
    decreases |es|
  {
    if es != [] {
      var e := es[0];
      StepOnLedger(s, e);
      if LedgerEvents(s, e) != [] {
        var le := LedgerEvents(s, e)[0];
        LedgerHistory.OnlyCutsOversubscribe(s.rows, le);
        LedgerLaws.StepKeepsInvariant(s.rows, le);
      }
      ServicesNeverOverbook(Step(s, e), es[1..]);
    }
  }
}
