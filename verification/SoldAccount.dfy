/**
 The sold counters against the bookings that were bought. They agree when, on every night,
 the sold rooms are the rooms of the covering bookings that are confirmed or paid. Which
 calls keep the agreement, and exactly when the others do.
 */
module SoldAccount {
  import opened Outcomes
  import opened Calendar
  import opened Ledger
  import opened Claims
  import opened HotelState
  import opened HotelInvariants
  import opened HotelEffects
  import CalendarLaws
  import LedgerLaws

  /** On every night, sold is the rooms of the covering bookings that are confirmed or paid. */
  ghost predicate SoldIsConfirmed(s: State) {
    forall k | k in s.rows :: s.rows[k].sold == Owed(ToSold, s.bookings, k)
  }

  /** The booking's rooms if it was bought. */
  function Bought(b: Booking): int {
    if Settled(b) then b.rooms else 0
  }

  /** The sold counters of a stay's nights moved by q, and no other's. */
  ghost predicate SoldMoved(t: Table, u: Table, b: Booking, q: int) {
    && u.Keys == t.Keys
    && forall k | k in t :: u[k].sold == t[k].sold + if StaysOn(b, k) then q else 0
  }

  /** After a change of one booking the accounts agree exactly when sold moved by what was bought of it. */
  lemma OneBookingChanged(s: State, t: State, id: nat, c: Booking, q: int)
    requires Inv(s) && SoldIsConfirmed(s) && id in s.bookings && SameStay(s.bookings[id], c)
    requires t.bookings == s.bookings[id := c] && SoldMoved(s.rows, t.rows, s.bookings[id], q)
    ensures SoldIsConfirmed(t) <==> q == Bought(c) - Bought(s.bookings[id])
  {
    var b := s.bookings[id];
    forall k | k in t.rows
      ensures t.rows[k].sold - Owed(ToSold, t.bookings, k) ==
              if StaysOn(b, k) then q - Bought(c) + Bought(b) else 0
    {
      OwedUpdate(ToSold, s.bookings, id, c, k);
    }
    assert BookingInv(s, id);
    assert StaysOn(b, Key(b.roomType, b.checkIn));
  }

  // ---------------------------------------------------------------- call by call

  lemma HoldKeepsSold(s: State, id: nat, b: Booking)
    requires Inv(s) && SoldIsConfirmed(s) && id !in s.bookings && b.status == OnHold
    ensures SoldIsConfirmed(AfterBooking(s, id, b))
  {
    var t := AfterBooking(s, id, b);
    forall k | k in t.rows
      ensures t.rows[k].sold == Owed(ToSold, t.bookings, k)
    {
      OwedUpdate(ToSold, s.bookings, id, b, k);
    }
  }

  lemma ExpiryKeepsSold(s: State, id: nat)
    requires Inv(s) && SoldIsConfirmed(s)
    ensures SoldIsConfirmed(AfterExpiry(s, id))
  {
    if AfterExpiry(s, id) != s {
      ExpiryEffect(s, id);
      OneBookingChanged(s, AfterExpiry(s, id), id, AfterExpiry(s, id).bookings[id], 0);
    }
  }

  /** Paying at the hotel must find is_self_book rooms on every night, and that must be all of the booking's rooms. */
  lemma PayAtHotelKeepsSoldIff(s: State, id: nat)
    requires Inv(s) && SoldIsConfirmed(s) && id in s.bookings && s.bookings[id].status == OnHold
    ensures var b := s.bookings[id];
            SoldIsConfirmed(AfterPaymentType(s, id, PayAtHotel)) <==>
            HasRooms(s.rows, b, b.isSelfBook) && b.isSelfBook == b.rooms
  {
    var b, t := s.bookings[id], AfterPaymentType(s, id, PayAtHotel);
    PaymentTypeEffect(s, id, PayAtHotel);
    assert BookingInv(s, id);
    OneBookingChanged(s, t, id, t.bookings[id], if HasRooms(s.rows, b, b.isSelfBook) then b.isSelfBook else 0);
  }

  /** Choosing to pay in advance sells rooms of a booking that stays on hold, unless some night lacks them. */
  lemma PrepaidKeepsSoldIff(s: State, id: nat)
    requires Inv(s) && SoldIsConfirmed(s) && id in s.bookings && s.bookings[id].status == OnHold
    ensures var b := s.bookings[id];
            SoldIsConfirmed(AfterPaymentType(s, id, Prepaid)) <==> !HasRooms(s.rows, b, b.isSelfBook)
  {
    var b, t := s.bookings[id], AfterPaymentType(s, id, Prepaid);
    PaymentTypeEffect(s, id, Prepaid);
    OneBookingChanged(s, t, id, t.bookings[id], if HasRooms(s.rows, b, b.isSelfBook) then b.isSelfBook else 0);
  }

  /** A cancellation must find sold rooms to take back exactly if the booking was bought. */
  lemma CancelKeepsSoldIff(s: State, id: nat, caller: Caller)
    requires Inv(s) && SoldIsConfirmed(s) && id in s.bookings && MayCancel(s.bookings[id], caller)
    ensures var b := s.bookings[id];
            SoldIsConfirmed(AfterCancel(s, id, caller)) <==> (HasSold(s.rows, b) <==> Settled(b))
  {
    var b, t := s.bookings[id], AfterCancel(s, id, caller);
    CancelEffect(s, id, caller);
    assert BookingInv(s, id);
    OneBookingChanged(s, t, id, t.bookings[id], if HasSold(s.rows, b) then -b.rooms else 0);
  }

  lemma SuccessKeepsSold(s: State, order: nat, n: Notice)
    requires Inv(s) && SoldIsConfirmed(s) && order in s.payments && s.payments[order].status != Succeeded
    requires n.resultCode == 0
    ensures SoldIsConfirmed(AfterIpn(s, order, n))
  {
    var id, t := s.payments[order].booking, AfterIpn(s, order, n);
    PaidNoticeCountsRoomsTwice(s, order, n);
    if t != s { OneBookingChanged(s, t, id, t.bookings[id], s.bookings[id].rooms); }
  }

  lemma FailureKeepsSold(s: State, order: nat, n: Notice)
    requires Inv(s) && SoldIsConfirmed(s) && order in s.payments && s.payments[order].status != Succeeded
    requires n.resultCode != 0
    ensures SoldIsConfirmed(AfterIpn(s, order, n))
  {
    var id, t := s.payments[order].booking, AfterIpn(s, order, n);
    FailedNoticeMovesNoRoom(s, order, n);
    OneBookingChanged(s, t, id, t.bookings[id], 0);
  }

  /** No notice breaks the account, however late or often it comes: an open payment's booking was never bought. */
  lemma NoticeKeepsSold(s: State, order: nat, n: Notice)
    requires Inv(s) && SoldIsConfirmed(s)
    ensures SoldIsConfirmed(AfterIpn(s, order, n))
  {
    if order in s.payments && s.payments[order].status != Succeeded {
      if n.resultCode == 0 { SuccessKeepsSold(s, order, n); } else { FailureKeepsSold(s, order, n); }
    }
  }

  /** Every night of a real range has that many rooms sold by the hotel and is not oversubscribed. */
  ghost predicate RangeHasSold(t: Table, op: RangeOp) {
    && op.quantity > 0 && op.checkIn < op.checkOut
    && forall k | Covers(op, k) ::
         k in t && t[k].hotel == op.hotel && op.quantity <= t[k].sold && !Oversubscribed(t[k])
  }

  /** The range endpoint takes sold rooms of no booking in particular, so it must find a night without them. */
  lemma CancelRangeKeepsSoldIff(s: State, op: RangeOp)
    requires LedgerInv(s.rows) && SoldIsConfirmed(s) && op.kind == Cancel
    ensures SoldIsConfirmed(s.(rows := RunOp(s.rows, op))) <==> !RangeHasSold(s.rows, op)
  {
    if op.quantity > 0 && op.checkIn < op.checkOut {
      LedgerLaws.DirectAndCancelAcceptedIff(s.rows, op);
    }
    if Accepts(s.rows, op) {
      var k := Key(op.roomType, op.checkIn);
      assert Covers(op, k);
      LedgerLaws.ExactFrame(s.rows, op, k);
    }
  }

  lemma CreationKeepsSold(s: State, e: Event)
    requires Possible(s, e) && e.CreateRoomType? && Inv(s) && SoldIsConfirmed(s)
    ensures SoldIsConfirmed(Step(s, e))
  {
    forall k | k in Step(s, e).rows
      ensures Step(s, e).rows[k].sold == Owed(ToSold, s.bookings, k)
    {
      if k !in s.rows { CreationOwesNothing(ToSold, s, k); }
    }
  }

  lemma UpdateKeepsSold(s: State, id: nat, selfBook: Option<int>, price: int)
    requires Inv(s) && SoldIsConfirmed(s)
    ensures SoldIsConfirmed(AfterUpdate(s, id, selfBook, price))
  {
    if id in s.bookings {
      var t := AfterUpdate(s, id, selfBook, price);
      OneBookingChanged(s, t, id, t.bookings[id], 0);
    }
  }

  lemma MomoStartKeepsSold(s: State, id: nat, order: Option<nat>)
    requires Inv(s) && SoldIsConfirmed(s)
    ensures SoldIsConfirmed(AfterMomoStart(s, id, order))
  {
    var t := AfterMomoStart(s, id, order);
    if t != s {
      OneBookingChanged(s, t, id, t.bookings[id], 0);
    }
  }

  // ---------------------------------------------------------------- any call, any run

  /** What a caller can check beforehand: the condition under which the call keeps the accounts in agreement. */
  ghost predicate KeepsAccount(s: State, e: Event) {
    match e
    case UpdatePaymentType(id, choice) =>
      id in s.bookings && s.bookings[id].status == OnHold ==>
        var b := s.bookings[id];
        if choice == PayAtHotel then HasRooms(s.rows, b, b.isSelfBook) && b.isSelfBook == b.rooms
        else !HasRooms(s.rows, b, b.isSelfBook)
    case CancelBooking(id, caller) =>
      id in s.bookings && MayCancel(s.bookings[id], caller) ==>
        (HasSold(s.rows, s.bookings[id]) <==> Settled(s.bookings[id]))
    case CancelRange(op) => !RangeHasSold(s.rows, op)
    case _ => true
  }

  /** A call keeps sold equal to bought if and only if its condition holds beforehand. */
  lemma StepKeepsSoldIff(s: State, e: Event)
    requires Possible(s, e) && Inv(s) && SoldIsConfirmed(s)
    ensures SoldIsConfirmed(Step(s, e)) <==> KeepsAccount(s, e)
  {
    match e
    case HoldBooking(id, q, user) => if Storable(q) { HoldKeepsSold(s, id, NewBooking(q, user, s.now)); }
    case CancelExpiredHold(id) => ExpiryKeepsSold(s, id);
    case UpdateBooking(id, selfBook, price) => UpdateKeepsSold(s, id, selfBook, price);
    case UpdatePaymentType(id, choice) =>
      if id in s.bookings && s.bookings[id].status == OnHold {
        if choice == PayAtHotel { PayAtHotelKeepsSoldIff(s, id); } else { PrepaidKeepsSoldIff(s, id); }
      }
    case StartMomoPayment(id, order) => MomoStartKeepsSold(s, id, order);
    case CancelBooking(id, caller) =>
      if id in s.bookings && MayCancel(s.bookings[id], caller) { CancelKeepsSoldIff(s, id, caller); }
    case HandleIpn(order, n) => NoticeKeepsSold(s, order, n);
    case CancelRange(op) => CancelRangeKeepsSoldIff(s, op);
    case CreateRoomType(_, _, _, _) => CreationKeepsSold(s, e);
    case UpdateRoomType(_, _) =>
    case Tick(_) =>
  }

  /** The accounts agree before, between and after all calls of a run. */
  ghost predicate AlwaysAgree(s: State, es: seq<Event>)
    requires PossibleRun(s, es)
    decreases |es|
  {
    SoldIsConfirmed(s) && (es != [] ==> AlwaysAgree(Step(s, es[0]), es[1..]))
  }

  /** Every call of the run meets its condition when it is made. */
  ghost predicate AllKeepAccount(s: State, es: seq<Event>)
    requires PossibleRun(s, es)
    decreases |es|
  {
    es != [] ==> KeepsAccount(s, es[0]) && AllKeepAccount(Step(s, es[0]), es[1..])
  }

  /** Over a run, sold equals bought all the way if and only if it does at the start and every call qualifies. */
  lemma {:induction false} RunKeepsSoldIff(s: State, es: seq<Event>)
    requires PossibleRun(s, es) && Inv(s)
    ensures AlwaysAgree(s, es) <==> SoldIsConfirmed(s) && AllKeepAccount(s, es)
    decreases |es|
  {
    if es != [] && SoldIsConfirmed(s) {
      StepKeepsSoldIff(s, es[0]);
      StepKeepsInv(s, es[0]);
      RunKeepsSoldIff(Step(s, es[0]), es[1..]);
    }
  }

  /** Runs that use neither the payment-type call nor any cancellation keep the accounts in agreement throughout. */
  lemma {:induction false} GatewayRunsAgree(s: State, es: seq<Event>)
    requires PossibleRun(s, es) && Inv(s) && SoldIsConfirmed(s)
    requires forall i | 0 <= i < |es| :: !es[i].UpdatePaymentType? && !es[i].CancelBooking? && !es[i].CancelRange?
    ensures AlwaysAgree(s, es)
    decreases |es|
  {
    if es != [] {
      StepKeepsSoldIff(s, es[0]);
      StepKeepsInv(s, es[0]);
      GatewayRunsAgree(Step(s, es[0]), es[1..]);
    }
  }

  // ---------------------------------------------------------------- a run that breaks it

  /** A night with three free rooms, nothing booked. */
  function OneNight(d: Day): State {
    State(map[Key(7, d) := Row(1, 3, 3, 0, 0, false)], map[], map[], 0)
  }

  /** A guest on hold for two of the rooms that night. */
  function TwoRooms(d: Day, last: Day): Booking {
    Booking(1, 7, d, last, last - d, None, 2, 1, 0, None, None, Some(HOLD_MS), None, OnHold)
  }

  lemma TwoAreHeld(d: Day, last: Day)
    requires last == d + 1
    ensures AfterBooking(OneNight(d), 1, TwoRooms(d, last)) ==
            State(map[Key(7, d) := Row(1, 3, 1, 2, 0, false)], map[1 := TwoRooms(d, last)], map[], 0)
  {
    var b := TwoRooms(d, last);
    assert forall k :: Covers(RangeFor(Hold, b, 2), k) <==> k == Key(7, d);
    assert Accepts(OneNight(d).rows, RangeFor(Hold, b, 2));
  }

  lemma OneIsSold(d: Day, s: State, id: nat)
    requires Inv(s) && SoldIsConfirmed(s) && id in s.bookings
    requires s.bookings[id].status == OnHold && s.bookings[id].isSelfBook == 1 && s.bookings[id].rooms == 2
    requires forall k | StaysOn(s.bookings[id], k) :: k == Key(7, d)
    requires StaysOn(s.bookings[id], Key(7, d)) && s.rows.Keys == {Key(7, d)}
    requires s.rows[Key(7, d)] == Row(s.bookings[id].hotel, 3, 1, 2, 0, false)
    ensures var t := AfterPaymentType(s, id, PayAtHotel);
            && Key(7, d) in t.rows && t.rows[Key(7, d)].sold == 1 && Owed(ToSold, t.bookings, Key(7, d)) == 2
            && !SoldIsConfirmed(t)
  {
    PaymentTypeEffect(s, id, PayAtHotel);
    PayAtHotelKeepsSoldIff(s, id);
    OwedUpdate(ToSold, s.bookings, id, AfterPaymentType(s, id, PayAtHotel).bookings[id], Key(7, d));
  }

  lemma OpeningAgrees(d: Day)
    ensures Initial(OneNight(d)) && Inv(OneNight(d)) && SoldIsConfirmed(OneNight(d))
  {
    InitialInv(OneNight(d));
  }

  lemma ShortAfterHold(d: Day, last: Day, s: State)
    requires last == d + 1 && Inv(s) && SoldIsConfirmed(s)
    requires s == State(map[Key(7, d) := Row(1, 3, 1, 2, 0, false)], map[1 := TwoRooms(d, last)], map[], 0)
    ensures var t := AfterPaymentType(s, 1, PayAtHotel);
            && Key(7, d) in t.rows && t.rows[Key(7, d)].sold == 1 && Owed(ToSold, t.bookings, Key(7, d)) == 2
            && !SoldIsConfirmed(t)
  {
    OneIsSold(d, s, 1);
  }

  lemma TwoCalls(s: State, t: State, es: seq<Event>, a: Event, b: Event)
    requires es == [a, b] && Possible(s, a) && t == Step(s, a) && Possible(t, b)
    ensures PossibleRun(s, es) && Run(s, es) == Step(t, b)
  {
    assert es[1..] == [b] && [b][1..] == [];
    assert Run(t, [b]) == Run(Step(t, b), []);
  }

  /** Hold two rooms with the self-book flag at its default, then choose to pay at the hotel. */
  function HoldThenPay(d: Day, last: Day): seq<Event> {
    [HoldBooking(1, HoldRequest(1, 7, Iso(d), Iso(last), 2), None), UpdatePaymentType(1, PayAtHotel)]
  }

  lemma RunFallsShort(d: Day, last: Day, q: HoldRequest, es: seq<Event>)
    requires last == d + 1 && q == HoldRequest(1, 7, Iso(d), Iso(last), 2)
    requires es == [HoldBooking(1, q, None), UpdatePaymentType(1, PayAtHotel)]
    ensures PossibleRun(OneNight(d), es)
    ensures var t := Run(OneNight(d), es);
            && Key(7, d) in t.rows && t.rows[Key(7, d)].sold == 1 && Owed(ToSold, t.bookings, Key(7, d)) == 2
            && !SoldIsConfirmed(t)
  {
    RequestRead(q, None, 0, d, last);
    OpeningAgrees(d);
    var s := AfterBooking(OneNight(d), 1, TwoRooms(d, last));
    StepKeepsInv(OneNight(d), es[0]);
    StepKeepsSoldIff(OneNight(d), es[0]);
    TwoAreHeld(d, last);
    ShortAfterHold(d, last, s);
    TwoCalls(OneNight(d), s, es, es[0], es[1]);
  }

  /** On any night, that run starts in agreement and leaves one room sold against two confirmed. */
  lemma SoldCanFallShort(d: Day, last: Day)
    requires last == d + 1
    ensures Initial(OneNight(d)) && SoldIsConfirmed(OneNight(d)) && PossibleRun(OneNight(d), HoldThenPay(d, last))
    ensures var t := Run(OneNight(d), HoldThenPay(d, last));
            && Key(7, d) in t.rows && t.rows[Key(7, d)].sold == 1 && Owed(ToSold, t.bookings, Key(7, d)) == 2
            && !SoldIsConfirmed(t)
  {
    OpeningAgrees(d);
    RunFallsShort(d, last, HoldRequest(1, 7, Iso(d), Iso(last), 2), HoldThenPay(d, last));
  }
}
