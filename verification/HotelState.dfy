/**
 Bookings, payments, inventory and clock as one value, and what each service call does to
 it. Every call is one atomic step; a call that throws before saving leaves the state alone.
 */
module HotelState {
  import opened Outcomes
  import opened Calendar
  import opened Ledger

  const HOLD_MS := 10 * 60 * 1000

  datatype BookingStatus = OnHold | PaymentPending | Confirmed | Paid | Cancelled | Expired

  datatype PaymentType = Prepaid | PayAtHotel

  datatype CancelReason = HoldExpired | CustomerCancelled | HotelCancelled

  datatype Booking = Booking(
    hotel: int, roomType: int, checkIn: Day, checkOut: Day, nights: int, userId: Option<int>, rooms: int,
    isSelfBook: int, totalPrice: int, paymentType: Option<PaymentType>, cancelReason: Option<CancelReason>,
    holdExpiresAt: Option<int>, canceledAt: Option<int>, status: BookingStatus)

  datatype PaymentStatus = Pending | Succeeded | Failed | Voided | TimedOut

  datatype Payment = Payment(booking: nat, amount: int, status: PaymentStatus)

  datatype State = State(rows: Table, bookings: map<nat, Booking>, payments: map<nat, Payment>, now: int)

  datatype HoldRequest = HoldRequest(hotel: int, roomType: int, checkIn: string, checkOut: string, rooms: int)

  /** Who asks for a cancellation; for an owner, whether the hotel is theirs. */
  datatype Caller = Customer(userId: int) | HotelOwner(ownsHotel: bool) | Admin

  /** What a signed payment notice says. */
  datatype Notice = Notice(resultCode: int, saysCancel: bool, saysExpire: bool)

  function RangeFor(kind: Kind, b: Booking, quantity: int): RangeOp {
    RangeOp(kind, b.hotel, b.roomType, b.checkIn, b.checkOut, quantity)
  }

  // ---------------------------------------------------------------- the service calls

  function NewBooking(q: HoldRequest, user: Option<int>, now: int): (b: Booking)
    requires ValidRange(q.checkIn, q.checkOut)
    ensures b.rooms == q.rooms && b.status == OnHold && b.cancelReason == None && b.holdExpiresAt == Some(now + HOLD_MS)
  {
    var first, last := ParseIso(q.checkIn).value, ParseIso(q.checkOut).value;
    Booking(q.hotel, q.roomType, first, last, last - first, user, q.rooms, 1, 0, None, None,
            Some(now + HOLD_MS), None, OnHold)
  }

  /** The DATE columns store only real calendar dates, and the stay must not be empty. */
  predicate Storable(q: HoldRequest) {
    ValidRange(q.checkIn, q.checkOut) && IsCalendarDate(q.checkIn) && IsCalendarDate(q.checkOut)
  }

  /** Holds the rooms of a booking and stores it, or does neither. */
  ghost function AfterBooking(s: State, id: nat, b: Booking): State {
    if Accepts(s.rows, RangeFor(Hold, b, b.rooms)) then
      s.(rows := Apply(s.rows, RangeFor(Hold, b, b.rooms)), bookings := s.bookings[id := b])
    else s
  }

  ghost function AfterHold(s: State, id: nat, q: HoldRequest, user: Option<int>): State {
    if Storable(q) then AfterBooking(s, id, NewBooking(q, user, s.now)) else s
  }

  function ExpiredBooking(b: Booking, now: int): Booking {
    b.(status := Cancelled, cancelReason := Some(HoldExpired), canceledAt := Some(now))
  }

  /** cancelExpiredHoldBooking: skips anything not on hold; a refused release rolls the booking back. */
  ghost function AfterExpiry(s: State, id: nat): State {
    if id in s.bookings && s.bookings[id].status == OnHold
       && Accepts(s.rows, RangeFor(Release, s.bookings[id], s.bookings[id].rooms)) then
      s.(rows := Apply(s.rows, RangeFor(Release, s.bookings[id], s.bookings[id].rooms)),
         bookings := s.bookings[id := ExpiredBooking(s.bookings[id], s.now)])
    else s
  }

  function AfterUpdate(s: State, id: nat, selfBook: Option<int>, price: int): State {
    if id in s.bookings then
      var flag := if selfBook.Some? then selfBook.value else 1;
      s.(bookings := s.bookings[id := s.bookings[id].(isSelfBook := flag, totalPrice := price)])
    else s
  }

  /** updatePaymentType: confirms is_self_book rooms, whichever type was chosen, and ignores a refusal. */
  ghost function AfterPaymentType(s: State, id: nat, choice: PaymentType): State {
    if id in s.bookings && s.bookings[id].status == OnHold then
      var b := s.bookings[id];
      var chosen := if choice == PayAtHotel then b.(paymentType := Some(PayAtHotel), status := Confirmed) else b;
      s.(rows := RunOp(s.rows, RangeFor(ConfirmDirect, b, b.isSelfBook)), bookings := s.bookings[id := chosen])
    else s
  }

  /** startMomoPayment: the booking is saved first; the payment exists only if the gateway answered. */
  function AfterMomoStart(s: State, id: nat, order: Option<nat>): State {
    if id in s.bookings && s.bookings[id].status == OnHold && s.bookings[id].holdExpiresAt.Some? then
      var b := s.bookings[id];
      var pending := b.(paymentType := Some(Prepaid), status := PaymentPending,
                        holdExpiresAt := Some(b.holdExpiresAt.value + HOLD_MS));
      s.(bookings := s.bookings[id := pending],
         payments := if order.Some? then s.payments[order.value := Payment(id, b.totalPrice, Pending)] else s.payments)
    else s
  }

  predicate MayCancel(b: Booking, caller: Caller) {
    && b.status != Cancelled && b.status != Expired
    && match caller
       case Customer(userId) => b.userId == Some(userId)
       case HotelOwner(ownsHotel) => ownsHotel
       case Admin => true
  }

  function CancelledBooking(b: Booking, caller: Caller): Booking {
    b.(status := Cancelled, holdExpiresAt := None,
       cancelReason := match caller
       case Customer(_) => Some(CustomerCancelled)
       case HotelOwner(_) => Some(HotelCancelled)
       case Admin => b.cancelReason)
  }

  /** cancelBooking: takes rooms from the sold ones whatever the status was, and keeps the cancellation if refused. */
  ghost function AfterCancel(s: State, id: nat, caller: Caller): State {
    if id in s.bookings && MayCancel(s.bookings[id], caller) then
      var b := s.bookings[id];
      s.(rows := RunOp(s.rows, RangeFor(Cancel, b, b.rooms)), bookings := s.bookings[id := CancelledBooking(b, caller)])
    else s
  }

  /** Success first, then a message that speaks of cancelling, then of expiring, else failure. */
  function Verdict(n: Notice): PaymentStatus {
    if n.resultCode == 0 then Succeeded
    else if n.saysCancel then Voided
    else if n.saysExpire then TimedOut
    else Failed
  }

  function StatusAfter(v: PaymentStatus, current: BookingStatus): BookingStatus {
    match v
    case Succeeded => Paid
    case Voided => Cancelled
    case TimedOut => Expired
    case _ => current
  }

  /** Whether the notice makes handleIpn confirm the inventory of the booking it pays for. */
  ghost predicate IpnConfirms(s: State, order: nat, n: Notice, id: nat) {
    && order in s.payments && s.payments[order].status != Succeeded && s.payments[order].booking == id
    && Verdict(n) == Succeeded && id in s.bookings
    && Accepts(s.rows, RangeFor(ConfirmDirect, s.bookings[id], s.bookings[id].rooms))
  }

  /** handleIpn: a refused confirmation throws before anything is saved. */
  ghost function AfterIpn(s: State, order: nat, n: Notice): State {
    if order in s.payments && s.payments[order].status != Succeeded then
      var p, v := s.payments[order], Verdict(n);
      var paid := s.payments[order := p.(status := v)];
      if p.booking !in s.bookings then s.(payments := paid)
      else
        var b := s.bookings[p.booking];
        var op := RangeFor(ConfirmDirect, b, b.rooms);
        if v == Succeeded && !Accepts(s.rows, op) then s
        else
          s.(rows := if v == Succeeded then Apply(s.rows, op) else s.rows,
             bookings := s.bookings[p.booking := b.(status := StatusAfter(v, b.status))],
             payments := paid)
    else s
  }

  // ---------------------------------------------------------------- steps and runs

  datatype Event =
    | HoldBooking(id: nat, request: HoldRequest, user: Option<int>)
    | CancelExpiredHold(id: nat)
    | UpdateBooking(id: nat, selfBook: Option<int>, price: int)
    | UpdatePaymentType(id: nat, choice: PaymentType)
    | StartMomoPayment(id: nat, orderId: Option<nat>)
    | CancelBooking(id: nat, caller: Caller)
    | HandleIpn(order: nat, notice: Notice)
    | CancelRange(op: RangeOp)
    | CreateRoomType(hotel: int, roomType: int, first: Day, total: nat)
    | UpdateRoomType(roomType: int, newTotal: int)
    | Tick(ms: nat)

  /** Identifiers the database or the gateway hands out are fresh. */
  ghost predicate Possible(s: State, e: Event) {
    match e
    case HoldBooking(id, _, _) => id !in s.bookings
    case StartMomoPayment(_, orderId) => orderId.Some? ==> orderId.value !in s.payments
    case CancelRange(op) => op.kind == Cancel
    case CreateRoomType(hotel, roomType, first, total) => Allowed(s.rows, Opened(hotel, roomType, first, total))
    case _ => true
  }

  ghost function Step(s: State, e: Event): State
    requires Possible(s, e)
  {
    match e
    case HoldBooking(id, request, user) => AfterHold(s, id, request, user)
    case CancelExpiredHold(id) => AfterExpiry(s, id)
    case UpdateBooking(id, selfBook, price) => AfterUpdate(s, id, selfBook, price)
    case UpdatePaymentType(id, choice) => AfterPaymentType(s, id, choice)
    case StartMomoPayment(id, orderId) => AfterMomoStart(s, id, orderId)
    case CancelBooking(id, caller) => AfterCancel(s, id, caller)
    case HandleIpn(order, notice) => AfterIpn(s, order, notice)
    case CancelRange(op) => s.(rows := RunOp(s.rows, op))
    case CreateRoomType(hotel, roomType, first, total) =>
      s.(rows := StepLedger(s.rows, Opened(hotel, roomType, first, total)))
    case UpdateRoomType(roomType, newTotal) => s.(rows := SetTotal(s.rows, roomType, newTotal))
    case Tick(ms) => s.(now := s.now + ms)
  }

  ghost predicate PossibleRun(s: State, es: seq<Event>)
    decreases |es|
  {
    es != [] ==> Possible(s, es[0]) && PossibleRun(Step(s, es[0]), es[1..])
  }

  ghost function Run(s: State, es: seq<Event>): State
    requires PossibleRun(s, es)
    decreases |es|
  {
    if es == [] then s else Run(Step(s, es[0]), es[1..])
  }

  /** No bookings or payments yet, and consistent rows with nothing blocked. */
  ghost predicate Initial(s: State) {
    && s.bookings == map[] && s.payments == map[]
    && LedgerInv(s.rows)
    && forall k | k in s.rows :: s.rows[k].blocked == 0
  }
}
