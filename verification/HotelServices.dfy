/**
 The services themselves: methods that read a booking or a payment, assign its fields, save
 it, and call the inventory service, step by step. Each is proved to do exactly the step of
 HotelState that the run theorems speak about.
 */
module HotelServices {
  import opened Outcomes
  import opened Bounds
  import opened Calendar
  import opened Ledger
  import opened InventoriesService
  import opened HotelState
  import CalendarLaws
  import CronSweep
  import Sorting

  datatype ServiceError =
    | NotFound
    | BadStay(error: DateError)
    | NotStorable
    | WrongStatus
    | Forbidden
    | InventoryRefused(reason: RangeError)
    | GatewayFailed

  /** The stored tables and the clock the services share. */
  class Repositories {
    const inventories: InventoriesService
    var bookings: map<nat, Booking>
    var payments: map<nat, Payment>
    var clock: int

    constructor (inventories: InventoriesService)
      ensures this.inventories == inventories && bookings == map[] && payments == map[]
    {
      this.inventories := inventories;
      bookings, payments, clock := map[], map[], 0;
    }

    ghost function Snapshot(): State
      reads this, inventories
    {
      State(inventories.rows, bookings, payments, clock)
    }
  }

  /** Calls the inventory service with a booking's stay and says whether it agreed. */
  method MoveRooms(repos: Repositories, kind: Kind, b: Booking, quantity: int)
    returns (r: Result<seq<string>, RangeError>)
    modifies repos.inventories
    ensures r.Success? <==> Accepts(old(repos.inventories.rows), RangeFor(kind, b, quantity))
    ensures repos.inventories.rows == RunOp(old(repos.inventories.rows), RangeFor(kind, b, quantity))
  {
    CalendarLaws.ParsePrinted(b.checkIn);
    CalendarLaws.ParsePrinted(b.checkOut);
    var checkIn, checkOut := Iso(b.checkIn), Iso(b.checkOut);
    match kind
    case Hold => r := repos.inventories.HoldRoomsRange(b.hotel, b.roomType, checkIn, checkOut, quantity);
    case ConfirmHeld =>
      r := repos.inventories.ConfirmBookingRange(b.hotel, b.roomType, checkIn, checkOut, quantity, true);
    case ConfirmDirect =>
      r := repos.inventories.ConfirmBookingRange(b.hotel, b.roomType, checkIn, checkOut, quantity);
    case Release => r := repos.inventories.ReleaseHoldRange(b.hotel, b.roomType, checkIn, checkOut, quantity);
    case Cancel => r := repos.inventories.CancelBookingRange(b.hotel, b.roomType, checkIn, checkOut, quantity);
  }

  class PaymentService {
    const repos: Repositories

    constructor (repos: Repositories)
      ensures this.repos == repos
    {
      this.repos := repos;
    }

    /** The record part of createPayment; the order number is fresh, and None stands for a failed gateway call. */
    method CreatePayment(bookingId: nat, amount: int, orderId: Option<nat>) returns (r: Result<nat, ServiceError>)
      modifies repos`payments
      ensures r == if orderId.Some? then Success(orderId.value) else Failure(GatewayFailed)
      ensures repos.payments ==
              if orderId.Some? then old(repos.payments)[orderId.value := Payment(bookingId, amount, Pending)]
              else old(repos.payments)
    {
      if orderId.None? { return Failure(GatewayFailed); }
      repos.payments := repos.payments[orderId.value := Payment(bookingId, amount, Pending)];
      return Success(orderId.value);
    }

    /** handleIpn for a notice with a valid signature. */
    method HandleIpn(order: nat, notice: Notice) returns (r: Result<PaymentStatus, ServiceError>)
      modifies repos, repos.inventories
      ensures repos.Snapshot() == AfterIpn(old(repos.Snapshot()), order, notice)
      ensures r.Success? ==> order in repos.payments && repos.payments[order].status == r.value
      ensures r.Failure? ==> repos.Snapshot() == old(repos.Snapshot())
    {
      if order !in repos.payments { return Failure(NotFound); }
      var payment := repos.payments[order];
      if payment.status == Succeeded { return Success(Succeeded); }

      if notice.resultCode == 0 {
        payment := payment.(status := Succeeded);
      } else if notice.saysCancel {
        payment := payment.(status := Voided);
      } else if notice.saysExpire {
        payment := payment.(status := TimedOut);
      } else {
        payment := payment.(status := Failed);
      }

      if payment.booking in repos.bookings {
        var booking := repos.bookings[payment.booking];
        if payment.status == Succeeded {
          booking := booking.(status := Paid);
          var confirmed := MoveRooms(repos, ConfirmDirect, booking, booking.rooms);
          if confirmed.Failure? { return Failure(InventoryRefused(confirmed.error)); }
        } else if payment.status == Voided {
          booking := booking.(status := Cancelled);
        } else if payment.status == TimedOut {
          booking := booking.(status := Expired);
        }
        repos.bookings := repos.bookings[payment.booking := booking];
      }
      repos.payments := repos.payments[order := payment];
      return Success(payment.status);
    }
  }

  class BookingService {
    const repos: Repositories
    const paymentService: PaymentService

    constructor (repos: Repositories, paymentService: PaymentService)
      requires paymentService.repos == repos
      ensures this.repos == repos && this.paymentService == paymentService && Wired()
    {
      this.repos := repos;
      this.paymentService := paymentService;
    }

    predicate Wired() {
      paymentService.repos == repos
    }

    /** holdBooking; id is the key the database assigns. */
    method HoldBooking(id: nat, dto: HoldRequest, user: Option<int>) returns (r: Result<Booking, ServiceError>)
      requires id !in repos.bookings
      modifies repos, repos.inventories
      ensures repos.Snapshot() == AfterHold(old(repos.Snapshot()), id, dto, user)
      ensures r.Success? <==> id in repos.bookings
      ensures r.Success? ==> repos.bookings[id] == r.value
    {
      var nights := ComputeNights(dto.checkIn, dto.checkOut);
      if nights.Failure? { return Failure(BadStay(nights.error)); }
      var storable := StorableRequest(dto);
      if !storable { return Failure(NotStorable); }
      var booking := BuildBooking(dto, user);
      r := SaveIfHeld(id, booking);
    }

    /** The two transactions of holdBooking: the booking stays saved only if its rooms were held. */
    method SaveIfHeld(id: nat, booking: Booking) returns (r: Result<Booking, ServiceError>)
      requires id !in repos.bookings
      modifies repos, repos.inventories
      ensures repos.Snapshot() == AfterBooking(old(repos.Snapshot()), id, booking)
      ensures r.Success? <==> id in repos.bookings
      ensures r.Success? ==> repos.bookings[id] == r.value
    {
      var held := MoveRooms(repos, Hold, booking, booking.rooms);
      if held.Failure? { return Failure(InventoryRefused(held.error)); }
      repos.bookings := repos.bookings[id := booking];
      return Success(booking);
    }

    /** computeNights: refuses readable dates that are not in order; an unreadable date makes it NaN, which passes. */
    method ComputeNights(checkIn: string, checkOut: string) returns (r: Result<JsNumber, DateError>)
      ensures r.Failure? <==>
              && ParseIso(checkIn).Some? && ParseIso(checkOut).Some?
              && ParseIso(checkOut).value <= ParseIso(checkIn).value
      ensures r.Failure? ==> r.error == EmptyRange
      ensures r.Success? && r.value.Num? ==>
                && ParseIso(checkIn).Some? && ParseIso(checkOut).Some?
                && r.value.n == ParseIso(checkOut).value - ParseIso(checkIn).value
    {
      r := BookingNights(checkIn, checkOut);
      if ParseIso(checkIn).Some? && ParseIso(checkOut).Some? {
        CalendarLaws.NightCountsAgree(checkIn, checkOut);
      }
    }

    method StorableRequest(dto: HoldRequest) returns (ok: bool)
      ensures ok == Storable(dto)
    {
      ok := Storable(dto);
    }

    /** The entity holdBooking fills in: on hold, ten minutes from now, with the nights just counted. */
    method BuildBooking(dto: HoldRequest, user: Option<int>) returns (b: Booking)
      requires Storable(dto)
      ensures b == NewBooking(dto, user, repos.clock)
      ensures ParseIso(dto.checkIn) == Some(b.checkIn) && ParseIso(dto.checkOut) == Some(b.checkOut)
      ensures b.hotel == dto.hotel && b.roomType == dto.roomType && b.rooms == dto.rooms && b.userId == user
      ensures b.nights == b.checkOut - b.checkIn && b.holdExpiresAt == Some(repos.clock + 600_000)
      ensures BookingNights(dto.checkIn, dto.checkOut) == Success(Num(b.nights))
    {
      CalendarLaws.NightCountsAgree(dto.checkIn, dto.checkOut);
      var nights := BookingNights(dto.checkIn, dto.checkOut).value.n;
      var holdExpiredAt := repos.clock + HOLD_MS;
      b := Booking(dto.hotel, dto.roomType, ParseIso(dto.checkIn).value, ParseIso(dto.checkOut).value, nights, user,
                   dto.rooms, 1, 0, None, None, Some(holdExpiredAt), None, OnHold);
    }

    method CancelExpiredHoldBooking(bookingId: nat) returns (r: Result<bool, ServiceError>)
      modifies repos, repos.inventories
      ensures repos.Snapshot() == AfterExpiry(old(repos.Snapshot()), bookingId)
      ensures r.Failure? <==> bookingId in repos.bookings && repos.bookings[bookingId].status == OnHold
      ensures r == Success(true) <==> repos.Snapshot() != old(repos.Snapshot())
    {
      if bookingId !in repos.bookings { return Success(false); }
      var booking := repos.bookings[bookingId];
      if booking.status != OnHold { return Success(false); }
      booking := booking.(status := Cancelled);
      booking := booking.(cancelReason := Some(HoldExpired));
      booking := booking.(canceledAt := Some(repos.clock));
      var released := MoveRooms(repos, Release, booking, booking.rooms);
      if released.Failure? { return Failure(InventoryRefused(released.error)); }
      repos.bookings := repos.bookings[bookingId := booking];
      return Success(true);
    }

    method UpdateBooking(id: nat, selfBook: Option<int>, price: int) returns (r: Result<Booking, ServiceError>)
      modifies repos`bookings
      ensures repos.Snapshot() == AfterUpdate(old(repos.Snapshot()), id, selfBook, price)
      ensures r.Success? <==> id in old(repos.bookings)
      ensures r.Success? ==> repos.bookings[id] == r.value
    {
      if id !in repos.bookings { return Failure(NotFound); }
      var booking := repos.bookings[id];
      booking := booking.(isSelfBook := if selfBook.Some? then selfBook.value else 1);
      booking := booking.(totalPrice := price);
      repos.bookings := repos.bookings[id := booking];
      return Success(booking);
    }

    /** updatePaymentType: the confirmation is not awaited, so its refusal changes nothing here. */
    method UpdatePaymentType(bookingId: nat, choice: PaymentType) returns (r: Result<Booking, ServiceError>)
      modifies repos, repos.inventories
      ensures repos.Snapshot() == AfterPaymentType(old(repos.Snapshot()), bookingId, choice)
      ensures r.Success? <==> bookingId in old(repos.bookings) && old(repos.bookings)[bookingId].status == OnHold
      ensures r.Success? ==> repos.bookings[bookingId] == r.value
    {
      if bookingId !in repos.bookings { return Failure(NotFound); }
      var booking := repos.bookings[bookingId];
      if booking.status != OnHold { return Failure(WrongStatus); }
      if choice == PayAtHotel {
        booking := booking.(paymentType := Some(PayAtHotel));
        booking := booking.(status := Confirmed);
      }
      var _ := MoveRooms(repos, ConfirmDirect, booking, booking.isSelfBook);
      repos.bookings := repos.bookings[bookingId := booking];
      return Success(booking);
    }

    /** startMomoPayment: saves the pending booking before it asks the gateway. */
    method StartMomoPayment(bookingId: nat, orderId: Option<nat>) returns (r: Result<nat, ServiceError>)
      requires Wired()
      modifies repos
      ensures repos.Snapshot() == AfterMomoStart(old(repos.Snapshot()), bookingId, orderId)
      ensures r.Success? <==>
              && bookingId in old(repos.bookings) && orderId.Some?
              && old(repos.bookings)[bookingId].status == OnHold && old(repos.bookings)[bookingId].holdExpiresAt.Some?
      ensures r.Success? ==> orderId == Some(r.value)
    {
      if bookingId !in repos.bookings { return Failure(NotFound); }
      var booking := repos.bookings[bookingId];
      if booking.status != OnHold || booking.holdExpiresAt.None? { return Failure(WrongStatus); }
      booking := booking.(paymentType := Some(Prepaid));
      booking := booking.(status := PaymentPending);
      booking := booking.(holdExpiresAt := Some(booking.holdExpiresAt.value + HOLD_MS));
      repos.bookings := repos.bookings[bookingId := booking];
      r := paymentService.CreatePayment(bookingId, booking.totalPrice, orderId);
    }

    /** cancelBooking: the booking is saved as cancelled before the rooms are taken back. */
    method CancelBooking(bookingId: nat, caller: Caller) returns (r: Result<bool, ServiceError>)
      modifies repos, repos.inventories
      ensures repos.Snapshot() == AfterCancel(old(repos.Snapshot()), bookingId, caller)
      ensures r.Success? <==>
              && bookingId in old(repos.bookings) && MayCancel(old(repos.bookings)[bookingId], caller)
              && Accepts(old(repos.inventories.rows),
                         RangeFor(Cancel, old(repos.bookings)[bookingId], old(repos.bookings)[bookingId].rooms))
    {
      if bookingId !in repos.bookings { return Failure(NotFound); }
      var booking := repos.bookings[bookingId];
      if booking.status == Cancelled || booking.status == Expired { return Failure(WrongStatus); }
      if caller.Customer? {
        if booking.userId != Some(caller.userId) { return Failure(Forbidden); }
        booking := booking.(cancelReason := Some(CustomerCancelled));
      }
      if caller.HotelOwner? {
        if !caller.ownsHotel { return Failure(Forbidden); }
        booking := booking.(cancelReason := Some(HotelCancelled));
      }
      booking := booking.(status := Cancelled);
      booking := booking.(holdExpiresAt := None);
      repos.bookings := repos.bookings[bookingId := booking];
      var cancelled := MoveRooms(repos, Cancel, booking, booking.rooms);
      if cancelled.Failure? { return Failure(InventoryRefused(cancelled.error)); }
      return Success(true);
    }
  }

  class RoomTypesService {
    const repos: Repositories

    constructor (repos: Repositories)
      ensures this.repos == repos
    {
      this.repos := repos;
    }

    /** create: one row a night for sixty nights from today. */
    method Create(hotelId: int, roomTypeId: int, today: Day, totalRooms: nat)
      requires Allowed(repos.inventories.rows, Opened(hotelId, roomTypeId, today, totalRooms))
      modifies repos.inventories
      ensures repos.inventories.rows ==
              StepLedger(old(repos.inventories.rows), Opened(hotelId, roomTypeId, today, totalRooms))
    {
      var inventories: Table := map[];
      for i := 0 to NIGHTS_OPENED
        invariant forall k :: k in inventories <==> k.roomType == roomTypeId && today <= k.night < today + i
        invariant forall k | k in inventories :: inventories[k] == Row(hotelId, totalRooms, totalRooms, 0, 0, false)
      {
        inventories := inventories[Key(roomTypeId, today + i) := Row(hotelId, totalRooms, totalRooms, 0, 0, false)];
      }
      assert inventories == OpenedRows(hotelId, roomTypeId, today, totalRooms);
      repos.inventories.rows := repos.inventories.rows + inventories;
    }

    /** update with a new total: rewrites the total and recomputes what is available, row by row. */
    method Update(roomTypeId: int, totalRooms: int)
      modifies repos.inventories
      ensures repos.inventories.rows == SetTotal(old(repos.inventories.rows), roomTypeId, totalRooms)
    {
      var rows := repos.inventories.rows;
      var saved := rows;
      var left := rows.Keys;
      while left != {}
        invariant left <= rows.Keys && saved.Keys == rows.Keys
        invariant forall k | k in rows && k in left :: saved[k] == rows[k]
        invariant forall k | k in rows && k !in left :: saved[k] == SetTotal(rows, roomTypeId, totalRooms)[k]
        decreases left
      {
        var k :| k in left;
        left := left - {k};
        if k.roomType == roomTypeId {
          var inv := saved[k];
          inv := inv.(total := totalRooms);
          var recalculated := totalRooms - inv.sold - inv.blocked;
          inv := inv.(available := Max(0, recalculated));
          saved := saved[k := inv];
        }
      }
      repos.inventories.rows := saved;
    }
  }

  class CronController {
    const repos: Repositories
    const bookingService: BookingService

    constructor (repos: Repositories, bookingService: BookingService)
      requires bookingService.repos == repos
      ensures this.repos == repos && this.bookingService == bookingService && Wired()
    {
      this.repos := repos;
      this.bookingService := bookingService;
    }

    predicate Wired() {
      bookingService.repos == repos
    }

    /** The query: expired holds ordered by expiry, the first fifty. Ties come in any order. */
    method FindExpired() returns (batch: seq<nat>)
      ensures CronSweep.IsBatch(repos.Snapshot(), batch)
      ensures |batch| <= 50
      ensures forall i | 0 <= i < |batch| ::
                && batch[i] in repos.bookings && repos.bookings[batch[i]].status == OnHold
                && repos.bookings[batch[i]].holdExpiresAt.Some?
                && repos.bookings[batch[i]].holdExpiresAt.value < repos.clock
      ensures forall i, j | 0 <= i < j < |batch| ::
                && batch[i] != batch[j]
                && repos.bookings[batch[i]].holdExpiresAt.value <= repos.bookings[batch[j]].holdExpiresAt.value
      ensures forall id | && id in repos.bookings && id !in batch && repos.bookings[id].status == OnHold
                          && repos.bookings[id].holdExpiresAt.Some?
                          && repos.bookings[id].holdExpiresAt.value < repos.clock ::
                && |batch| == 50
                && forall i | 0 <= i < |batch| ::
                     repos.bookings[batch[i]].holdExpiresAt.value <= repos.bookings[id].holdExpiresAt.value
    {
      var expired := set id | id in repos.bookings && CronSweep.IsExpired(repos.bookings[id], repos.clock);
      var expiry := map id | id in expired :: repos.bookings[id].holdExpiresAt.value;
      var list := Sorting.SortByKey(expired, expiry, true);
      assert expired == CronSweep.ExpiredAt(repos.Snapshot(), repos.clock);
      Sorting.ListLength(list, expired);
      batch := list[..Min(CronSweep.BATCH, |list|)];
      forall i, id | 0 <= i < |batch| && id in expired && id !in batch
        ensures CronSweep.NoLater(repos.Snapshot(), batch[i], id)
      {
        var j :| 0 <= j < |list| && list[j] == id;
        assert forall m | 0 <= m < |batch| :: list[m] in batch;
        assert i < j;
        assert Sorting.InOrder(expiry, true, list[i], list[j]);
      }
      forall i, j | 0 <= i < j < |batch|
        ensures CronSweep.NoLater(repos.Snapshot(), batch[i], batch[j])
      {
        assert Sorting.InOrder(expiry, true, list[i], list[j]);
      }
    }

    /** cleanupExpiredHoldBookings; an exception from one cancel ends the loop, with that booking still on hold. */
    method CleanupExpiredHoldBookings() returns (ghost batch: seq<nat>, finished: bool)
      requires Wired()
      modifies repos, repos.inventories
      ensures CronSweep.IsBatch(old(repos.Snapshot()), batch)
      ensures repos.Snapshot() == CronSweep.SweepAll(old(repos.Snapshot()), batch)
      ensures finished <==>
              forall i | 0 <= i < |batch| ::
                batch[i] in repos.bookings && repos.bookings[batch[i]].status != OnHold
    {
      var expired := FindExpired();
      batch := expired;
      for i := 0 to |expired|
        invariant repos.bookings.Keys == old(repos.bookings).Keys
        invariant CronSweep.SweepAll(old(repos.Snapshot()), expired) ==
                  CronSweep.SweepAll(repos.Snapshot(), expired[i..])
        invariant forall j | 0 <= j < i ::
                    expired[j] in repos.bookings && repos.bookings[expired[j]].status != OnHold
      {
        ghost var before := repos.Snapshot();
        assert expired[i..][0] == expired[i] && expired[i..][1..] == expired[i + 1..];
        assert expired[i] in repos.bookings;
        var r := bookingService.CancelExpiredHoldBooking(expired[i]);
        if r.Failure? {
          assert repos.Snapshot() == before;
          return expired, false;
        }
      }
      return expired, true;
    }
  }
}
