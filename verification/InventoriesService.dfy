/**
 The service that moves rooms between counters. Each range method runs one transaction:
 it expands the dates, locks the rows, checks and changes working copies in a loop, and
 either saves them all or leaves the table alone.
 */
module InventoriesService {
  import opened Outcomes
  import opened Calendar
  import opened Ledger
  import CalendarLaws
  import LedgerLaws

  datatype RangeError =
    | BadQuantity
    | BadDates(error: DateError)
    | MissingRows
    | StopSell(key: Key)
    | NotEnough(key: Key)
    | OutOfBalance(key: Key)

  /** The operation a call asks for, once its dates are read. */
  function OpOf(kind: Kind, hotel: int, roomType: int, checkIn: string, checkOut: string, quantity: int): RangeOp
    requires ValidRange(checkIn, checkOut)
  {
    RangeOp(kind, hotel, roomType, ParseIso(checkIn).value, ParseIso(checkOut).value, quantity)
  }

  function WhyInvalid(checkIn: string, checkOut: string): DateError {
    if ParseIso(checkIn).None? || ParseIso(checkOut).None? then InvalidDate else EmptyRange
  }

  /** A refusal inside the transaction names a row condition that really fails. */
  ghost predicate RowReason(e: RangeError, t: Table, op: RangeOp) {
    match e
    case BadQuantity => false
    case BadDates(_) => false
    case MissingRows => exists k :: Covers(op, k) && !(k in t && t[k].hotel == op.hotel)
    case StopSell(k) => k in t && Covers(op, k) && t[k].stopSell && !op.kind.Release? && !op.kind.Cancel?
    case NotEnough(k) => k in t && Covers(op, k) && !Guard(op.kind, t[k].(stopSell := false), op.quantity)
    case OutOfBalance(k) => k in t && Covers(op, k) && !Balanced(Move(op.kind, t[k], op.quantity))
  }

  /** A transaction on days: all-or-nothing, with an exact frame and a true reason for a rollback. */
  ghost predicate Transacted(e: Option<RangeError>, before: Table, after: Table, op: RangeOp) {
    && (e.None? <==> Accepts(before, op))
    && after == RunOp(before, op)
    && (e.Some? ==> RowReason(e.value, before, op))
  }

  /** The full contract of a range call on the dates and the quantity it is given. */
  ghost predicate Outcome(r: Result<seq<string>, RangeError>, before: Table, after: Table, kind: Kind,
                          hotel: int, roomType: int, checkIn: string, checkOut: string, q: int)
  {
    if q <= 0 then
      r == Failure(BadQuantity) && after == before
    else if !ValidRange(checkIn, checkOut) then
      r == Failure(BadDates(WhyInvalid(checkIn, checkOut))) && after == before
    else
      var op := RangeOp(kind, hotel, roomType, ParseIso(checkIn).value, ParseIso(checkOut).value, q);
      && Transacted(if r.Success? then None else Some(r.error), before, after, op)
      && (r.Success? ==> NamesOf(Iso, r.value, op.checkIn, op.checkOut))
  }

  // ---------------------------------------------------------------- the row count test

  /** The rows the locking query returns: those of the hotel and room type whose date is in the list. */
  ghost predicate IsLocked(t: Table, keys: seq<Key>, hotel: int, roomType: int, dates: seq<string>) {
    && (forall i, j | 0 <= i < j < |keys| :: keys[i] != keys[j])
    && (forall k :: k in keys <==> k in t && k.roomType == roomType && t[k].hotel == hotel && Iso(k.night) in dates)
  }

  lemma NameInRange(dates: seq<string>, first: Day, last: Day, night: Day)
    requires first < last && NamesOf(Iso, dates, first, last)
    ensures Iso(night) in dates <==> first <= night < last
  {
    CalendarLaws.NamesHold(Iso, dates, first, last, Iso(night));
    forall d: Day
      ensures Iso(d) == Iso(night) <==> d == night
    {
      if Iso(d) == Iso(night) { CalendarLaws.IsoInjective(d, night); }
    }
  }

  /** The locked rows are exactly the covered rows of the hotel. */
  lemma LockedAreCovered(t: Table, keys: seq<Key>, op: RangeOp, dates: seq<string>)
    requires op.checkIn < op.checkOut && NamesOf(Iso, dates, op.checkIn, op.checkOut)
    requires IsLocked(t, keys, op.hotel, op.roomType, dates)
    ensures forall k :: k in keys <==> k in t && Covers(op, k) && t[k].hotel == op.hotel
  {
    forall k: Key
      ensures Iso(k.night) in dates <==> op.checkIn <= k.night < op.checkOut
    {
      NameInRange(dates, op.checkIn, op.checkOut, k.night);
    }
  }

  lemma {:induction false} DistinctCount<T>(s: seq<T>)
    requires forall i, j | 0 <= i < j < |s| :: s[i] != s[j]
    ensures |set x | x in s| == |s|
  {
    if s != [] {
      var rest := s[..|s| - 1];
      DistinctCount(rest);
      assert (set x | x in s) == (set x | x in rest) + {s[|s| - 1]};
    }
  }

  /** As many rows as dates means a row for every night. */
  lemma FullCountIffNoneMissing(t: Table, keys: seq<Key>, op: RangeOp)
    requires op.checkIn < op.checkOut
    requires forall i, j | 0 <= i < j < |keys| :: keys[i] != keys[j]
    requires forall k :: k in keys <==> k in t && Covers(op, k) && t[k].hotel == op.hotel
    ensures |keys| == op.checkOut - op.checkIn <==> forall k | Covers(op, k) :: k in t && t[k].hotel == op.hotel
  {
    var got := set k | k in keys;
    DistinctCount(keys);
    LedgerLaws.FullCountIffComplete(op, got);
    assert forall k | Covers(op, k) :: k in got <==> k in t && t[k].hotel == op.hotel;
  }

  // ---------------------------------------------------------------- working copies

  /** The first n copies are moved and were acceptable; the others are as read. */
  ghost predicate MovedUpTo(t: Table, keys: seq<Key>, copies: seq<Row>, kind: Kind, q: int, n: int) {
    && |copies| == |keys| && 0 <= n <= |keys|
    && (forall i | 0 <= i < |keys| :: keys[i] in t)
    && (forall i | 0 <= i < n :: copies[i] == Move(kind, t[keys[i]], q) && RowAccepts(kind, t[keys[i]], q))
    && (forall i | n <= i < |keys| :: copies[i] == t[keys[i]])
  }

  /** Saving the fully moved copies is applying the operation, and the operation was acceptable. */
  lemma SavedIsApplied(t: Table, u: Table, keys: seq<Key>, copies: seq<Row>, op: RangeOp)
    requires op.quantity > 0 && op.checkIn < op.checkOut
    requires MovedUpTo(t, keys, copies, op.kind, op.quantity, |keys|)
    requires forall k :: k in keys <==> k in t && Covers(op, k) && t[k].hotel == op.hotel
    requires forall k | Covers(op, k) :: k in t && t[k].hotel == op.hotel
    requires u.Keys == t.Keys
    requires forall i | 0 <= i < |keys| :: u[keys[i]] == copies[i]
    requires forall k | k in t && k !in keys :: u[k] == t[k]
    ensures Accepts(t, op) && u == Apply(t, op)
  {
  }

  class InventoriesService {
    var rows: Table

    constructor (t: Table)
      ensures rows == t
    {
      rows := t;
    }

    /** SELECT ... FOR UPDATE. The rows come back in no particular order. */
    method SelectForUpdate(hotelId: int, roomTypeId: int, dates: seq<string>) returns (keys: seq<Key>)
      ensures IsLocked(rows, keys, hotelId, roomTypeId, dates)
    {
      keys := [];
      var left := rows.Keys;
      while left != {}
        invariant left <= rows.Keys
        invariant forall i, j | 0 <= i < j < |keys| :: keys[i] != keys[j]
        invariant forall k :: k in keys <==> && k in rows && k !in left && k.roomType == roomTypeId
                                             && rows[k].hotel == hotelId && Iso(k.night) in dates
        decreases left
      {
        var k :| k in left;
        left := left - {k};
        if k.roomType == roomTypeId && rows[k].hotel == hotelId && Iso(k.night) in dates {
          keys := keys + [k];
        }
      }
    }

    /** The locked rows are the covered rows of the hotel, and their number tells whether any night is missing. */
    method LockRows(op: RangeOp, dates: seq<string>) returns (keys: seq<Key>)
      requires op.checkIn < op.checkOut && NamesOf(Iso, dates, op.checkIn, op.checkOut)
      ensures forall i, j | 0 <= i < j < |keys| :: keys[i] != keys[j]
      ensures forall k :: k in keys <==> k in rows && Covers(op, k) && rows[k].hotel == op.hotel
      ensures |keys| == |dates| <==> forall k | Covers(op, k) :: k in rows && rows[k].hotel == op.hotel
    {
      keys := SelectForUpdate(op.hotel, op.roomType, dates);
      LockedAreCovered(rows, keys, op, dates);
      FullCountIffNoneMissing(rows, keys, op);
    }

    /** Reads the entity copies of the locked rows. */
    method ReadCopies(keys: seq<Key>) returns (copies: seq<Row>)
      requires forall i | 0 <= i < |keys| :: keys[i] in rows
      ensures |copies| == |keys| && forall i | 0 <= i < |keys| :: copies[i] == rows[keys[i]]
    {
      copies := seq(|keys|, i requires 0 <= i < |keys| && keys[i] in rows reads this => rows[keys[i]]);
    }

    /** Saves the copies and commits. */
    method SaveAndCommit(keys: seq<Key>, copies: seq<Row>)
      requires |keys| == |copies|
      requires forall i, j | 0 <= i < j < |keys| :: keys[i] != keys[j]
      requires forall i | 0 <= i < |keys| :: keys[i] in rows
      modifies this
      ensures rows.Keys == old(rows.Keys)
      ensures forall i | 0 <= i < |keys| :: rows[keys[i]] == copies[i]
      ensures forall k | k in rows && k !in keys :: rows[k] == old(rows)[k]
    {
      var saved := rows;
      for n := 0 to |keys|
        invariant saved.Keys == rows.Keys && rows == old(rows)
        invariant forall i | 0 <= i < n :: saved[keys[i]] == copies[i]
        invariant forall k | k in rows && k !in keys[..n] :: saved[k] == rows[k]
      {
        saved := saved[keys[n] := copies[n]];
        assert keys[..n + 1] == keys[..n] + [keys[n]];
      }
      assert keys[..|keys|] == keys;
      rows := saved;
    }

    /** The checks before the transaction: a positive quantity, then the dates. */
    method CheckRequest(kind: Kind, hotelId: int, roomTypeId: int, checkInDate: string, checkOutDate: string,
                        quantity: int)
      returns (r: Result<(RangeOp, seq<string>), RangeError>)
      ensures r.Success? <==> quantity > 0 && ValidRange(checkInDate, checkOutDate)
      ensures r.Failure? ==>
                r.error == if quantity <= 0 then BadQuantity else BadDates(WhyInvalid(checkInDate, checkOutDate))
      ensures r.Success? ==>
                && r.value.0 == OpOf(kind, hotelId, roomTypeId, checkInDate, checkOutDate, quantity)
                && NamesOf(Iso, r.value.1, r.value.0.checkIn, r.value.0.checkOut)
    {
      if quantity <= 0 { return Failure(BadQuantity); }
      var range := BuildDateRange(checkInDate, checkOutDate);
      if range.Failure? { return Failure(BadDates(range.error)); }
      return Success((OpOf(kind, hotelId, roomTypeId, checkInDate, checkOutDate, quantity), range.value));
    }

    /** The closing test every transaction makes on a changed copy. */
    method WithinTotal(inv: Row) returns (ok: bool)
      ensures ok == Balanced(inv)
    {
      var total := inv.available + inv.blocked + inv.sold;
      return !(inv.available < 0 || inv.blocked < 0 || inv.sold < 0 || total > inv.total);
    }

    method HoldTransaction(op: RangeOp, dates: seq<string>) returns (e: Option<RangeError>)
      requires op.kind == Hold
      requires op.quantity > 0 && op.checkIn < op.checkOut && NamesOf(Iso, dates, op.checkIn, op.checkOut)
      modifies this
      ensures Transacted(e, old(rows), rows, op)
    {
      var keys := LockRows(op, dates);
      if |keys| != |dates| { return Some(MissingRows); }
      var inventories := ReadCopies(keys);

      for i := 0 to |keys|
        invariant rows == old(rows)
        invariant forall j | 0 <= j < i :: Guard(Hold, inventories[j], op.quantity)
      {
        if inventories[i].stopSell { return Some(StopSell(keys[i])); }
        if inventories[i].available < op.quantity { return Some(NotEnough(keys[i])); }
      }

      for i := 0 to |keys|
        invariant rows == old(rows)
        invariant MovedUpTo(rows, keys, inventories, op.kind, op.quantity, i)
        invariant forall j | i <= j < |keys| :: Guard(Hold, inventories[j], op.quantity)
      {
        var inv := inventories[i];
        inv := inv.(available := inv.available - op.quantity);
        inv := inv.(blocked := inv.blocked + op.quantity);
        var ok := WithinTotal(inv);
        if !ok { return Some(OutOfBalance(keys[i])); }
        inventories := inventories[i := inv];
      }
      SaveAndCommit(keys, inventories);
      SavedIsApplied(old(rows), rows, keys, inventories, op);
      return None;
    }

    method ConfirmTransaction(op: RangeOp, dates: seq<string>) returns (e: Option<RangeError>)
      requires op.kind == ConfirmHeld || op.kind == ConfirmDirect
      requires op.quantity > 0 && op.checkIn < op.checkOut && NamesOf(Iso, dates, op.checkIn, op.checkOut)
      modifies this
      ensures Transacted(e, old(rows), rows, op)
    {
      var keys := LockRows(op, dates);
      if |keys| != |dates| { return Some(MissingRows); }
      var inventories := ReadCopies(keys);

      for i := 0 to |keys|
        invariant rows == old(rows)
        invariant MovedUpTo(rows, keys, inventories, op.kind, op.quantity, i)
      {
        var inv := inventories[i];
        if inv.stopSell { return Some(StopSell(keys[i])); }
        if op.kind == ConfirmHeld {
          if inv.blocked < op.quantity { return Some(NotEnough(keys[i])); }
          inv := inv.(blocked := inv.blocked - op.quantity);
          inv := inv.(sold := inv.sold + op.quantity);
        } else {
          if inv.available < op.quantity { return Some(NotEnough(keys[i])); }
          inv := inv.(available := inv.available - op.quantity);
          inv := inv.(sold := inv.sold + op.quantity);
        }
        var ok := WithinTotal(inv);
        if !ok { return Some(OutOfBalance(keys[i])); }
        inventories := inventories[i := inv];
      }
      SaveAndCommit(keys, inventories);
      SavedIsApplied(old(rows), rows, keys, inventories, op);
      return None;
    }

    method ReleaseTransaction(op: RangeOp, dates: seq<string>) returns (e: Option<RangeError>)
      requires op.kind == Release
      requires op.quantity > 0 && op.checkIn < op.checkOut && NamesOf(Iso, dates, op.checkIn, op.checkOut)
      modifies this
      ensures Transacted(e, old(rows), rows, op)
    {
      var keys := LockRows(op, dates);
      if |keys| != |dates| { return Some(MissingRows); }
      var inventories := ReadCopies(keys);

      for i := 0 to |keys|
        invariant rows == old(rows)
        invariant MovedUpTo(rows, keys, inventories, op.kind, op.quantity, i)
      {
        var inv := inventories[i];
        if inv.blocked < op.quantity { return Some(NotEnough(keys[i])); }
        inv := inv.(blocked := inv.blocked - op.quantity);
        inv := inv.(available := inv.available + op.quantity);
        var ok := WithinTotal(inv);
        if !ok { return Some(OutOfBalance(keys[i])); }
        inventories := inventories[i := inv];
      }
      SaveAndCommit(keys, inventories);
      SavedIsApplied(old(rows), rows, keys, inventories, op);
      return None;
    }

    method CancelTransaction(op: RangeOp, dates: seq<string>) returns (e: Option<RangeError>)
      requires op.kind == Cancel
      requires op.quantity > 0 && op.checkIn < op.checkOut && NamesOf(Iso, dates, op.checkIn, op.checkOut)
      modifies this
      ensures Transacted(e, old(rows), rows, op)
    {
      var keys := LockRows(op, dates);
      if |keys| != |dates| { return Some(MissingRows); }
      var inventories := ReadCopies(keys);

      for i := 0 to |keys|
        invariant rows == old(rows)
        invariant MovedUpTo(rows, keys, inventories, op.kind, op.quantity, i)
      {
        var inv := inventories[i];
        if inv.sold < op.quantity { return Some(NotEnough(keys[i])); }
        inv := inv.(sold := inv.sold - op.quantity);
        inv := inv.(available := inv.available + op.quantity);
        var ok := WithinTotal(inv);
        if !ok { return Some(OutOfBalance(keys[i])); }
        inventories := inventories[i := inv];
      }
      SaveAndCommit(keys, inventories);
      SavedIsApplied(old(rows), rows, keys, inventories, op);
      return None;
    }

    method HoldRoomsRange(hotelId: int, roomTypeId: int, checkInDate: string, checkOutDate: string, quantity: int)
      returns (r: Result<seq<string>, RangeError>)
      modifies this
      ensures Outcome(r, old(rows), rows, Hold, hotelId, roomTypeId, checkInDate, checkOutDate, quantity)
    {
      var request := CheckRequest(Hold, hotelId, roomTypeId, checkInDate, checkOutDate, quantity);
      if request.Failure? { return Failure(request.error); }
      var (op, dates) := request.value;
      var e := HoldTransaction(op, dates);
      return if e.None? then Success(dates) else Failure(e.value);
    }

    method ConfirmBookingRange(hotelId: int, roomTypeId: int, checkInDate: string, checkOutDate: string, quantity: int,
                               fromHold: bool := false)
      returns (r: Result<seq<string>, RangeError>)
      modifies this
      ensures Outcome(r, old(rows), rows, if fromHold then ConfirmHeld else ConfirmDirect, hotelId, roomTypeId,
                      checkInDate, checkOutDate, quantity)
    {
      var kind := if fromHold then ConfirmHeld else ConfirmDirect;
      var request := CheckRequest(kind, hotelId, roomTypeId, checkInDate, checkOutDate, quantity);
      if request.Failure? { return Failure(request.error); }
      var (op, dates) := request.value;
      var e := ConfirmTransaction(op, dates);
      return if e.None? then Success(dates) else Failure(e.value);
    }

    method ReleaseHoldRange(hotelId: int, roomTypeId: int, checkInDate: string, checkOutDate: string, quantity: int)
      returns (r: Result<seq<string>, RangeError>)
      modifies this
      ensures Outcome(r, old(rows), rows, Release, hotelId, roomTypeId, checkInDate, checkOutDate, quantity)
    {
      var request := CheckRequest(Release, hotelId, roomTypeId, checkInDate, checkOutDate, quantity);
      if request.Failure? { return Failure(request.error); }
      var (op, dates) := request.value;
      var e := ReleaseTransaction(op, dates);
      return if e.None? then Success(dates) else Failure(e.value);
    }

    method CancelBookingRange(hotelId: int, roomTypeId: int, checkInDate: string, checkOutDate: string, quantity: int)
      returns (r: Result<seq<string>, RangeError>)
      modifies this
      ensures Outcome(r, old(rows), rows, Cancel, hotelId, roomTypeId, checkInDate, checkOutDate, quantity)
    {
      var request := CheckRequest(Cancel, hotelId, roomTypeId, checkInDate, checkOutDate, quantity);
      if request.Failure? { return Failure(request.error); }
      var (op, dates) := request.value;
      var e := CancelTransaction(op, dates);
      return if e.None? then Success(dates) else Failure(e.value);
    }
  }
}
