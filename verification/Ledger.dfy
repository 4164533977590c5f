/**
 The room-inventory ledger as a value: one row of counters per room type and night,
 the five range movements, and the two other writers of the counters.
 */
module Ledger {
  import opened Bounds
  import opened Calendar
  import opened Outcomes

  datatype Key = Key(roomType: int, night: Day)

  datatype Row = Row(hotel: int, total: int, available: int, blocked: int, sold: int, stopSell: bool)

  type Table = map<Key, Row>

  /** confirmBookingRange counts twice: from a hold, or directly from the available rooms. */
  datatype Kind = Hold | ConfirmHeld | ConfirmDirect | Release | Cancel

  datatype RangeOp = RangeOp(kind: Kind, hotel: int, roomType: int, checkIn: Day, checkOut: Day, quantity: int)

  /** The nights a range operation touches. */
  predicate Covers(op: RangeOp, k: Key) {
    k.roomType == op.roomType && op.checkIn <= k.night < op.checkOut
  }

  /** The keys of a stretch of nights. */
  ghost function KeysOf(roomType: int, first: Day, last: Day): (s: set<Key>)
    requires first <= last
    ensures |s| == last - first
    ensures forall k :: k in s <==> k.roomType == roomType && first <= k.night < last
    decreases last - first
  {
    if first == last then {} else KeysOf(roomType, first, last - 1) + {Key(roomType, last - 1)}
  }

  /** The test made before a row is changed. Only holds and confirms look at the stop-sell flag. */
  predicate Guard(kind: Kind, r: Row, q: int) {
    match kind
    case Hold => !r.stopSell && r.available >= q
    case ConfirmHeld => !r.stopSell && r.blocked >= q
    case ConfirmDirect => !r.stopSell && r.available >= q
    case Release => r.blocked >= q
    case Cancel => r.sold >= q
  }

  /** The change itself: q rooms go from one counter to another. */
  function Move(kind: Kind, r: Row, q: int): (m: Row)
    ensures m.hotel == r.hotel && m.total == r.total && m.stopSell == r.stopSell
    ensures m.available + m.blocked + m.sold == r.available + r.blocked + r.sold
  {
    match kind
    case Hold => r.(available := r.available - q, blocked := r.blocked + q)
    case ConfirmHeld => r.(blocked := r.blocked - q, sold := r.sold + q)
    case ConfirmDirect => r.(available := r.available - q, sold := r.sold + q)
    case Release => r.(blocked := r.blocked - q, available := r.available + q)
    case Cancel => r.(sold := r.sold - q, available := r.available + q)
  }

  /** The test made after a row is changed. */
  predicate Balanced(r: Row) {
    r.available >= 0 && r.blocked >= 0 && r.sold >= 0 && r.available + r.blocked + r.sold <= r.total
  }

  predicate RowAccepts(kind: Kind, r: Row, q: int) {
    Guard(kind, r, q) && Balanced(Move(kind, r, q))
  }

  /** A range operation succeeds when every covered night has a row of the hotel that takes it. */
  ghost predicate Accepts(t: Table, op: RangeOp) {
    && op.quantity > 0
    && op.checkIn < op.checkOut
    && forall k | Covers(op, k) :: k in t && t[k].hotel == op.hotel && RowAccepts(op.kind, t[k], op.quantity)
  }

  /** The table after a successful range operation: covered rows move, the rest stay. */
  function Apply(t: Table, op: RangeOp): (u: Table)
    ensures u.Keys == t.Keys
  {
    map k | k in t :: if Covers(op, k) then Move(op.kind, t[k], op.quantity) else t[k]
  }

  /** One range transaction: all of it, or nothing. */
  ghost function RunOp(t: Table, op: RangeOp): (u: Table)
    ensures u.Keys == t.Keys
  {
    if Accepts(t, op) then Apply(t, op) else t
  }

  // ---------------------------------------------------------------- the other writers

  const NIGHTS_OPENED := 60

  /** The rows RoomTypesService.create inserts. */
  function OpenedRows(hotel: int, roomType: int, first: Day, total: nat): (t: Table)
    requires first + NIGHTS_OPENED - 1 <= MAX_DAY
  {
    map n: Day | first <= n < first + NIGHTS_OPENED :: Key(roomType, n) := Row(hotel, total, total, 0, 0, false)
  }

  /** What RoomTypesService.update does to one row of the room type. */
  function WithTotal(r: Row, total: int): Row {
    r.(total := total, available := Max(0, total - r.sold - r.blocked))
  }

  function SetTotal(t: Table, roomType: int, total: int): (u: Table)
    ensures u.Keys == t.Keys
  {
    map k | k in t :: if k.roomType == roomType then WithTotal(t[k], total) else t[k]
  }

  // ---------------------------------------------------------------- events and runs

  datatype LedgerEvent =
    | Range(op: RangeOp)
    | Opened(hotel: int, roomType: int, first: Day, total: nat)
    | TotalSet(roomType: int, newTotal: int)

  /** A new room type has no rows yet, and its sixty nights lie on the calendar. */
  ghost predicate Allowed(t: Table, e: LedgerEvent) {
    e.Opened? ==>
      && e.first + NIGHTS_OPENED - 1 <= MAX_DAY
      && forall k | k in t :: k.roomType != e.roomType
  }

  ghost function StepLedger(t: Table, e: LedgerEvent): Table
    requires Allowed(t, e)
  {
    match e
    case Range(op) => RunOp(t, op)
    case Opened(hotel, roomType, first, total) => t + OpenedRows(hotel, roomType, first, total)
    case TotalSet(roomType, newTotal) => SetTotal(t, roomType, newTotal)
  }

  ghost predicate AllowedRun(t: Table, es: seq<LedgerEvent>)
    decreases |es|
  {
    es != [] ==> Allowed(t, es[0]) && AllowedRun(StepLedger(t, es[0]), es[1..])
  }

  /** The table after a whole run of events. */
  ghost function Replay(t: Table, es: seq<LedgerEvent>): Table
    requires AllowedRun(t, es)
    decreases |es|
  {
    if es == [] then t else Replay(StepLedger(t, es[0]), es[1..])
  }

  // ---------------------------------------------------------------- the ledger invariant

  predicate RowInv(r: Row) {
    r.blocked >= 0 && r.sold >= 0 && r.available == Max(0, r.total - r.blocked - r.sold)
  }

  ghost predicate LedgerInv(t: Table) {
    forall k | k in t :: RowInv(t[k])
  }

  /** More rooms promised than the room type has, after its total was lowered. */
  predicate Oversubscribed(r: Row) {
    r.blocked + r.sold > r.total
  }
}
