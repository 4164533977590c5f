/** The counters as an account of the history: what was held, released, confirmed and cancelled on each night. */
module LedgerHistory {
  import opened Calendar
  import opened Ledger
  import LedgerLaws

  /** Rooms moved on one night, by kind of movement. */
  datatype Tally = Tally(held: int, released: int, fromHold: int, direct: int, cancelled: int)

  const ZERO := Tally(0, 0, 0, 0, 0)

  function Plus(a: Tally, b: Tally): Tally {
    Tally(a.held + b.held, a.released + b.released, a.fromHold + b.fromHold, a.direct + b.direct,
          a.cancelled + b.cancelled)
  }

  /** What one event adds to the account of a night: its quantity if it is accepted and covers the night. */
  ghost function Entry(t: Table, e: LedgerEvent, k: Key): Tally {
    if e.Range? && Covers(e.op, k) && Accepts(t, e.op) then
      match e.op.kind
      case Hold => ZERO.(held := e.op.quantity)
      case Release => ZERO.(released := e.op.quantity)
      case ConfirmHeld => ZERO.(fromHold := e.op.quantity)
      case ConfirmDirect => ZERO.(direct := e.op.quantity)
      case Cancel => ZERO.(cancelled := e.op.quantity)
    else ZERO
  }

  /** The account of a night over a whole run. */
  ghost function Account(t: Table, es: seq<LedgerEvent>, k: Key): Tally
    requires AllowedRun(t, es)
    decreases |es|
  {
    if es == [] then ZERO else Plus(Entry(t, es[0], k), Account(StepLedger(t, es[0]), es[1..], k))
  }

  function BlockedOn(t: Table, k: Key): int {
    if k in t then t[k].blocked else 0
  }

  function SoldOn(t: Table, k: Key): int {
    if k in t then t[k].sold else 0
  }

  lemma StepBooksEntry(t: Table, e: LedgerEvent, k: Key)
    requires Allowed(t, e)
    ensures var x := Entry(t, e, k);
            && BlockedOn(StepLedger(t, e), k) == BlockedOn(t, k) + x.held - x.released - x.fromHold
            && SoldOn(StepLedger(t, e), k) == SoldOn(t, k) + x.direct + x.fromHold - x.cancelled
  {
  }

  /** Blocked rooms are holds minus releases minus confirms from hold; sold rooms are confirms minus cancels. */
  lemma {:induction false} CountersRefineHistory(t: Table, es: seq<LedgerEvent>, k: Key)
    requires AllowedRun(t, es)
    ensures var x := Account(t, es, k);
            && BlockedOn(Replay(t, es), k) == BlockedOn(t, k) + x.held - x.released - x.fromHold
            && SoldOn(Replay(t, es), k) == SoldOn(t, k) + x.direct + x.fromHold - x.cancelled
    decreases |es|
  {
    if es != [] {
      StepBooksEntry(t, es[0], k);
      CountersRefineHistory(StepLedger(t, es[0]), es[1..], k);
    }
  }

  /** The event does not set a total below what some row of the room type already owes. */
  ghost predicate NoCut(t: Table, e: LedgerEvent) {
    e.TotalSet? ==> forall k | k in t && k.roomType == e.roomType :: t[k].blocked + t[k].sold <= e.newTotal
  }

  ghost predicate NoCuts(t: Table, es: seq<LedgerEvent>)
    requires AllowedRun(t, es)
    decreases |es|
  {
    es != [] ==> NoCut(t, es[0]) && NoCuts(StepLedger(t, es[0]), es[1..])
  }

  ghost predicate NoneOversubscribed(t: Table) {
    forall k | k in t :: !Oversubscribed(t[k])
  }

  /** One event oversubscribes a row of a clean table exactly when it is a cut. */
  lemma OnlyCutsOversubscribe(t: Table, e: LedgerEvent)
    requires Allowed(t, e) && LedgerInv(t) && NoneOversubscribed(t)
    ensures NoneOversubscribed(StepLedger(t, e)) <==> NoCut(t, e)
  {
  }

  /** Starting clean, a run without cuts never promises more rooms than a night has. */
  lemma {:induction false} NeverOverbooked(t: Table, es: seq<LedgerEvent>)
    requires AllowedRun(t, es) && LedgerInv(t) && NoneOversubscribed(t) && NoCuts(t, es)
    ensures NoneOversubscribed(Replay(t, es))
    decreases |es|
  {
    if es != [] {
      OnlyCutsOversubscribe(t, es[0]);
      LedgerLaws.StepKeepsInvariant(t, es[0]);
      NeverOverbooked(StepLedger(t, es[0]), es[1..]);
    }
  }

  /** From an empty database: on every night, accepted holds and confirms net of releases and cancels fit the total. */
  lemma HistoryFitsTotal(es: seq<LedgerEvent>, k: Key)
    requires AllowedRun(map[], es) && NoCuts(map[], es) && k in Replay(map[], es)
    ensures var x := Account(map[], es, k);
            && 0 <= x.held - x.released - x.fromHold
            && 0 <= x.direct + x.fromHold - x.cancelled
            && x.held - x.released + x.direct - x.cancelled <= Replay(map[], es)[k].total
  {
    CountersRefineHistory(map[], es, k);
    LedgerLaws.RunKeepsInvariant(map[], es);
    NeverOverbooked(map[], es);
  }
}
