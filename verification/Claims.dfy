/**
 What bookings have a claim to on a night: the sum of the rooms of those not yet expired by
 the sweep, or of those bought. One sum, with the kind of claim as a parameter.
 */
module Claims {
  import opened Outcomes
  import opened Calendar
  import opened Ledger
  import opened HotelState

  /** The booking's hold has not been given back by the expiry sweep. */
  predicate Live(b: Booking) {
    b.cancelReason != Some(HoldExpired)
  }

  /** The booking was bought: the hotel expects the guest. */
  predicate Settled(b: Booking) {
    b.status == Confirmed || b.status == Paid
  }

  /** The two counters a booking may have a claim to. */
  datatype Claim = ToBlocked | ToSold

  predicate HasClaim(c: Claim, b: Booking) {
    match c
    case ToBlocked => Live(b)
    case ToSold => Settled(b)
  }

  predicate StaysOn(b: Booking, k: Key) {
    b.roomType == k.roomType && b.checkIn <= k.night < b.checkOut
  }

  function RoomsOn(c: Claim, b: Booking, k: Key): int {
    if HasClaim(c, b) && StaysOn(b, k) then b.rooms else 0
  }

  ghost function OwedBy(c: Claim, ids: set<nat>, bs: map<nat, Booking>, k: Key): int
    requires ids <= bs.Keys
  {
    if ids == {} then 0
    else
      var id :| id in ids;
      RoomsOn(c, bs[id], k) + OwedBy(c, ids - {id}, bs, k)
  }

  /** The rooms of all bookings with a claim to a night. */
  ghost function Owed(c: Claim, bs: map<nat, Booking>, k: Key): int {
    OwedBy(c, bs.Keys, bs, k)
  }

  lemma {:induction false} OwedSplit(c: Claim, ids: set<nat>, bs: map<nat, Booking>, id: nat, k: Key)
    requires id in ids && ids <= bs.Keys
    ensures OwedBy(c, ids, bs, k) == RoomsOn(c, bs[id], k) + OwedBy(c, ids - {id}, bs, k)
  {
    var picked :| && picked in ids
                  && OwedBy(c, ids, bs, k) == RoomsOn(c, bs[picked], k) + OwedBy(c, ids - {picked}, bs, k);
    if picked != id {
      OwedSplit(c, ids - {picked}, bs, id, k);
      OwedSplit(c, ids - {id}, bs, picked, k);
      assert ids - {picked} - {id} == ids - {id} - {picked};
    }
  }

  lemma {:induction false} OwedSame(c: Claim, ids: set<nat>, bs: map<nat, Booking>, after: map<nat, Booking>, k: Key)
    requires ids <= bs.Keys && ids <= after.Keys
    requires forall id | id in ids :: RoomsOn(c, bs[id], k) == RoomsOn(c, after[id], k)
    ensures OwedBy(c, ids, bs, k) == OwedBy(c, ids, after, k)
  {
    if ids != {} {
      var id :| id in ids;
      OwedSplit(c, ids, bs, id, k);
      OwedSplit(c, ids, after, id, k);
      OwedSame(c, ids - {id}, bs, after, k);
    }
  }

  /** Storing one booking changes what is owed by that booking alone. */
  lemma OwedUpdate(c: Claim, bs: map<nat, Booking>, id: nat, b: Booking, k: Key)
    ensures Owed(c, bs[id := b], k) == Owed(c, bs, k) + RoomsOn(c, b, k) - if id in bs then RoomsOn(c, bs[id], k) else 0
  {
    var after := bs[id := b];
    OwedSplit(c, after.Keys, after, id, k);
    assert after.Keys - {id} == bs.Keys - {id};
    OwedSame(c, bs.Keys - {id}, bs, after, k);
    if id in bs {
      OwedSplit(c, bs.Keys, bs, id, k);
    } else {
      assert bs.Keys - {id} == bs.Keys;
    }
  }

  lemma {:induction false} OwedNothing(c: Claim, ids: set<nat>, bs: map<nat, Booking>, k: Key)
    requires ids <= bs.Keys && forall id | id in ids :: RoomsOn(c, bs[id], k) == 0
    ensures OwedBy(c, ids, bs, k) == 0
  {
    if ids != {} {
      var id :| id in ids;
      OwedSplit(c, ids, bs, id, k);
      OwedNothing(c, ids - {id}, bs, k);
    }
  }

  lemma {:induction false} OwedUnion(c: Claim, a: set<nat>, b: set<nat>, bs: map<nat, Booking>, k: Key)
    requires a !! b && a <= bs.Keys && b <= bs.Keys
    ensures OwedBy(c, a + b, bs, k) == OwedBy(c, a, bs, k) + OwedBy(c, b, bs, k)
    decreases a
  {
    if a == {} {
      assert a + b == b;
    } else {
      var id :| id in a;
      OwedSplit(c, a, bs, id, k);
      OwedSplit(c, a + b, bs, id, k);
      assert a + b - {id} == (a - {id}) + b;
      OwedUnion(c, a - {id}, b, bs, k);
    }
  }

  /** A larger group of bookings is owed at least as much. */
  lemma {:induction false} OwedMonotone(c: Claim, small: set<nat>, ids: set<nat>, bs: map<nat, Booking>, k: Key)
    requires small <= ids <= bs.Keys && forall id | id in ids :: bs[id].rooms > 0
    ensures 0 <= OwedBy(c, small, bs, k) <= OwedBy(c, ids, bs, k)
    decreases ids
  {
    if small != {} {
      var id :| id in small;
      OwedSplit(c, small, bs, id, k);
      OwedSplit(c, ids, bs, id, k);
      OwedMonotone(c, small - {id}, ids - {id}, bs, k);
    } else if ids != {} {
      var id :| id in ids;
      OwedSplit(c, ids, bs, id, k);
      OwedMonotone(c, {}, ids - {id}, bs, k);
    }
  }
}
