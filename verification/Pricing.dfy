/** The price of a rate plan for a party: base slots go to adults first, the rest pay extra. Amounts are in cents. */
module Pricing {
  import opened Bounds

  datatype RatePlan = RatePlan(roomType: nat, price: int, baseOccupancy: int, adultFee: int, childFee: int,
                               prepaymentRequired: bool)

  datatype PlanPrice = PlanPrice(plan: nat, priceAmount: int, nightlyTotal: int, stayTotal: int,
                                 prepaymentRequired: bool)

  /** computeRatePlanPrice */
  function ComputePrice(id: nat, rp: RatePlan, adults: nat, children: nat, nights: int, rooms: int): PlanPrice {
    var baseUsedByAdults := Min(adults, rp.baseOccupancy);
    var remainingBase := rp.baseOccupancy - baseUsedByAdults;
    var baseUsedByChildren := Min(children, remainingBase);
    var extraAdults := adults - baseUsedByAdults;
    var extraChildren := children - baseUsedByChildren;
    var nightlyTotal := rp.price
                        + (if extraAdults > 0 then extraAdults * rp.adultFee else 0)
                        + (if extraChildren > 0 then extraChildren * rp.childFee else 0);
    PlanPrice(id, rp.price, nightlyTotal, nightlyTotal * nights * rooms, rp.prepaymentRequired)
  }

  function Nightly(rp: RatePlan, adults: nat, children: nat): int {
    ComputePrice(0, rp, adults, children, 1, 1).nightlyTotal
  }

  // ---------------------------------------------------------------- allocations of the base slots

  /** A way to hand out base slots: x adults and y children stay without extra charge. */
  predicate Allocation(rp: RatePlan, adults: nat, children: nat, x: int, y: int) {
    0 <= x <= adults && 0 <= y <= children && x + y <= rp.baseOccupancy
  }

  /** The nightly total under an allocation: everyone without a slot pays the extra fee of their kind. */
  function Charge(rp: RatePlan, adults: nat, children: nat, x: int, y: int): int {
    rp.price + (adults - x) * rp.adultFee + (children - y) * rp.childFee
  }

  /**
   Whatever the stay and the number of rooms, the night costs the plan's price and an extra fee
   for each guest above the base occupancy; no child has a base slot while an adult pays extra.
   The listed price and prepayment are the plan's own.
   */
  lemma ChargesExactlyTheExtras(id: nat, rp: RatePlan, adults: nat, children: nat, nights: int, rooms: int)
    requires rp.baseOccupancy >= 0
    ensures var p := ComputePrice(id, rp, adults, children, nights, rooms);
            && p.plan == id && p.priceAmount == rp.price && p.prepaymentRequired == rp.prepaymentRequired
            && exists x, y :: Allocation(rp, adults, children, x, y)
                 && p.nightlyTotal == rp.price + (adults - x) * rp.adultFee + (children - y) * rp.childFee
                 && (adults - x) + (children - y) == Max(0, adults + children - rp.baseOccupancy)
                 && (x == adults || y == 0)
  {
    var x := Min(adults, rp.baseOccupancy);
    var y := Min(children, rp.baseOccupancy - x);
    assert Allocation(rp, adults, children, x, y);
    assert Nightly(rp, adults, children) == Charge(rp, adults, children, x, y);
  }

  /** Guests above the base pay extra, adults seated first: adults beyond it, then children beyond what is left. */
  function ExtraAdults(adults: nat, base: int): int {
    if adults > base then adults - base else 0
  }

  function ExtraChildren(adults: nat, children: nat, base: int): int {
    if adults >= base then children else if adults + children > base then adults + children - base else 0
  }

  lemma NightlyIs(id: nat, rp: RatePlan, adults: nat, children: nat, nights: int, rooms: int)
    requires rp.baseOccupancy >= 0
    ensures ComputePrice(id, rp, adults, children, nights, rooms).nightlyTotal ==
            rp.price + ExtraAdults(adults, rp.baseOccupancy) * rp.adultFee
            + ExtraChildren(adults, children, rp.baseOccupancy) * rp.childFee
    ensures ExtraAdults(adults, rp.baseOccupancy) + ExtraChildren(adults, children, rp.baseOccupancy) ==
            Max(0, adults + children - rp.baseOccupancy)
  {
  }

  /** An amount charged n times over. */
  function Times(amount: int, n: nat): int {
    if n == 0 then 0 else amount + Times(amount, n - 1)
  }

  lemma {:induction false} TimesIsProduct(amount: int, n: nat)
    ensures Times(amount, n) == amount * n
  {
    if n > 0 {
      TimesIsProduct(amount, n - 1);
      assert amount * n == amount + amount * (n - 1);
    }
  }

  /** The stay costs the night's total once for every night of every room. */
  lemma StayIsEveryNightOfEveryRoom(id: nat, rp: RatePlan, adults: nat, children: nat, nights: nat, rooms: nat)
    ensures var p := ComputePrice(id, rp, adults, children, nights, rooms);
            p.stayTotal == Times(Times(p.nightlyTotal, nights), rooms)
  {
    var p := ComputePrice(id, rp, adults, children, nights, rooms);
    TimesIsProduct(p.nightlyTotal, nights);
    TimesIsProduct(p.nightlyTotal * nights, rooms);
  }

  /** Splitting a stay, or a booking of several rooms, splits its total. */
  lemma StayTotalsAdd(id: nat, rp: RatePlan, a: nat, c: nat, n: nat, m: nat, r: nat, q: nat)
    ensures ComputePrice(id, rp, a, c, n + m, r).stayTotal ==
            ComputePrice(id, rp, a, c, n, r).stayTotal + ComputePrice(id, rp, a, c, m, r).stayTotal
    ensures ComputePrice(id, rp, a, c, n, r + q).stayTotal ==
            ComputePrice(id, rp, a, c, n, r).stayTotal + ComputePrice(id, rp, a, c, n, q).stayTotal
  {
    var night := Nightly(rp, a, c);
    Distributes(night, n, m);
    Distributes(r, night * n, night * m);
    Distributes(night * n, r, q);
  }

  lemma Distributes(x: int, y: int, z: int)
    ensures x * (y + z) == x * y + x * z && (y + z) * x == y * x + z * x
  {
  }

  lemma MulMonotone(a: int, b: int, c: int)
    requires a <= b && 0 <= c
    ensures a * c <= b * c
  {
  }

  /** Moving d slots from children to adults, and filling d + e more in all, does not cost more. */
  lemma TradeOff(d: int, e: int, adultFee: int, childFee: int)
    requires adultFee >= childFee >= 0 && d >= 0 && d + e >= 0
    ensures d * adultFee + e * childFee >= 0
  {
    MulMonotone(childFee, adultFee, d);
    MulMonotone(0, d + e, childFee);
    assert d * childFee + e * childFee == (d + e) * childFee;
  }

  lemma ChargeDifference(rp: RatePlan, adults: nat, children: nat, x: int, y: int, u: int, v: int)
    ensures Charge(rp, adults, children, x, y) - Charge(rp, adults, children, u, v)
         == (u - x) * rp.adultFee + (v - y) * rp.childFee
  {
  }

  /** When an adult costs at least as much as a child and neither fee is negative, no allocation is cheaper. */
  lemma AdultsFirstIsCheapest(rp: RatePlan, adults: nat, children: nat, x: int, y: int)
    requires rp.adultFee >= rp.childFee >= 0
    requires Allocation(rp, adults, children, x, y)
    ensures Nightly(rp, adults, children) <= Charge(rp, adults, children, x, y)
  {
    var u := Min(adults, rp.baseOccupancy);
    var v := Min(children, rp.baseOccupancy - u);
    assert Nightly(rp, adults, children) == Charge(rp, adults, children, u, v);
    ChargeDifference(rp, adults, children, x, y, u, v);
    TradeOff(u - x, v - y, rp.adultFee, rp.childFee);
  }

  ghost predicate NeverBeaten(rp: RatePlan) {
    forall adults: nat, children: nat, x, y | Allocation(rp, adults, children, x, y) ::
      Nightly(rp, adults, children) <= Charge(rp, adults, children, x, y)
  }

  /** Adults first is cheapest for every party exactly when there is no base slot or the fees have that order. */
  lemma AdultsFirstCheapestIff(rp: RatePlan)
    ensures NeverBeaten(rp) <==> rp.baseOccupancy <= 0 || rp.adultFee >= rp.childFee >= 0
  {
    if rp.baseOccupancy <= 0 || rp.adultFee >= rp.childFee >= 0 {
      forall adults: nat, children: nat, x, y | Allocation(rp, adults, children, x, y)
        ensures Nightly(rp, adults, children) <= Charge(rp, adults, children, x, y)
      {
        if rp.adultFee >= rp.childFee >= 0 { AdultsFirstIsCheapest(rp, adults, children, x, y); }
      }
    }
    if NeverBeaten(rp) && rp.baseOccupancy >= 1 {
      // One adult and as many children as slots: the adult's slot must be worth a child's.
      assert Allocation(rp, 1, rp.baseOccupancy, 0, rp.baseOccupancy);
      // One child alone: leaving its slot empty must not be cheaper.
      assert Allocation(rp, 0, 1, 0, 0);
    }
  }

  /** Totals never fall when a guest, a night or a room is added, for non-negative prices and fees. */
  lemma TotalsMonotone(rp: RatePlan, id: nat, a: nat, a': nat, c: nat, c': nat, n: nat, n': nat, r: nat, r': nat)
    requires rp.price >= 0 && rp.adultFee >= 0 && rp.childFee >= 0 && rp.baseOccupancy >= 0
    requires a <= a' && c <= c' && n <= n' && r <= r'
    ensures ComputePrice(id, rp, a, c, n, r).nightlyTotal <= ComputePrice(id, rp, a', c', n', r').nightlyTotal
    ensures 0 <= ComputePrice(id, rp, a, c, n, r).stayTotal <= ComputePrice(id, rp, a', c', n', r').stayTotal
  {
    var p, q := ComputePrice(id, rp, a, c, n, r), ComputePrice(id, rp, a', c', n', r');
    NightlyMonotone(rp, a, a', c, c');
    assert p.nightlyTotal == Nightly(rp, a, c) && q.nightlyTotal == Nightly(rp, a', c');
    StayMonotone(p.nightlyTotal, q.nightlyTotal, n, n', r, r');
  }

  lemma NightlyMonotone(rp: RatePlan, a: nat, a': nat, c: nat, c': nat)
    requires rp.price >= 0 && rp.adultFee >= 0 && rp.childFee >= 0 && rp.baseOccupancy >= 0
    requires a <= a' && c <= c'
    ensures 0 <= Nightly(rp, a, c) <= Nightly(rp, a', c')
  {
    var b := rp.baseOccupancy;
    var x, x' := a - Min(a, b), a' - Min(a', b);
    var y, y' := c - Min(c, b - Min(a, b)), c' - Min(c', b - Min(a', b));
    MulMonotone(0, x, rp.adultFee); MulMonotone(x, x', rp.adultFee);
    MulMonotone(0, y, rp.childFee); MulMonotone(y, y', rp.childFee);
  }

  lemma StayMonotone(p: int, q: int, n: nat, n': nat, r: nat, r': nat)
    requires 0 <= p <= q && n <= n' && r <= r'
    ensures 0 <= p * n * r <= q * n' * r'
  {
    MulMonotone(p, q, n);
    MulMonotone(n, n', q);
    assert p * n <= q * n' && 0 <= p * n;
    MulMonotone(p * n, q * n', r);
    MulMonotone(r, r', q * n');
  }
}
