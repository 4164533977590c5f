/**
 Availability search: candidate room types ordered by their best price, filtered by an
 aggregate over the inventory rows, grouped by hotel, and listed with their priced plans.
 The database is a value; each query is described by the set of records it selects.
 */
module Search {
  import opened Outcomes
  import opened Calendar
  import opened Ledger
  import opened Pricing
  import CalendarLaws
  import Sorting

  datatype Hotel = Hotel(star: Option<int>, province: int, district: int, ward: int, amenities: set<int>)

  datatype RoomType = RoomType(hotel: nat, active: bool, maxAdults: int, maxChildren: int, maxOccupancy: int,
                               amenities: set<int>)

  datatype Catalog = Catalog(hotels: map<nat, Hotel>, roomTypes: map<nat, RoomType>, plans: map<nat, RatePlan>,
                             rows: Table)

  datatype Query = Query(
    checkIn: string, checkOut: string, rooms: int, adults: nat, children: nat,
    hotelId: Option<nat>, provinceId: Option<int>, districtId: Option<int>, wardId: Option<int>,
    hotelAmenityIds: seq<int>, roomAmenityIds: seq<int>, minPrice: Option<int>, maxPrice: Option<int>,
    minStar: Option<int>, maxStar: Option<int>, payAtHotelOnly: bool, ascending: bool)

  datatype RoomOffer = RoomOffer(roomType: nat, bestPrice: int, ratePlans: seq<PlanPrice>)

  datatype HotelOffer = HotelOffer(hotel: nat, minPrice: Option<int>, rooms: seq<RoomOffer>)

  datatype SearchError = CheckoutNotAfterCheckin

  // ---------------------------------------------------------------- what the queries select

  /** A numeric filter is used only if it is given and not zero. */
  predicate Given(x: Option<int>) {
    x.Some? && x.value != 0
  }

  function Members(ids: seq<int>): set<int> {
    set a | a in ids
  }

  /** COUNT(DISTINCT amenity) over the asked ones equals the number asked for. */
  predicate HasAmenities(have: set<int>, asked: seq<int>) {
    asked != [] ==> |have * Members(asked)| == |asked|
  }

  predicate PlanMatches(q: Query, rp: RatePlan, roomType: nat) {
    && rp.roomType == roomType
    && (q.minPrice.Some? ==> q.minPrice.value <= rp.price)
    && (q.maxPrice.Some? ==> rp.price <= q.maxPrice.value)
    && (q.payAtHotelOnly ==> !rp.prepaymentRequired)
  }

  function MatchingPlans(c: Catalog, q: Query, roomType: nat): set<nat> {
    set p | p in c.plans && PlanMatches(q, c.plans[p], roomType)
  }

  predicate LocationMatches(q: Query, id: nat, h: Hotel) {
    if Given(q.hotelId) then id == q.hotelId.value
    else
      && (Given(q.provinceId) ==> h.province == q.provinceId.value)
      && (Given(q.districtId) ==> h.district == q.districtId.value)
      && (Given(q.wardId) ==> h.ward == q.wardId.value)
  }

  predicate StarMatches(q: Query, h: Hotel) {
    && (q.minStar.Some? ==> h.star.Some? && h.star.value >= q.minStar.value)
    && (q.maxStar.Some? ==> h.star.Some? && h.star.value <= q.maxStar.value)
  }

  /** The room type query: active, large enough, in the right place, with a matching plan. */
  predicate Candidate(c: Catalog, q: Query, id: nat) {
    id in c.roomTypes &&
    var rt := c.roomTypes[id];
    && rt.hotel in c.hotels
    && rt.active && rt.maxAdults >= q.adults && rt.maxChildren >= q.children
    && rt.maxOccupancy >= q.adults + q.children
    && LocationMatches(q, rt.hotel, c.hotels[rt.hotel]) && StarMatches(q, c.hotels[rt.hotel])
    && HasAmenities(c.hotels[rt.hotel].amenities, q.hotelAmenityIds)
    && HasAmenities(rt.amenities, q.roomAmenityIds)
    && MatchingPlans(c, q, id) != {}
  }

  /** MIN(price_amount) over the matching plans. */
  ghost predicate IsBestPrice(c: Catalog, q: Query, roomType: nat, price: int) {
    && (forall p | p in MatchingPlans(c, q, roomType) :: price <= c.plans[p].price)
    && (exists p :: p in MatchingPlans(c, q, roomType) && c.plans[p].price == price)
  }

  /** The rows of the inventory query: the room type's nights in the range that are on sale, whatever their hotel. */
  function OpenRows(t: Table, roomType: int, checkIn: Day, checkOut: Day): set<Key> {
    set k | k in t && k.roomType == roomType && checkIn <= k.night < checkOut && !t[k].stopSell
  }

  /** What search takes for the free rooms of a row: it subtracts blocked and sold rooms once more. */
  function Free(r: Row): int {
    r.available - r.blocked - r.sold
  }

  /** The aggregate test: a row on sale for every night, and the least free count is enough. */
  ghost predicate Bookable(t: Table, roomType: int, checkIn: Day, checkOut: Day, rooms: int) {
    && OpenRows(t, roomType, checkIn, checkOut) != {}
    && |OpenRows(t, roomType, checkIn, checkOut)| == checkOut - checkIn
    && forall k | k in OpenRows(t, roomType, checkIn, checkOut) :: Free(t[k]) >= rooms
  }

  /** A room type that is listed: a candidate whose inventory passes; unreadable dates match no night count. */
  ghost predicate Eligible(c: Catalog, q: Query, id: nat) {
    && Candidate(c, q, id)
    && ParseIso(q.checkIn).Some? && ParseIso(q.checkOut).Some?
    && Bookable(c.rows, id, ParseIso(q.checkIn).value, ParseIso(q.checkOut).value, q.rooms)
  }

  // ---------------------------------------------------------------- what a result promises

  /** A room type's plans: exactly the matching ones, priced for the party, cheapest night first. */
  ghost predicate PlansListed(c: Catalog, q: Query, nights: int, offer: RoomOffer) {
    && offer.ratePlans != []
    && (forall i, j | 0 <= i < j < |offer.ratePlans| ::
          && offer.ratePlans[i].plan != offer.ratePlans[j].plan
          && offer.ratePlans[i].nightlyTotal <= offer.ratePlans[j].nightlyTotal)
    && (forall i | 0 <= i < |offer.ratePlans| ::
          && offer.ratePlans[i].plan in MatchingPlans(c, q, offer.roomType)
          && offer.ratePlans[i] == ComputePrice(offer.ratePlans[i].plan, c.plans[offer.ratePlans[i].plan],
                                                q.adults, q.children, nights, q.rooms))
    && (forall p | p in MatchingPlans(c, q, offer.roomType) ::
          exists i :: 0 <= i < |offer.ratePlans| && offer.ratePlans[i].plan == p)
  }

  /** The hotel's price is the least price amount among all the plans it lists. */
  ghost predicate MinOverPlans(h: HotelOffer) {
    && h.minPrice.Some?
    && (forall r, p | 0 <= r < |h.rooms| && 0 <= p < |h.rooms[r].ratePlans| ::
          h.minPrice.value <= h.rooms[r].ratePlans[p].priceAmount)
    && (exists r, p :: 0 <= r < |h.rooms| && 0 <= p < |h.rooms[r].ratePlans|
                       && h.minPrice.value == h.rooms[r].ratePlans[p].priceAmount)
  }

  ghost predicate ListsRoom(h: HotelOffer, id: nat) {
    exists r :: 0 <= r < |h.rooms| && h.rooms[r].roomType == id
  }

  /** One hotel of a result: its own eligible room types, each once, with all their plans and the least price. */
  ghost predicate HotelCorrect(c: Catalog, q: Query, nights: int, h: HotelOffer) {
    && h.rooms != [] && MinOverPlans(h)
    && (forall r | 0 <= r < |h.rooms| ::
          && Eligible(c, q, h.rooms[r].roomType)
          && c.roomTypes[h.rooms[r].roomType].hotel == h.hotel
          && IsBestPrice(c, q, h.rooms[r].roomType, h.rooms[r].bestPrice)
          && PlansListed(c, q, nights, h.rooms[r]))
    && (forall r, r' | 0 <= r < r' < |h.rooms| ::
          && h.rooms[r].roomType != h.rooms[r'].roomType
          && Sorting.NotAfter(q.ascending, h.rooms[r].bestPrice, h.rooms[r'].bestPrice))
  }

  ghost predicate ListedSomewhere(hotels: seq<HotelOffer>, id: nat) {
    exists i :: 0 <= i < |hotels| && ListsRoom(hotels[i], id)
  }

  /** Every property a search result has. */
  ghost predicate Correct(c: Catalog, q: Query, nights: int, hotels: seq<HotelOffer>) {
    && (forall i, j | 0 <= i < j < |hotels| :: hotels[i].hotel != hotels[j].hotel)
    && (forall i | 0 <= i < |hotels| :: HotelCorrect(c, q, nights, hotels[i]))
    && (forall id | Eligible(c, q, id) :: ListedSomewhere(hotels, id))
    && HotelsInOrder(q, hotels)
    && (q.ascending ==> PricesAscend(hotels))
  }

  /** In either direction a hotel's place follows the best price of its first room type. */
  ghost predicate HotelsInOrder(q: Query, hotels: seq<HotelOffer>) {
    forall i, j | 0 <= i < j < |hotels| ::
      hotels[i].rooms != [] && hotels[j].rooms != []
      && Sorting.NotAfter(q.ascending, hotels[i].rooms[0].bestPrice, hotels[j].rooms[0].bestPrice)
  }

  ghost predicate PricesAscend(hotels: seq<HotelOffer>) {
    forall i, j | 0 <= i < j < |hotels| ::
      hotels[i].minPrice.Some? && hotels[j].minPrice.Some? && hotels[i].minPrice.value <= hotels[j].minPrice.value
  }

  // ---------------------------------------------------------------- the queries

  /** MIN(price_amount) of a candidate, by running through its plans. */
  method MinPrice(c: Catalog, q: Query, roomType: nat) returns (price: int)
    requires MatchingPlans(c, q, roomType) != {}
    ensures IsBestPrice(c, q, roomType, price)
  {
    var plans := MatchingPlans(c, q, roomType);
    var first :| first in plans;
    price := c.plans[first].price;
    var left := plans - {first};
    while left != {}
      invariant left <= plans
      invariant forall p | p in plans && p !in left :: price <= c.plans[p].price
      invariant exists p :: p in plans && c.plans[p].price == price
      decreases left
    {
      var p :| p in left;
      left := left - {p};
      if c.plans[p].price < price { price := c.plans[p].price; }
    }
  }

  ghost predicate Priced(c: Catalog, q: Query, best: map<nat, int>) {
    forall id | id in best :: IsBestPrice(c, q, id, best[id])
  }

  /** The room type query with its best-price column, ordered by it. */
  method QueryRoomTypes(c: Catalog, q: Query) returns (list: seq<nat>, best: map<nat, int>)
    ensures Sorting.Lists(list, set id | id in c.roomTypes && Candidate(c, q, id))
    ensures best.Keys == (set id | id in c.roomTypes && Candidate(c, q, id))
    ensures Priced(c, q, best) && Sorting.Sorted(list, best, q.ascending)
  {
    var ids := set id | id in c.roomTypes && Candidate(c, q, id);
    best := map[];
    var left := ids;
    while left != {}
      invariant left <= ids && best.Keys == ids - left && Priced(c, q, best)
      decreases left
    {
      var id :| id in left;
      left := left - {id};
      var price := MinPrice(c, q, id);
      best := best[id := price];
    }
    list := Sorting.SortByKey(ids, best, q.ascending);
  }

  datatype Aggregate = Aggregate(minAvailable: int, daysCount: nat)

  /** The grouped inventory query for one room type; no row, no group. */
  method AggregateInventory(t: Table, roomType: int, checkIn: Day, checkOut: Day) returns (a: Option<Aggregate>)
    ensures a.None? <==> OpenRows(t, roomType, checkIn, checkOut) == {}
    ensures a.Some? ==> a.value.daysCount == |OpenRows(t, roomType, checkIn, checkOut)|
    ensures a.Some? ==>
              && (forall k | k in OpenRows(t, roomType, checkIn, checkOut) :: a.value.minAvailable <= Free(t[k]))
              && (exists k :: k in OpenRows(t, roomType, checkIn, checkOut) && a.value.minAvailable == Free(t[k]))
  {
    var rows := OpenRows(t, roomType, checkIn, checkOut);
    if rows == {} { return None; }
    var first :| first in rows;
    var least, count := Free(t[first]), 1;
    var left := rows - {first};
    while left != {}
      invariant left <= rows && count + |left| == |rows|
      invariant forall k | k in rows && k !in left :: least <= Free(t[k])
      invariant exists k :: k in rows && Free(t[k]) == least
      decreases left
    {
      var k :| k in left;
      left := left - {k};
      count := count + 1;
      if Free(t[k]) < least { least := Free(t[k]); }
    }
    return Some(Aggregate(least, count));
  }

  // ---------------------------------------------------------------- grouping by hotel

  /** An entry of the hotel map while it is filled; the map keeps insertion order. */
  datatype Group = Group(hotel: nat, minPrice: Option<int>, rooms: seq<nat>)

  predicate HasHotel(groups: seq<Group>, hotel: nat) {
    exists i :: 0 <= i < |groups| && groups[i].hotel == hotel
  }

  ghost predicate Distinct(ids: seq<nat>) {
    forall r, r' | 0 <= r < r' < |ids| :: ids[r] != ids[r']
  }

  /** An entry holds eligible room types of its hotel, each once, and the least of their best prices. */
  ghost predicate GroupOk(c: Catalog, best: map<nat, int>, eligible: set<nat>, g: Group) {
    && g.minPrice.Some? && Distinct(g.rooms)
    && (forall id | id in g.rooms ::
          id in eligible && id in best && id in c.roomTypes && c.roomTypes[id].hotel == g.hotel
          && g.minPrice.value <= best[id])
    && (exists id :: id in g.rooms && best[id] == g.minPrice.value)
  }

  ghost predicate InSome(groups: seq<Group>, id: nat) {
    exists i :: 0 <= i < |groups| && id in groups[i].rooms
  }

  /** The entries hold the eligible room types seen so far, each under its hotel. */
  ghost predicate Grouped(c: Catalog, best: map<nat, int>, eligible: set<nat>, groups: seq<Group>) {
    && (forall i, j | 0 <= i < j < |groups| :: groups[i].hotel != groups[j].hotel)
    && (forall i | 0 <= i < |groups| :: GroupOk(c, best, eligible, groups[i]))
    && (forall id | id in eligible :: InSome(groups, id))
  }

  /** Entries stand in the order of their first room types' prices, and so do the room types of each. */
  ghost predicate InPriceOrder(groups: seq<Group>, best: map<nat, int>, ascending: bool) {
    && (forall i | 0 <= i < |groups| :: Sorting.Sorted(groups[i].rooms, best, ascending))
    && (forall i, j | 0 <= i < j < |groups| ::
          groups[i].rooms != [] && groups[j].rooms != []
          && Sorting.InOrder(best, ascending, groups[i].rooms[0], groups[j].rooms[0]))
  }

  /** Every room type grouped so far comes no later than the given one. */
  ghost predicate NoneAfter(groups: seq<Group>, best: map<nat, int>, ascending: bool, id: nat) {
    forall i, x | 0 <= i < |groups| && x in groups[i].rooms :: Sorting.InOrder(best, ascending, x, id)
  }

  lemma NoneAfterNext(groups: seq<Group>, best: map<nat, int>, ascending: bool, id: nat, next: nat)
    requires NoneAfter(groups, best, ascending, id) && Sorting.InOrder(best, ascending, id, next)
    ensures NoneAfter(groups, best, ascending, next)
  {
    forall i, x | 0 <= i < |groups| && x in groups[i].rooms
      ensures Sorting.InOrder(best, ascending, x, next)
    {
      assert Sorting.InOrder(best, ascending, x, id);
    }
  }

  /** In ascending order an entry's least price is its first room type's, so the minima ascend too. */
  lemma MinimaAscend(c: Catalog, best: map<nat, int>, eligible: set<nat>, groups: seq<Group>)
    requires Grouped(c, best, eligible, groups) && InPriceOrder(groups, best, true)
    ensures forall i, j | 0 <= i < j < |groups| ::
              groups[i].minPrice.Some? && groups[j].minPrice.Some?
              && groups[i].minPrice.value <= groups[j].minPrice.value
  {
  }

  function LowerMin(current: Option<int>, price: int): Option<int> {
    if current.None? || price < current.value then Some(price) else current
  }

  lemma OtherGroupStays(c: Catalog, best: map<nat, int>, eligible: set<nat>, g: Group, id: nat)
    requires GroupOk(c, best, eligible, g)
    ensures GroupOk(c, best, eligible + {id}, g)
  {
  }

  lemma FirstRoomOk(c: Catalog, best: map<nat, int>, eligible: set<nat>, id: nat)
    requires id in c.roomTypes && id in best
    ensures GroupOk(c, best, eligible + {id}, Group(c.roomTypes[id].hotel, Some(best[id]), [id]))
  {
  }

  lemma NextRoomOk(c: Catalog, best: map<nat, int>, eligible: set<nat>, g: Group, id: nat)
    requires GroupOk(c, best, eligible, g)
    requires id in c.roomTypes && id in best && id !in eligible && g.hotel == c.roomTypes[id].hotel
    ensures GroupOk(c, best, eligible + {id}, g.(minPrice := LowerMin(g.minPrice, best[id]), rooms := g.rooms + [id]))
  {
  }

  lemma StillInSome(groups: seq<Group>, after: seq<Group>, id: nat)
    requires |groups| <= |after| && forall i, x | 0 <= i < |groups| && x in groups[i].rooms :: x in after[i].rooms
    requires InSome(groups, id)
    ensures InSome(after, id)
  {
  }

  lemma NewGroupHolds(groups: seq<Group>, eligible: set<nat>, g: Group, id: nat)
    requires g.rooms == [id] && forall x | x in eligible :: InSome(groups, x)
    ensures forall x | x in eligible + {id} :: InSome(groups + [g], x)
  {
    var after := groups + [g];
    assert after[|groups|] == g && id in g.rooms;
    forall x | x in eligible
      ensures InSome(after, x)
    {
      StillInSome(groups, after, x);
    }
  }

  lemma NewGroupKeeps(c: Catalog, best: map<nat, int>, eligible: set<nat>, groups: seq<Group>, id: nat)
    requires Grouped(c, best, eligible, groups)
    requires id in c.roomTypes && id in best && id !in eligible && !HasHotel(groups, c.roomTypes[id].hotel)
    ensures Grouped(c, best, eligible + {id}, groups + [Group(c.roomTypes[id].hotel, Some(best[id]), [id])])
  {
    var g := Group(c.roomTypes[id].hotel, Some(best[id]), [id]);
    FirstRoomOk(c, best, eligible, id);
    forall i | 0 <= i < |groups|
      ensures GroupOk(c, best, eligible + {id}, groups[i])
    {
      OtherGroupStays(c, best, eligible, groups[i], id);
    }
    NewGroupHolds(groups, eligible, g, id);
  }

  lemma KnownGroupKeeps(c: Catalog, best: map<nat, int>, eligible: set<nat>, groups: seq<Group>, id: nat, at: nat,
                        h: Group)
    requires Grouped(c, best, eligible, groups)
    requires id in c.roomTypes && id in best && id !in eligible
    requires at < |groups| && groups[at].hotel == c.roomTypes[id].hotel
    requires h == groups[at].(minPrice := LowerMin(groups[at].minPrice, best[id]), rooms := groups[at].rooms + [id])
    ensures Grouped(c, best, eligible + {id}, groups[at := h])
  {
    var after := groups[at := h];
    forall i | 0 <= i < |after|
      ensures GroupOk(c, best, eligible + {id}, after[i])
    {
      if i == at {
        NextRoomOk(c, best, eligible, groups[at], id);
      } else {
        OtherGroupStays(c, best, eligible, groups[i], id);
      }
    }
    assert id in after[at].rooms;
    forall x | x in eligible
      ensures InSome(after, x)
    {
      StillInSome(groups, after, x);
    }
  }

  lemma OrderWithNew(groups: seq<Group>, best: map<nat, int>, ascending: bool, g: Group, id: nat)
    requires InPriceOrder(groups, best, ascending) && NoneAfter(groups, best, ascending, id)
    requires id in best && g.rooms == [id] && forall i | 0 <= i < |groups| :: groups[i].rooms != []
    ensures InPriceOrder(groups + [g], best, ascending) && NoneAfter(groups + [g], best, ascending, id)
  {
  }

  lemma OrderWithKnown(groups: seq<Group>, best: map<nat, int>, ascending: bool, at: nat, h: Group, id: nat)
    requires InPriceOrder(groups, best, ascending) && NoneAfter(groups, best, ascending, id)
    requires id in best && at < |groups| && groups[at].rooms != [] && h.rooms == groups[at].rooms + [id]
    ensures InPriceOrder(groups[at := h], best, ascending) && NoneAfter(groups[at := h], best, ascending, id)
  {
  }

  /** hotelMap.get: the position of a hotel already in the map. */
  method Find(groups: seq<Group>, hotel: nat) returns (at: nat)
    requires HasHotel(groups, hotel)
    ensures at < |groups| && groups[at].hotel == hotel
  {
    at := 0;
    while groups[at].hotel != hotel
      invariant at < |groups| && forall i | 0 <= i < at :: groups[i].hotel != hotel
      decreases |groups| - at
    {
      at := at + 1;
    }
  }

  /** Puts one eligible room type under its hotel, creating the hotel's entry if it is the first. */
  method AddRoom(c: Catalog, best: map<nat, int>, groups: seq<Group>, ghost eligible: set<nat>, id: nat,
                 ghost ascending: bool)
    returns (after: seq<Group>)
    requires Grouped(c, best, eligible, groups) && id in c.roomTypes && id in best && id !in eligible
    requires InPriceOrder(groups, best, ascending) && NoneAfter(groups, best, ascending, id)
    ensures Grouped(c, best, eligible + {id}, after)
    ensures InPriceOrder(after, best, ascending) && NoneAfter(after, best, ascending, id)
  {
    assert forall i | 0 <= i < |groups| :: GroupOk(c, best, eligible, groups[i]);
    var hotel := c.roomTypes[id].hotel;
    if !HasHotel(groups, hotel) {
      NewGroupKeeps(c, best, eligible, groups, id);
      after := groups + [Group(hotel, Some(best[id]), [id])];
      OrderWithNew(groups, best, ascending, Group(hotel, Some(best[id]), [id]), id);
    } else {
      var at := Find(groups, hotel);
      var current := groups[at];
      if current.minPrice.None? || best[id] < current.minPrice.value {
        current := current.(minPrice := Some(best[id]));
      }
      current := current.(rooms := current.rooms + [id]);
      KnownGroupKeeps(c, best, eligible, groups, id, at, current);
      after := groups[at := current];
      OrderWithKnown(groups, best, ascending, at, current, id);
    }
  }

  /** One turn of the loop: a room type whose inventory passes joins its hotel's entry. */
  method ConsiderRoom(c: Catalog, q: Query, best: map<nat, int>, groups: seq<Group>, eligible: set<nat>, id: nat,
                      checkIn: Day, checkOut: Day)
    returns (after: seq<Group>, chosen: set<nat>)
    requires Grouped(c, best, eligible, groups) && id in c.roomTypes && id in best && id !in eligible
    requires InPriceOrder(groups, best, q.ascending) && NoneAfter(groups, best, q.ascending, id)
    ensures Grouped(c, best, chosen, after)
    ensures InPriceOrder(after, best, q.ascending) && NoneAfter(after, best, q.ascending, id)
    ensures chosen == if Bookable(c.rows, id, checkIn, checkOut, q.rooms) then eligible + {id} else eligible
  {
    var passes := InventoryPasses(c.rows, id, checkIn, checkOut, q.rooms);
    if !passes { return groups, eligible; }
    after := AddRoom(c, best, groups, eligible, id, q.ascending);
    chosen := eligible + {id};
  }

  lemma NextSeen(list: seq<nat>, n: nat)
    requires n < |list| && forall i, j | 0 <= i < j < |list| :: list[i] != list[j]
    ensures forall id :: id in list[..n + 1] <==> id in list[..n] || id == list[n]
    ensures list[n] !in list[..n]
  {
  }

  /** Goes through the ordered candidates, keeps those whose inventory passes, and groups them. */
  method GroupEligible(c: Catalog, q: Query, list: seq<nat>, best: map<nat, int>, checkIn: Day, checkOut: Day)
    returns (groups: seq<Group>, eligible: set<nat>)
    requires Sorting.Lists(list, best.Keys) && best.Keys <= c.roomTypes.Keys && Sorting.Sorted(list, best, q.ascending)
    ensures Grouped(c, best, eligible, groups)
    ensures forall id :: id in eligible <==> id in best && Bookable(c.rows, id, checkIn, checkOut, q.rooms)
    ensures InPriceOrder(groups, best, q.ascending)
  {
    groups, eligible := [], {};
    for n := 0 to |list|
      invariant Grouped(c, best, eligible, groups) && InPriceOrder(groups, best, q.ascending)
      invariant forall id :: id in eligible <==> id in list[..n] && Bookable(c.rows, id, checkIn, checkOut, q.rooms)
      invariant n < |list| ==> NoneAfter(groups, best, q.ascending, list[n])
    {
      var id := list[n];
      assert id in list;
      NextSeen(list, n);
      groups, eligible := ConsiderRoom(c, q, best, groups, eligible, id, checkIn, checkOut);
      if n + 1 < |list| { NoneAfterNext(groups, best, q.ascending, id, list[n + 1]); }
    }
    assert list[..|list|] == list;
  }

  /** The inventory filter of the loop: a group exists, every night is counted, and the least free count suffices. */
  method InventoryPasses(t: Table, roomType: int, checkIn: Day, checkOut: Day, rooms: int) returns (ok: bool)
    ensures ok <==> Bookable(t, roomType, checkIn, checkOut, rooms)
  {
    var inv := AggregateInventory(t, roomType, checkIn, checkOut);
    return inv.Some? && inv.value.daysCount == checkOut - checkIn && inv.value.minAvailable >= rooms;
  }

  // ---------------------------------------------------------------- the rate plans

  /** The second rate plan query, over all eligible room types at once, and its grouping by room type. */
  method LoadRatePlans(c: Catalog, q: Query, eligible: set<nat>) returns (rpGroup: map<nat, seq<nat>>)
    ensures forall id | id in rpGroup :: Sorting.Lists(rpGroup[id], MatchingPlans(c, q, id))
    ensures forall id | id in eligible && MatchingPlans(c, q, id) != {} :: id in rpGroup
  {
    var selected := set p | && p in c.plans && c.plans[p].roomType in eligible
                            && PlanMatches(q, c.plans[p], c.plans[p].roomType);
    rpGroup := map[];
    var left := selected;
    while left != {}
      invariant left <= selected
      invariant forall id | id in rpGroup ::
                  id in eligible && Sorting.Lists(rpGroup[id], MatchingPlans(c, q, id) - left)
      invariant forall p | p in selected && p !in left :: c.plans[p].roomType in rpGroup
      invariant forall p | p in left ::
                  c.plans[p].roomType !in rpGroup ==> MatchingPlans(c, q, c.plans[p].roomType) <= left
      decreases left
    {
      var p :| p in left;
      var id := c.plans[p].roomType;
      var list := if id in rpGroup then rpGroup[id] else [];
      assert Sorting.Lists(list, MatchingPlans(c, q, id) - left);
      PushPlan(list, MatchingPlans(c, q, id), left, p);
      OtherListsStay(c, q, rpGroup, left, p);
      rpGroup := rpGroup[id := list + [p]];
      left := left - {p};
    }
    forall id | id in rpGroup
      ensures MatchingPlans(c, q, id) - left == MatchingPlans(c, q, id)
    {
    }
    forall id | id in eligible && MatchingPlans(c, q, id) != {}
      ensures id in rpGroup
    {
      var p :| p in MatchingPlans(c, q, id);
      assert p in selected;
    }
  }

  lemma PushPlan(list: seq<nat>, plans: set<nat>, left: set<nat>, p: nat)
    requires Sorting.Lists(list, plans - left) && p in plans && p in left
    ensures Sorting.Lists(list + [p], plans - (left - {p}))
  {
  }

  lemma OtherListsStay(c: Catalog, q: Query, rpGroup: map<nat, seq<nat>>, left: set<nat>, p: nat)
    requires p in c.plans
    ensures forall id | id != c.plans[p].roomType ::
              MatchingPlans(c, q, id) - left == MatchingPlans(c, q, id) - (left - {p})
  {
  }

  /** The plans in the given order, priced for the party. */
  function PricesOf(c: Catalog, q: Query, nights: int, list: seq<nat>): (prices: seq<PlanPrice>)
    requires forall i | 0 <= i < |list| :: list[i] in c.plans
    ensures |prices| == |list|
    ensures forall i | 0 <= i < |list| ::
              prices[i] == ComputePrice(list[i], c.plans[list[i]], q.adults, q.children, nights, q.rooms)
  {
    seq(|list|, i requires 0 <= i < |list| && list[i] in c.plans =>
      ComputePrice(list[i], c.plans[list[i]], q.adults, q.children, nights, q.rooms))
  }

  function NightlyTotals(c: Catalog, q: Query, nights: int, ids: set<nat>): map<nat, int>
    requires ids <= c.plans.Keys
  {
    map p | p in ids :: ComputePrice(p, c.plans[p], q.adults, q.children, nights, q.rooms).nightlyTotal
  }

  lemma SortedPricesAreListed(c: Catalog, q: Query, nights: int, offer: RoomOffer, list: seq<nat>)
    requires MatchingPlans(c, q, offer.roomType) != {} && Sorting.Lists(list, MatchingPlans(c, q, offer.roomType))
    requires forall i | 0 <= i < |list| :: list[i] in c.plans
    requires Sorting.Sorted(list, NightlyTotals(c, q, nights, MatchingPlans(c, q, offer.roomType)), true)
    requires offer.ratePlans == PricesOf(c, q, nights, list)
    ensures PlansListed(c, q, nights, offer)
  {
    var ids, prices := MatchingPlans(c, q, offer.roomType), offer.ratePlans;
    Sorting.ListLength(list, ids);
    forall i | 0 <= i < |list|
      ensures prices[i].plan == list[i] && prices[i].plan in ids
    {
      assert list[i] in list;
    }
    forall i, j | 0 <= i < j < |list|
      ensures prices[i].nightlyTotal <= prices[j].nightlyTotal
    {
      assert Sorting.InOrder(NightlyTotals(c, q, nights, ids), true, list[i], list[j]);
    }
    forall p | p in ids
      ensures exists i :: 0 <= i < |prices| && prices[i].plan == p
    {
      var i :| 0 <= i < |list| && list[i] == p;
      assert prices[i].plan == p;
    }
  }

  /** A room type's plans priced for the party and sorted by the nightly total. */
  method PriceRoom(c: Catalog, q: Query, nights: int, id: nat, bestPrice: int, plans: seq<nat>)
    returns (offer: RoomOffer)
    requires Sorting.Lists(plans, MatchingPlans(c, q, id)) && MatchingPlans(c, q, id) != {}
    ensures offer.roomType == id && offer.bestPrice == bestPrice && PlansListed(c, q, nights, offer)
  {
    var ids := set p | p in plans;
    assert ids == MatchingPlans(c, q, id);
    var list := Sorting.SortByKey(ids, NightlyTotals(c, q, nights, ids), true);
    assert forall i | 0 <= i < |list| :: list[i] in list && list[i] in ids;
    offer := RoomOffer(id, bestPrice, PricesOf(c, q, nights, list));
    SortedPricesAreListed(c, q, nights, offer, list);
  }

  /** The least price amount in a room type's plan list is its best price. */
  lemma BestIsLeastListed(c: Catalog, q: Query, nights: int, offer: RoomOffer, price: int)
    requires PlansListed(c, q, nights, offer) && IsBestPrice(c, q, offer.roomType, price)
    ensures forall p | 0 <= p < |offer.ratePlans| :: price <= offer.ratePlans[p].priceAmount
    ensures exists p :: 0 <= p < |offer.ratePlans| && price == offer.ratePlans[p].priceAmount
  {
  }

  /** The hotel's running minimum over best prices is the minimum over all its listed plans. */
  lemma RunningMinIsMinOverPlans(c: Catalog, q: Query, nights: int, best: map<nat, int>, eligible: set<nat>,
                                 g: Group, h: HotelOffer)
    requires GroupOk(c, best, eligible, g) && Priced(c, q, best)
    requires h.minPrice == g.minPrice && |h.rooms| == |g.rooms|
    requires forall r | 0 <= r < |g.rooms| :: h.rooms[r].roomType == g.rooms[r] && PlansListed(c, q, nights, h.rooms[r])
    ensures MinOverPlans(h)
  {
    forall r, p | 0 <= r < |h.rooms| && 0 <= p < |h.rooms[r].ratePlans|
      ensures h.minPrice.value <= h.rooms[r].ratePlans[p].priceAmount
    {
      assert g.rooms[r] in g.rooms;
      BestIsLeastListed(c, q, nights, h.rooms[r], best[g.rooms[r]]);
    }
    var id :| id in g.rooms && best[id] == g.minPrice.value;
    var r :| 0 <= r < |g.rooms| && g.rooms[r] == id;
    BestIsLeastListed(c, q, nights, h.rooms[r], best[id]);
  }

  /** A hotel's offer made from its entry in the hotel map. */
  ghost predicate OfferMatches(c: Catalog, q: Query, nights: int, best: map<nat, int>, g: Group, h: HotelOffer) {
    && h.hotel == g.hotel && h.minPrice == g.minPrice && HotelCorrect(c, q, nights, h)
    && SameRooms(best, g, h)
  }

  /** The room types of the entry, in its order, with their best prices. */
  ghost predicate SameRooms(best: map<nat, int>, g: Group, h: HotelOffer) {
    && |h.rooms| == |g.rooms|
    && forall r | 0 <= r < |g.rooms| ::
         h.rooms[r].roomType == g.rooms[r] && g.rooms[r] in best && h.rooms[r].bestPrice == best[g.rooms[r]]
  }

  /** Attaches the plan lists to one hotel's room types. */
  method OfferHotel(c: Catalog, q: Query, nights: int, best: map<nat, int>, g: Group, eligible: set<nat>,
                    rpGroup: map<nat, seq<nat>>)
    returns (h: HotelOffer)
    requires GroupOk(c, best, eligible, g) && Priced(c, q, best) && Sorting.Sorted(g.rooms, best, q.ascending)
    requires forall id | id in eligible :: Eligible(c, q, id) && MatchingPlans(c, q, id) != {} && id in rpGroup
    requires forall id | id in rpGroup :: Sorting.Lists(rpGroup[id], MatchingPlans(c, q, id))
    ensures OfferMatches(c, q, nights, best, g, h)
  {
    var rooms: seq<RoomOffer> := [];
    for r := 0 to |g.rooms|
      invariant |rooms| == r
      invariant forall i | 0 <= i < r ::
                  && rooms[i].roomType == g.rooms[i] && g.rooms[i] in best && rooms[i].bestPrice == best[g.rooms[i]]
                  && PlansListed(c, q, nights, rooms[i])
    {
      var id := g.rooms[r];
      assert id in g.rooms;
      var offer := PriceRoom(c, q, nights, id, best[id], rpGroup[id]);
      rooms := rooms + [offer];
    }
    h := HotelOffer(g.hotel, g.minPrice, rooms);
    RunningMinIsMinOverPlans(c, q, nights, best, eligible, g, h);
    OfferIsCorrect(c, q, nights, best, eligible, g, h);
  }

  lemma OfferIsCorrect(c: Catalog, q: Query, nights: int, best: map<nat, int>, eligible: set<nat>, g: Group,
                       h: HotelOffer)
    requires GroupOk(c, best, eligible, g) && Priced(c, q, best) && Sorting.Sorted(g.rooms, best, q.ascending)
    requires forall id | id in eligible :: Eligible(c, q, id)
    requires h.hotel == g.hotel && MinOverPlans(h) && SameRooms(best, g, h)
    requires forall r | 0 <= r < |h.rooms| :: PlansListed(c, q, nights, h.rooms[r])
    ensures HotelCorrect(c, q, nights, h)
  {
    forall r | 0 <= r < |h.rooms|
      ensures Eligible(c, q, h.rooms[r].roomType) && c.roomTypes[h.rooms[r].roomType].hotel == h.hotel
      ensures IsBestPrice(c, q, h.rooms[r].roomType, h.rooms[r].bestPrice)
    {
      assert g.rooms[r] in g.rooms;
    }
    forall r, r' | 0 <= r < r' < |h.rooms|
      ensures Sorting.NotAfter(q.ascending, h.rooms[r].bestPrice, h.rooms[r'].bestPrice)
    {
      assert Sorting.InOrder(best, q.ascending, g.rooms[r], g.rooms[r']);
    }
  }

  lemma AllListed(best: map<nat, int>, groups: seq<Group>, hotels: seq<HotelOffer>, id: nat)
    requires |hotels| == |groups| && InSome(groups, id)
    requires forall i | 0 <= i < |groups| :: SameRooms(best, groups[i], hotels[i])
    ensures ListedSomewhere(hotels, id)
  {
  }

  lemma OfferedIsCorrect(c: Catalog, q: Query, nights: int, best: map<nat, int>, eligible: set<nat>,
                         groups: seq<Group>, hotels: seq<HotelOffer>)
    requires Grouped(c, best, eligible, groups) && InPriceOrder(groups, best, q.ascending)
    requires forall id :: Eligible(c, q, id) ==> id in eligible
    requires |hotels| == |groups|
    requires forall i | 0 <= i < |hotels| :: OfferMatches(c, q, nights, best, groups[i], hotels[i])
    ensures Correct(c, q, nights, hotels)
  {
    forall i | 0 <= i < |hotels|
      ensures hotels[i].hotel == groups[i].hotel && hotels[i].minPrice == groups[i].minPrice
      ensures HotelCorrect(c, q, nights, hotels[i])
      ensures SameRooms(best, groups[i], hotels[i])
    {
      assert OfferMatches(c, q, nights, best, groups[i], hotels[i]);
    }
    if q.ascending { MinimaAscend(c, best, eligible, groups); }
    forall id | Eligible(c, q, id)
      ensures ListedSomewhere(hotels, id)
    {
      AllListed(best, groups, hotels, id);
    }
  }

  lemma OneMoreOffer(c: Catalog, q: Query, nights: int, best: map<nat, int>, groups: seq<Group>,
                     hotels: seq<HotelOffer>, h: HotelOffer)
    requires |hotels| < |groups| && OfferMatches(c, q, nights, best, groups[|hotels|], h)
    requires forall j | 0 <= j < |hotels| :: OfferMatches(c, q, nights, best, groups[j], hotels[j])
    ensures forall j | 0 <= j < |hotels + [h]| :: OfferMatches(c, q, nights, best, groups[j], (hotels + [h])[j])
  {
    forall j | 0 <= j < |hotels + [h]|
      ensures OfferMatches(c, q, nights, best, groups[j], (hotels + [h])[j])
    {
      assert (hotels + [h])[j] == if j < |hotels| then hotels[j] else h;
    }
  }

  /** Attaches the plan lists hotel by hotel, in the order of the map. */
  method OfferAll(c: Catalog, q: Query, nights: int, best: map<nat, int>, groups: seq<Group>, eligible: set<nat>,
                  rpGroup: map<nat, seq<nat>>)
    returns (hotels: seq<HotelOffer>)
    requires forall i | 0 <= i < |groups| ::
               GroupOk(c, best, eligible, groups[i]) && Sorting.Sorted(groups[i].rooms, best, q.ascending)
    requires Priced(c, q, best)
    requires forall id | id in eligible :: Eligible(c, q, id) && MatchingPlans(c, q, id) != {} && id in rpGroup
    requires forall id | id in rpGroup :: Sorting.Lists(rpGroup[id], MatchingPlans(c, q, id))
    ensures |hotels| == |groups|
    ensures forall i | 0 <= i < |hotels| :: OfferMatches(c, q, nights, best, groups[i], hotels[i])
  {
    hotels := [];
    for i := 0 to |groups|
      invariant |hotels| == i
      invariant forall j | 0 <= j < i :: OfferMatches(c, q, nights, best, groups[j], hotels[j])
    {
      var h := OfferHotel(c, q, nights, best, groups[i], eligible, rpGroup);
      OneMoreOffer(c, q, nights, best, groups, hotels, h);
      hotels := hotels + [h];
    }
  }

  /** A search over readable dates. */
  method SearchNightsOf(c: Catalog, q: Query, nights: int) returns (hotels: seq<HotelOffer>)
    requires ParseIso(q.checkIn).Some? && ParseIso(q.checkOut).Some?
    ensures Correct(c, q, nights, hotels)
  {
    var list, best := QueryRoomTypes(c, q);
    var groups, eligible := GroupEligible(c, q, list, best, ParseIso(q.checkIn).value, ParseIso(q.checkOut).value);
    assert forall id :: id in eligible <==> Eligible(c, q, id);
    var rpGroup := LoadRatePlans(c, q, eligible);
    hotels := OfferAll(c, q, nights, best, groups, eligible, rpGroup);
    OfferedIsCorrect(c, q, nights, best, eligible, groups, hotels);
  }

  /** A search result for the days the dates denote. */
  ghost predicate CorrectStay(c: Catalog, q: Query, hotels: seq<HotelOffer>) {
    && ParseIso(q.checkIn).Some? && ParseIso(q.checkOut).Some?
    && exists nights ::
         nights == ParseIso(q.checkOut).value - ParseIso(q.checkIn).value && Correct(c, q, nights, hotels)
  }

  /** The night count of a search: NaN if a date cannot be read. */
  method CountNights(checkIn: string, checkOut: string) returns (nights: JsNumber)
    ensures nights.NaN? <==> ParseIso(checkIn).None? || ParseIso(checkOut).None?
    ensures nights.Num? ==> nights.n == ParseIso(checkOut).value - ParseIso(checkIn).value
  {
    nights := SearchNights(checkIn, checkOut);
    if ParseIso(checkIn).Some? && ParseIso(checkOut).Some? {
      CalendarLaws.NightCountsAgree(checkIn, checkOut);
    }
  }

  /**
   SearchService.search. Dates that cannot be read make the night count NaN, which is not
   zero or less and equals no number of days: nothing is listed.
   */
  method Search(c: Catalog, q: Query) returns (r: Result<seq<HotelOffer>, SearchError>)
    ensures r.Failure? <==>
            ParseIso(q.checkIn).Some? && ParseIso(q.checkOut).Some?
            && ParseIso(q.checkOut).value <= ParseIso(q.checkIn).value
    ensures ParseIso(q.checkIn).None? || ParseIso(q.checkOut).None? ==> r == Success([])
    ensures r.Success? && ParseIso(q.checkIn).Some? && ParseIso(q.checkOut).Some? ==> CorrectStay(c, q, r.value)
  {
    var nights := CountNights(q.checkIn, q.checkOut);
    if nights.NaN? { return Success([]); }
    if nights.n <= 0 { return Failure(CheckoutNotAfterCheckin); }
    var hotels := SearchNightsOf(c, q, nights.n);
    return Success(hotels);
  }
}
