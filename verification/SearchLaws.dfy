/** What a search result promises to a guest who goes on to book. */
module SearchLaws {
  import opened Outcomes
  import opened Calendar
  import opened Ledger
  import opened Pricing
  import opened Search
  import CalendarLaws
  import Sorting
  import LedgerLaws
  import HotelState
  import HotelInvariants

  function HoldOp(c: Catalog, id: nat, checkIn: Day, checkOut: Day, rooms: int): RangeOp
    requires id in c.roomTypes
  {
    RangeOp(Hold, c.roomTypes[id].hotel, id, checkIn, checkOut, rooms)
  }

  /** Each inventory row of the room type carries the room type's hotel. */
  ghost predicate RowsCarryHotel(c: Catalog, id: nat)
    requires id in c.roomTypes
  {
    forall k | k in c.rows && k.roomType == id :: c.rows[k].hotel == c.roomTypes[id].hotel
  }

  /** As many open rows as nights means an open row on every night. */
  lemma OpenRowsComplete(c: Catalog, id: nat, checkIn: Day, checkOut: Day, rooms: int)
    requires id in c.roomTypes && checkIn < checkOut
    ensures |OpenRows(c.rows, id, checkIn, checkOut)| == checkOut - checkIn <==>
            forall k | Covers(HoldOp(c, id, checkIn, checkOut, rooms), k) :: k in c.rows && !c.rows[k].stopSell
  {
    var op, open := HoldOp(c, id, checkIn, checkOut, rooms), OpenRows(c.rows, id, checkIn, checkOut);
    assert forall k | k in open :: Covers(op, k);
    LedgerLaws.FullCountIffComplete(op, open);
    assert forall k | Covers(op, k) :: k in open <==> k in c.rows && !c.rows[k].stopSell;
  }

  /** The aggregate test, night by night. */
  lemma BookableIff(c: Catalog, id: nat, checkIn: Day, checkOut: Day, rooms: int)
    requires id in c.roomTypes && checkIn < checkOut
    ensures Bookable(c.rows, id, checkIn, checkOut, rooms) <==>
            forall k | Covers(HoldOp(c, id, checkIn, checkOut, rooms), k) ::
              k in c.rows && !c.rows[k].stopSell && c.rows[k].available - c.rows[k].blocked - c.rows[k].sold >= rooms
  {
    OpenRowsComplete(c, id, checkIn, checkOut, rooms);
    var op, open := HoldOp(c, id, checkIn, checkOut, rooms), OpenRows(c.rows, id, checkIn, checkOut);
    assert forall k | Covers(op, k) :: k in open <==> k in c.rows && !c.rows[k].stopSell;
    assert forall k | k in open :: Covers(op, k);
    if forall k | Covers(op, k) :: k in c.rows && !c.rows[k].stopSell && Free(c.rows[k]) >= rooms {
      assert Covers(op, Key(id, checkIn));
      assert Key(id, checkIn) in open;
    }
  }

  /** Whatever the aggregate lists can be held, on the same table, for the same stay and number of rooms. */
  lemma BookableCanBeHeld(c: Catalog, id: nat, checkIn: Day, checkOut: Day, rooms: int)
    requires LedgerInv(c.rows) && id in c.roomTypes && RowsCarryHotel(c, id)
    requires checkIn < checkOut && rooms > 0
    requires Bookable(c.rows, id, checkIn, checkOut, rooms)
    ensures Accepts(c.rows, HoldOp(c, id, checkIn, checkOut, rooms))
  {
    BookableIff(c, id, checkIn, checkOut, rooms);
    LedgerLaws.HoldAcceptedIff(c.rows, HoldOp(c, id, checkIn, checkOut, rooms));
    assert forall k | k in c.rows :: RowInv(c.rows[k]);
  }

  /**
   The converse holds exactly when every night also has room for what is blocked and sold,
   because search subtracts those counters from rooms that already exclude them.
   */
  lemma HoldableIsListedIff(c: Catalog, id: nat, checkIn: Day, checkOut: Day, rooms: int)
    requires LedgerInv(c.rows) && id in c.roomTypes && RowsCarryHotel(c, id)
    requires checkIn < checkOut && rooms > 0
    requires Accepts(c.rows, HoldOp(c, id, checkIn, checkOut, rooms))
    ensures Bookable(c.rows, id, checkIn, checkOut, rooms) <==>
            forall k | Covers(HoldOp(c, id, checkIn, checkOut, rooms), k) && k in c.rows ::
              rooms + c.rows[k].blocked + c.rows[k].sold <= c.rows[k].available
  {
    BookableIff(c, id, checkIn, checkOut, rooms);
  }

  /** On nights with nothing blocked or sold the two tests are the same test. */
  lemma UntouchedNightsAgree(c: Catalog, id: nat, checkIn: Day, checkOut: Day, rooms: int)
    requires LedgerInv(c.rows) && id in c.roomTypes && RowsCarryHotel(c, id)
    requires checkIn < checkOut && rooms > 0
    requires forall k | k in c.rows && Covers(HoldOp(c, id, checkIn, checkOut, rooms), k) ::
               c.rows[k].blocked == 0 && c.rows[k].sold == 0
    ensures Bookable(c.rows, id, checkIn, checkOut, rooms) <==> Accepts(c.rows, HoldOp(c, id, checkIn, checkOut, rooms))
  {
    if Bookable(c.rows, id, checkIn, checkOut, rooms) {
      BookableCanBeHeld(c, id, checkIn, checkOut, rooms);
    }
    if Accepts(c.rows, HoldOp(c, id, checkIn, checkOut, rooms)) {
      HoldableIsListedIff(c, id, checkIn, checkOut, rooms);
    }
  }

  /** A correct result lists a room type exactly when it is eligible. */
  lemma ListedIffEligible(c: Catalog, q: Query, nights: int, hotels: seq<HotelOffer>, id: nat)
    requires Correct(c, q, nights, hotels)
    ensures ListedSomewhere(hotels, id) <==> Eligible(c, q, id)
  {
    if ListedSomewhere(hotels, id) {
      var i :| 0 <= i < |hotels| && ListsRoom(hotels[i], id);
      assert HotelCorrect(c, q, nights, hotels[i]);
    }
  }

  /** A hotel in the asked place: the hotel itself if one is named, else every named administrative unit. */
  lemma PlaceIff(q: Query, id: nat, h: Hotel)
    ensures LocationMatches(q, id, h) <==>
            if q.hotelId.Some? && q.hotelId.value != 0 then id == q.hotelId.value
            else
              && (q.provinceId.Some? && q.provinceId.value != 0 ==> h.province == q.provinceId.value)
              && (q.districtId.Some? && q.districtId.value != 0 ==> h.district == q.districtId.value)
              && (q.wardId.Some? && q.wardId.value != 0 ==> h.ward == q.wardId.value)
  {
  }

  /**
   What a result lists, field by field: the active room types of asked place and stars that take
   the party and have all the asked amenities, with a plan in the price bounds (that needs no
   prepayment if so asked), and on sale on every night of the stay with the rooms left over after
   blocked and sold.
   */
  lemma ListedIff(c: Catalog, q: Query, nights: int, hotels: seq<HotelOffer>, id: nat, checkIn: Day, checkOut: Day)
    requires Correct(c, q, nights, hotels) && id in c.roomTypes && c.roomTypes[id].hotel in c.hotels
    requires ParseIso(q.checkIn) == Some(checkIn) && ParseIso(q.checkOut) == Some(checkOut) && checkIn < checkOut
    ensures var rt, h := c.roomTypes[id], c.hotels[c.roomTypes[id].hotel];
            ListedSomewhere(hotels, id) <==>
            && rt.active && q.adults <= rt.maxAdults && q.children <= rt.maxChildren
            && q.adults + q.children <= rt.maxOccupancy
            && LocationMatches(q, rt.hotel, h)
            && (q.minStar.Some? ==> h.star.Some? && q.minStar.value <= h.star.value)
            && (q.maxStar.Some? ==> h.star.Some? && h.star.value <= q.maxStar.value)
            && HasAmenities(h.amenities, q.hotelAmenityIds) && HasAmenities(rt.amenities, q.roomAmenityIds)
            && (exists p :: p in c.plans && c.plans[p].roomType == id && Wanted(q, c.plans[p].price,
                                                                                c.plans[p].prepaymentRequired))
            && forall k: Key | k.roomType == id && checkIn <= k.night < checkOut ::
                 && k in c.rows && !c.rows[k].stopSell
                 && q.rooms <= c.rows[k].available - c.rows[k].blocked - c.rows[k].sold
  {
    ListedIffEligible(c, q, nights, hotels, id);
    PlansIff(c, q, id);
    BookableIff(c, id, checkIn, checkOut, q.rooms);
    assert forall k: Key :: Covers(HoldOp(c, id, checkIn, checkOut, q.rooms), k) <==>
                            k.roomType == id && checkIn <= k.night < checkOut;
  }

  /** The price lies within the bounds given, and no prepayment is needed if only paying at the hotel will do. */
  predicate Wanted(q: Query, price: int, prepaymentRequired: bool) {
    && (q.minPrice.Some? ==> q.minPrice.value <= price)
    && (q.maxPrice.Some? ==> price <= q.maxPrice.value)
    && (q.payAtHotelOnly ==> !prepaymentRequired)
  }

  lemma PlansIff(c: Catalog, q: Query, id: nat)
    ensures MatchingPlans(c, q, id) != {} <==>
            exists p :: p in c.plans && c.plans[p].roomType == id
                        && Wanted(q, c.plans[p].price, c.plans[p].prepaymentRequired)
    ensures forall p :: p in MatchingPlans(c, q, id) <==>
                        p in c.plans && c.plans[p].roomType == id
                        && Wanted(q, c.plans[p].price, c.plans[p].prepaymentRequired)
  {
    if p :| p in c.plans && c.plans[p].roomType == id && Wanted(q, c.plans[p].price, c.plans[p].prepaymentRequired) {
      assert p in MatchingPlans(c, q, id);
    }
    if MatchingPlans(c, q, id) != {} {
      var p :| p in MatchingPlans(c, q, id);
    }
  }

  lemma RoomIsListed(c: Catalog, q: Query, nights: int, hotels: seq<HotelOffer>, i: nat, r: nat)
    requires Correct(c, q, nights, hotels) && i < |hotels| && r < |hotels[i].rooms|
    ensures PlansListed(c, q, nights, hotels[i].rooms[r])
    ensures IsBestPrice(c, q, hotels[i].rooms[r].roomType, hotels[i].rooms[r].bestPrice)
  {
    assert HotelCorrect(c, q, nights, hotels[i]);
  }

  lemma PlansOfOfferIff(c: Catalog, q: Query, nights: int, offer: RoomOffer, plan: nat)
    requires PlansListed(c, q, nights, offer)
    ensures (exists p :: 0 <= p < |offer.ratePlans| && offer.ratePlans[p].plan == plan) <==>
            && plan in c.plans && c.plans[plan].roomType == offer.roomType
            && Wanted(q, c.plans[plan].price, c.plans[plan].prepaymentRequired)
  {
    PlansIff(c, q, offer.roomType);
  }

  /** Under a listed room type stand exactly its wanted plans. */
  lemma ListedPlansIff(c: Catalog, q: Query, nights: int, hotels: seq<HotelOffer>, i: nat, r: nat, plan: nat)
    requires Correct(c, q, nights, hotels) && i < |hotels| && r < |hotels[i].rooms|
    ensures (exists p :: 0 <= p < |hotels[i].rooms[r].ratePlans| && hotels[i].rooms[r].ratePlans[p].plan == plan) <==>
            && plan in c.plans && c.plans[plan].roomType == hotels[i].rooms[r].roomType
            && Wanted(q, c.plans[plan].price, c.plans[plan].prepaymentRequired)
  {
    RoomIsListed(c, q, nights, hotels, i, r);
    PlansOfOfferIff(c, q, nights, hotels[i].rooms[r], plan);
  }

  lemma AmountsOfOffer(c: Catalog, q: Query, nights: int, offer: RoomOffer, p: nat)
    requires PlansListed(c, q, nights, offer) && p < |offer.ratePlans|
    ensures offer.ratePlans[p].plan in c.plans
    ensures var x := offer.ratePlans[p];
            var rp := c.plans[x.plan];
            && x.priceAmount == rp.price && x.prepaymentRequired == rp.prepaymentRequired
            && x.stayTotal == x.nightlyTotal * nights * q.rooms
            && (rp.baseOccupancy >= 0 ==>
                  x.nightlyTotal == rp.price + ExtraAdults(q.adults, rp.baseOccupancy) * rp.adultFee
                                    + ExtraChildren(q.adults, q.children, rp.baseOccupancy) * rp.childFee)
  {
    var x := offer.ratePlans[p];
    assert x.plan in MatchingPlans(c, q, offer.roomType);
    if c.plans[x.plan].baseOccupancy >= 0 {
      NightlyIs(x.plan, c.plans[x.plan], q.adults, q.children, nights, q.rooms);
    }
  }

  /**
   Each listed plan carries its own price and prepayment; its night costs that price and an extra
   fee for every guest above the base, adults seated first; its stay costs that for every night
   and every room.
   */
  lemma ListedAmounts(c: Catalog, q: Query, nights: int, hotels: seq<HotelOffer>, i: nat, r: nat, p: nat)
    requires Correct(c, q, nights, hotels) && i < |hotels| && r < |hotels[i].rooms|
    requires p < |hotels[i].rooms[r].ratePlans|
    ensures hotels[i].rooms[r].ratePlans[p].plan in c.plans
    ensures var x := hotels[i].rooms[r].ratePlans[p];
            var rp := c.plans[x.plan];
            && x.priceAmount == rp.price && x.prepaymentRequired == rp.prepaymentRequired
            && x.stayTotal == x.nightlyTotal * nights * q.rooms
            && (rp.baseOccupancy >= 0 ==>
                  x.nightlyTotal == rp.price + ExtraAdults(q.adults, rp.baseOccupancy) * rp.adultFee
                                    + ExtraChildren(q.adults, q.children, rp.baseOccupancy) * rp.childFee)
  {
    RoomIsListed(c, q, nights, hotels, i, r);
    AmountsOfOffer(c, q, nights, hotels[i].rooms[r], p);
  }

  /** A room type's best price is the least price among the plans listed under it. */
  lemma BestPriceIsListed(c: Catalog, q: Query, nights: int, h: HotelOffer, r: nat)
    requires HotelCorrect(c, q, nights, h) && r < |h.rooms|
    ensures forall p | 0 <= p < |h.rooms[r].ratePlans| :: h.rooms[r].bestPrice <= h.rooms[r].ratePlans[p].priceAmount
    ensures exists p :: 0 <= p < |h.rooms[r].ratePlans| && h.rooms[r].bestPrice == h.rooms[r].ratePlans[p].priceAmount
  {
    BestIsLeastListed(c, q, nights, h.rooms[r], h.rooms[r].bestPrice);
  }

  /** The plans under a room type stand cheapest night first. */
  lemma PlansRise(c: Catalog, q: Query, nights: int, hotels: seq<HotelOffer>, i: nat, r: nat, p: nat, o: nat)
    requires Correct(c, q, nights, hotels) && i < |hotels| && r < |hotels[i].rooms|
    requires p < o < |hotels[i].rooms[r].ratePlans|
    ensures hotels[i].rooms[r].ratePlans[p].nightlyTotal <= hotels[i].rooms[r].ratePlans[o].nightlyTotal
    ensures hotels[i].rooms[r].ratePlans[p].plan != hotels[i].rooms[r].ratePlans[o].plan
  {
    RoomIsListed(c, q, nights, hotels, i, r);
  }

  /** A hotel's price is the least price among all the plans listed for it. */
  lemma HotelPriceIsListed(c: Catalog, q: Query, nights: int, h: HotelOffer)
    requires HotelCorrect(c, q, nights, h)
    ensures h.minPrice.Some?
    ensures forall r, p | 0 <= r < |h.rooms| && 0 <= p < |h.rooms[r].ratePlans| ::
              h.minPrice.value <= h.rooms[r].ratePlans[p].priceAmount
    ensures exists r, p :: 0 <= r < |h.rooms| && 0 <= p < |h.rooms[r].ratePlans|
                           && h.minPrice.value == h.rooms[r].ratePlans[p].priceAmount
  {
  }

  /** With rising prices asked for, hotels stand in the order of their prices. */
  lemma HotelPricesRise(c: Catalog, q: Query, nights: int, hotels: seq<HotelOffer>, i: nat, j: nat)
    requires Correct(c, q, nights, hotels) && q.ascending && i < j < |hotels|
    ensures hotels[i].minPrice.Some? && hotels[j].minPrice.Some?
    ensures hotels[i].minPrice.value <= hotels[j].minPrice.value
  {
    assert PricesAscend(hotels);
  }

  /** Hotels follow the best price of their first room type, rising or falling as asked. */
  lemma HotelsFollowPrice(c: Catalog, q: Query, nights: int, hotels: seq<HotelOffer>, i: nat, j: nat)
    requires Correct(c, q, nights, hotels) && i < j < |hotels|
    ensures hotels[i].rooms != [] && hotels[j].rooms != []
    ensures if q.ascending then hotels[i].rooms[0].bestPrice <= hotels[j].rooms[0].bestPrice
            else hotels[i].rooms[0].bestPrice >= hotels[j].rooms[0].bestPrice
  {
    assert HotelsInOrder(q, hotels);
  }

  lemma RoomsOfHotelFollowPrice(c: Catalog, q: Query, nights: int, h: HotelOffer, r: nat, t: nat)
    requires HotelCorrect(c, q, nights, h) && r < t < |h.rooms|
    ensures if q.ascending then h.rooms[r].bestPrice <= h.rooms[t].bestPrice
            else h.rooms[r].bestPrice >= h.rooms[t].bestPrice
  {
    assert Sorting.NotAfter(q.ascending, h.rooms[r].bestPrice, h.rooms[t].bestPrice);
  }

  /** So do the room types of each hotel. */
  lemma RoomsFollowPrice(c: Catalog, q: Query, nights: int, hotels: seq<HotelOffer>, i: nat, r: nat, t: nat)
    requires Correct(c, q, nights, hotels) && i < |hotels| && r < t < |hotels[i].rooms|
    ensures if q.ascending then hotels[i].rooms[r].bestPrice <= hotels[i].rooms[t].bestPrice
            else hotels[i].rooms[r].bestPrice >= hotels[i].rooms[t].bestPrice
  {
    RoomsOfHotelFollowPrice(c, q, nights, hotels[i], r, t);
  }

  /**
   A candidate room type that can be held for the searched stay is in the result exactly when
   every night also has room for what is blocked and sold; otherwise search hides it.
   */
  lemma HoldableCandidateListedIff(c: Catalog, q: Query, nights: int, hotels: seq<HotelOffer>, id: nat,
                                   checkIn: Day, checkOut: Day)
    requires LedgerInv(c.rows) && Candidate(c, q, id) && RowsCarryHotel(c, id) && q.rooms > 0
    requires ParseIso(q.checkIn) == Some(checkIn) && ParseIso(q.checkOut) == Some(checkOut) && checkIn < checkOut
    requires Accepts(c.rows, HoldOp(c, id, checkIn, checkOut, q.rooms))
    requires Correct(c, q, nights, hotels)
    ensures ListedSomewhere(hotels, id) <==>
            forall k | Covers(HoldOp(c, id, checkIn, checkOut, q.rooms), k) && k in c.rows ::
              q.rooms + c.rows[k].blocked + c.rows[k].sold <= c.rows[k].available
  {
    ListedIffEligible(c, q, nights, hotels, id);
    HoldableIsListedIff(c, id, checkIn, checkOut, q.rooms);
  }

  /** One hotel, one room type, one plan, and one night of three rooms with one of them sold. */
  function OneSold(d: Day): Catalog {
    Catalog(map[1 := Hotel(None, 0, 0, 0, {})], map[7 := RoomType(1, true, 2, 0, 2, {})],
            map[3 := RatePlan(7, 100, 2, 0, 0, false)], map[Key(7, d) := Row(1, 3, 2, 0, 1, false)])
  }

  /** Two adults asking for some rooms, with no other wish. */
  function Ask(checkIn: string, checkOut: string, rooms: int): Query {
    Query(checkIn, checkOut, rooms, 2, 0, None, None, None, None, [], [], None, None, None, None, false, true)
  }

  lemma OneSoldCandidate(d: Day, q: Query)
    requires q == Ask(q.checkIn, q.checkOut, q.rooms)
    ensures Candidate(OneSold(d), q, 7)
    ensures LedgerInv(OneSold(d).rows) && RowsCarryHotel(OneSold(d), 7)
  {
    assert 3 in MatchingPlans(OneSold(d), q, 7);
  }

  lemma SingleNight(c: Catalog, id: nat, d: Day, last: Day, rooms: int)
    requires last == d + 1 && rooms > 0 && LedgerInv(c.rows) && id in c.roomTypes && RowsCarryHotel(c, id)
    requires Key(id, d) in c.rows && !c.rows[Key(id, d)].stopSell
    ensures Accepts(c.rows, HoldOp(c, id, d, last, rooms)) <==> rooms <= c.rows[Key(id, d)].available
    ensures Bookable(c.rows, id, d, last, rooms) <==> rooms <= Free(c.rows[Key(id, d)])
  {
    var op := HoldOp(c, id, d, last, rooms);
    assert forall k :: Covers(op, k) <==> k == Key(id, d);
    BookableIff(c, id, d, last, rooms);
    LedgerLaws.HoldAcceptedIff(c.rows, op);
  }

  /** With one of three rooms sold: one room is listed; two can be held and are not listed. */
  ghost predicate TwoAreHidden(c: Catalog, d: Day, last: Day, one: Query, two: Query)
    requires 7 in c.roomTypes
  {
    && LedgerInv(c.rows) && RowsCarryHotel(c, 7)
    && Eligible(c, one, 7)
    && Candidate(c, two, 7) && Accepts(c.rows, HoldOp(c, 7, d, last, 2)) && !Eligible(c, two, 7)
  }

  lemma TwoHidden(d: Day, last: Day, one: Query, two: Query)
    requires last == d + 1 && one == Ask(one.checkIn, one.checkOut, 1) && two == Ask(one.checkIn, one.checkOut, 2)
    requires ParseIso(one.checkIn) == Some(d) && ParseIso(one.checkOut) == Some(last)
    ensures TwoAreHidden(OneSold(d), d, last, one, two)
  {
    OneSoldCandidate(d, one);
    OneSoldCandidate(d, two);
    SingleNight(OneSold(d), 7, d, last, 1);
    SingleNight(OneSold(d), 7, d, last, 2);
  }

  /** On any night, the same room type is found for one room, and hidden for two that can be held. */
  lemma SearchCanHideRooms(d: Day, last: Day)
    requires last == d + 1
    ensures TwoAreHidden(OneSold(d), d, last, Ask(Iso(d), Iso(last), 1), Ask(Iso(d), Iso(last), 2))
  {
    CalendarLaws.ParsePrinted(d);
    CalendarLaws.ParsePrinted(last);
    TwoHidden(d, last, Ask(Iso(d), Iso(last), 1), Ask(Iso(d), Iso(last), 2));
  }

  /** In every reachable state, a listed room type can be held for the very stay that was searched. */
  lemma ListedCanBeHeld(start: HotelState.State, es: seq<HotelState.Event>, c: Catalog, q: Query, nights: int,
                        hotels: seq<HotelOffer>, i: nat, r: nat)
    requires HotelState.Initial(start) && HotelState.PossibleRun(start, es)
    requires c.rows == HotelState.Run(start, es).rows
    requires Correct(c, q, nights, hotels) && SearchNights(q.checkIn, q.checkOut) == Num(nights) && nights > 0
    requires q.rooms > 0 && i < |hotels| && r < |hotels[i].rooms|
    requires hotels[i].rooms[r].roomType in c.roomTypes ==> RowsCarryHotel(c, hotels[i].rooms[r].roomType)
    ensures ValidRange(q.checkIn, q.checkOut)
    ensures Accepts(c.rows, RangeOp(Hold, hotels[i].hotel, hotels[i].rooms[r].roomType,
                                    ParseIso(q.checkIn).value, ParseIso(q.checkOut).value, q.rooms))
  {
    HotelInvariants.InitialInv(start);
    HotelInvariants.RunKeepsInv(start, es);
    var id := hotels[i].rooms[r].roomType;
    assert HotelCorrect(c, q, nights, hotels[i]);
    assert Eligible(c, q, id) && c.roomTypes[id].hotel == hotels[i].hotel;
    PositiveNightsAreARange(q, nights);
    BookableCanBeHeld(c, id, ParseIso(q.checkIn).value, ParseIso(q.checkOut).value, q.rooms);
  }

  lemma PositiveNightsAreARange(q: Query, nights: int)
    requires SearchNights(q.checkIn, q.checkOut) == Num(nights) && nights > 0
    ensures ValidRange(q.checkIn, q.checkOut)
  {
    CalendarLaws.NightCountsAgree(q.checkIn, q.checkOut);
  }

  /** Each eligible room type is listed in one place only. */
  lemma ListedOnce(c: Catalog, q: Query, nights: int, hotels: seq<HotelOffer>, i: nat, r: nat, i': nat, r': nat)
    requires Correct(c, q, nights, hotels)
    requires i < |hotels| && r < |hotels[i].rooms| && i' < |hotels| && r' < |hotels[i'].rooms|
    requires hotels[i].rooms[r].roomType == hotels[i'].rooms[r'].roomType
    ensures i == i' && r == r'
  {
    assert HotelCorrect(c, q, nights, hotels[i]) && HotelCorrect(c, q, nights, hotels[i']);
  }

  /** The amenity count test means: every asked amenity is there, and none is asked for twice. */
  lemma AmenityCountIff(have: set<int>, asked: seq<int>)
    ensures HasAmenities(have, asked) <==>
            (forall a | a in asked :: a in have) && (forall i, j | 0 <= i < j < |asked| :: asked[i] != asked[j])
  {
    var wanted := Members(asked);
    DistinctIff(asked);
    if |have * wanted| == |asked| {
      assert have * wanted <= wanted;
      SubsetNoLarger(have * wanted, wanted);
      assert |wanted| == |asked|;
      assert |wanted - have * wanted| == |wanted| - |have * wanted|;
      assert wanted - have * wanted == {};
      forall a | a in asked
        ensures a in have
      {
        assert a in wanted;
      }
    }
    if forall a | a in asked :: a in have {
      assert have * wanted == wanted;
    }
  }

  lemma SubsetNoLarger<T>(a: set<T>, b: set<T>)
    requires a <= b
    ensures |a| <= |b|
  {
    assert |b - a| == |b| - |a|;
  }

  /** A list has as many different members as its length exactly when it repeats none; never more. */
  lemma {:induction false} DistinctIff(s: seq<int>)
    ensures |Members(s)| <= |s|
    ensures |Members(s)| == |s| <==> forall i, j | 0 <= i < j < |s| :: s[i] != s[j]
  {
    if s != [] {
      var init, last := s[..|s| - 1], s[|s| - 1];
      DistinctIff(init);
      assert s == init + [last];
      var small, all := Members(init), Members(s);
      assert all == small + {last};
      if last in init {
        assert all == small;
        var i :| 0 <= i < |init| && init[i] == last;
        assert s[i] == s[|s| - 1];
      } else {
        assert |all| == |small| + 1;
        assert forall i | 0 <= i < |init| :: s[i] == init[i] && init[i] in init;
      }
    }
  }
}
