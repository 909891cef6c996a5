/** The places collection (models/Place.js): places are addressed by their
    `placeId` string (a unique index), carry a rating summary and two
    denormalised counters, and are listed with filters, a sort choice and
    pagination. */
module PlaceModel {
  import opened Common
  import opened Listing

  /** `ratingSummary`: the average rating, kept in tenths (4.3 is 43), and the
      number of reviews it is taken over. */
  datatype RatingSummary = RatingSummary(avgTenths: int, count: int)

  datatype Place = Place(
    id: Oid,
    placeId: string,
    name: string,
    address: Option<string>,
    district: Option<string>,
    vibe: Option<string>,
    studyAtmosphere: seq<string>,
    wifi: bool,
    outlets: bool,
    food: seq<string>,
    hours: Option<string>,
    tags: seq<string>,
    coords: Option<(real, real)>,
    priceLevel: string,
    ratingSummary: RatingSummary,
    savesCount: int,
    likesCount: int,
    createdAt: int,
    updatedAt: int)

  /** What `createPlace` is given; None (or false) is a field left out. */
  datatype NewPlace = NewPlace(
    placeId: string,
    name: string,
    address: Option<string>,
    district: Option<string>,
    vibe: Option<string>,
    studyAtmosphere: Option<seq<string>>,
    wifi: bool,
    outlets: bool,
    food: Option<seq<string>>,
    hours: Option<string>,
    tags: Option<seq<string>>,
    coords: Option<(real, real)>,
    priceLevel: Option<string>)

  /** The two counters `updatePlaceCounts` is called with. */
  datatype PlaceCounter = LikesCount | SavesCount

  ghost predicate PlacesValid(t: Table<string, Place>) {
    forall k :: k in t.rows ==> t.rows[k].placeId == k && t.rows[k].id.n < t.nextId
  }

  /** The record `createPlace` inserts: no rating yet, both counters 0, and
      the defaults for every field left out (an empty list, false, '$$'). */
  function NewPlaceRecord(id: Oid, p: NewPlace, now: int): (r: Place)
    ensures r.ratingSummary == RatingSummary(0, 0) && r.likesCount == 0 && r.savesCount == 0
    ensures r.placeId == p.placeId && r.wifi == p.wifi && r.outlets == p.outlets
    ensures p.priceLevel.None? ==> r.priceLevel == "$$"
    ensures p.tags.None? ==> r.tags == []
    ensures p.food.None? ==> r.food == []
    ensures p.studyAtmosphere.None? ==> r.studyAtmosphere == []
    ensures p.coords.None? ==> r.coords.None?
  {
    var priceLevel := if p.priceLevel.Some? && p.priceLevel.value != "" then p.priceLevel.value else "$$";
    Place(id, p.placeId, p.name, p.address, p.district, p.vibe, p.studyAtmosphere.GetOr([]), p.wifi, p.outlets,
          p.food.GetOr([]), p.hours, p.tags.GetOr([]), p.coords, priceLevel, RatingSummary(0, 0), 0, 0, now, now)
  }

  /** `createPlace`: `insertOne`, refused by the unique index on placeId. */
  function InsertPlace(t: Table<string, Place>, p: NewPlace, now: int): (Inserted<Place>, Table<string, Place>) {
    if p.placeId in t.rows then (DuplicateKey, t)
    else
      var r := NewPlaceRecord(t.Fresh(), p, now);
      (Inserted(r), Table(t.rows[p.placeId := r], t.nextId + 1))
  }

  /** `updatePlaceRating`: sets the two summary fields (and updatedAt). */
  function SetRating(t: Table<string, Place>, placeId: string, s: RatingSummary, now: int): Table<string, Place> {
    if placeId in t.rows then t.(rows := t.rows[placeId := t.rows[placeId].(ratingSummary := s, updatedAt := now)])
    else t
  }

  function CounterValue(p: Place, c: PlaceCounter): int {
    match c
    case LikesCount => p.likesCount
    case SavesCount => p.savesCount
  }

  /** `updatePlaceCounts`: `$inc` of one counter (and updatedAt). */
  function AddToCounter(t: Table<string, Place>, placeId: string, c: PlaceCounter, increment: int, now: int): Table<string, Place> {
    if placeId in t.rows then
      var p := t.rows[placeId];
      var p' := match c
        case LikesCount => p.(likesCount := p.likesCount + increment, updatedAt := now)
        case SavesCount => p.(savesCount := p.savesCount + increment, updatedAt := now);
      t.(rows := t.rows[placeId := p'])
    else t
  }

  /** The two update paths change nothing but what they name (and updatedAt):
      the summary, or one counter by the increment; other places and the key
      set are untouched, and an unknown placeId changes nothing. */
  lemma {:induction false} PlaceUpdatesTouchOnlyTheirFields(t: Table<string, Place>, placeId: string, s: RatingSummary,
                                                            c: PlaceCounter, increment: int, now: int)
    ensures var t' := SetRating(t, placeId, s, now);
      && t'.rows.Keys == t.rows.Keys && t'.nextId == t.nextId
      && (placeId in t.rows ==> t'.rows[placeId].ratingSummary == s &&
                                t'.rows[placeId].(ratingSummary := t.rows[placeId].ratingSummary, updatedAt := t.rows[placeId].updatedAt) == t.rows[placeId])
      && (forall k :: k in t.rows && k != placeId ==> t'.rows[k] == t.rows[k])
    ensures var t' := AddToCounter(t, placeId, c, increment, now);
      && t'.rows.Keys == t.rows.Keys && t'.nextId == t.nextId
      && (placeId in t.rows ==>
            && CounterValue(t'.rows[placeId], c) == CounterValue(t.rows[placeId], c) + increment
            && t'.rows[placeId].(likesCount := t.rows[placeId].likesCount, savesCount := t.rows[placeId].savesCount,
                                 updatedAt := t.rows[placeId].updatedAt) == t.rows[placeId]
            && (forall d :: d != c ==> CounterValue(t'.rows[placeId], d) == CounterValue(t.rows[placeId], d)))
      && (forall k :: k in t.rows && k != placeId ==> t'.rows[k] == t.rows[k])
  {
  }

  // ---------------------------------------------------------------------------
  // findPlaces

  /** The query-string filters of `findPlaces`; None is an absent parameter. */
  datatype PlaceFilters = PlaceFilters(
    q: Option<string>,
    district: Option<string>,
    tag: Option<string>,
    wifi: Option<string>,
    outlets: Option<string>)

  predicate Given(s: Option<string>) {
    s.Some? && s.value != ""
  }

  /** Does `p` satisfy the query `findPlaces` builds from `f`? `matches(q, v)`
      is the case-insensitive regular-expression test of `v` against `q`. */
  predicate PlaceMatches(p: Place, f: PlaceFilters, matches: (string, string) -> bool) {
    && (Given(f.q) ==> matches(f.q.value, p.name) || (p.district.Some? && matches(f.q.value, p.district.value)))
    && (Given(f.district) ==> p.district == f.district)
    && (Given(f.tag) ==> f.tag.value in p.tags)
    && (f.wifi == Some("true") ==> p.wifi)
    && (f.outlets == Some("true") ==> p.outlets)
  }

  /** The sort key: the average rating for 'rating', likesCount for
      'popular', createdAt otherwise; all descending. */
  function PlaceSortKey(sort: string): Place -> int {
    if sort == "rating" then (p: Place) => p.ratingSummary.avgTenths
    else if sort == "popular" then (p: Place) => p.likesCount
    else (p: Place) => p.createdAt
  }

  ghost function MatchingPlaces(rows: map<string, Place>, f: PlaceFilters, matches: (string, string) -> bool): set<Place> {
    set p | p in rows.Values && PlaceMatches(p, f, matches)
  }

  datatype PlacePage = PlacePage(places: seq<Place>, page: int, limit: int, total: nat)

  /** `findPlaces`: one page of the matching places in sort order, with the
      number of all matching places. None is the store refusing a negative
      skip. */
  ghost function FindPlaces(rows: map<string, Place>, f: PlaceFilters, sort: string, page: Option<int>, limit: Option<int>,
                            matches: (string, string) -> bool): (r: Option<PlacePage>)
    ensures var p := PageParam(page, 1);
      var l := PageParam(limit, 20);
      && (r.None? <==> Skip(p, l) < 0)
      && (r.Some? ==>
            && r.value.page == p && r.value.limit == l
            && r.value.total == |MatchingPlaces(rows, f, matches)|
            && r.value.places == Window(Ordered(MatchingPlaces(rows, f, matches), PlaceSortKey(sort)), Skip(p, l), l).value
            && SortedDesc(r.value.places, PlaceSortKey(sort))
            && (forall i :: 0 <= i < |r.value.places| ==>
                  r.value.places[i] in rows.Values && PlaceMatches(r.value.places[i], f, matches))
            && (l > 0 ==> |r.value.places| <= l))
  {
    var p := PageParam(page, 1);
    var l := PageParam(limit, 20);
    var hits := MatchingPlaces(rows, f, matches);
    if Skip(p, l) < 0 then None
    else
      var w := Window(Ordered(hits, PlaceSortKey(sort)), Skip(p, l), l).value;
      PageOfOrdered(hits, PlaceSortKey(sort), Skip(p, l), l);
      assert forall i :: 0 <= i < |w| ==> w[i] in hits;
      Some(PlacePage(w, p, l, |hits|))
  }

  /** With a positive limit every matching place is listed, on exactly one
      page: paging through the listing shows each match once. */
  lemma FindPlacesListsEachOnce(rows: map<string, Place>, f: PlaceFilters, sort: string, limit: int,
                                matches: (string, string) -> bool, x: Place, q: int)
    requires limit >= 1
    requires x in rows.Values && PlaceMatches(x, f, matches)
    requires q >= 1
    ensures FindPlaces(rows, f, sort, Some(q), Some(limit), matches).Some?
    ensures x in FindPlaces(rows, f, sort, Some(q), Some(limit), matches).value.places
      <==> q == PageNumber(Ordered(MatchingPlaces(rows, f, matches), PlaceSortKey(sort)), limit, x)
  {
    assert PageParam(Some(q), 1) == q && PageParam(Some(limit), 20) == limit;
    MulMono(0, q - 1, limit);
    PageHoldsOnce(MatchingPlaces(rows, f, matches), PlaceSortKey(sort), limit, q, x, FindPlaces(rows, f, sort, Some(q), Some(limit), matches).value.places);
  }

  class PlaceTable {
    var rows: map<string, Place>
    var nextId: nat

    function Snap(): Table<string, Place>
      reads this
    {
      Table(rows, nextId)
    }

    ghost predicate Valid()
      reads this
    {
      PlacesValid(Snap())
    }

    constructor ()
      ensures Valid() && rows == map[] && nextId == 0
    {
      rows := map[];
      nextId := 0;
    }

    method CreatePlace(p: NewPlace, now: int) returns (r: Inserted<Place>)
      requires Valid()
      modifies this
      ensures Valid()
      ensures (r, Snap()) == InsertPlace(old(Snap()), p, now)
    {
      if p.placeId in rows {
        return DuplicateKey;
      }
      var q := NewPlaceRecord(Oid(nextId), p, now);
      rows := rows[p.placeId := q];
      nextId := nextId + 1;
      r := Inserted(q);
    }

    function FindPlaceById(placeId: string): (r: Option<Place>)
      reads this
      requires Valid()
      ensures r.Some? <==> placeId in rows
      ensures r.Some? ==> r.value.placeId == placeId && r.value in rows.Values
    {
      if placeId in rows then Some(rows[placeId]) else None
    }

    method UpdatePlaceRating(placeId: string, s: RatingSummary, now: int)
      requires Valid()
      modifies this
      ensures Valid()
      ensures Snap() == SetRating(old(Snap()), placeId, s, now)
    {
      if placeId in rows {
        rows := rows[placeId := rows[placeId].(ratingSummary := s, updatedAt := now)];
      }
    }

    method UpdatePlaceCounts(placeId: string, c: PlaceCounter, increment: int, now: int)
      requires Valid()
      modifies this
      ensures Valid()
      ensures Snap() == AddToCounter(old(Snap()), placeId, c, increment, now)
    {
      if placeId in rows {
        var p := rows[placeId];
        match c {
          case LikesCount => p := p.(likesCount := p.likesCount + increment, updatedAt := now);
          case SavesCount => p := p.(savesCount := p.savesCount + increment, updatedAt := now);
        }
        rows := rows[placeId := p];
      }
    }
  }
}
