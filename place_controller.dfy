/** The place handlers (controllers/placeController.js): the listing and the
    detail view with the caller's like/save flags, and the four handlers that
    create or delete a like or saved record and move the place's counter.

    The invariant they keep is `CounterMatches`: each place's likesCount
    (savesCount) is the number of like (saved) records pointing at it. */
module PlaceController {
  import opened Common
  import opened Listing
  import opened PlaceModel
  import E = EdgeModel
  import A = Aggregations
  import P = PromoModel
  import R = ReviewModel

  const PlaceNotFound := Fail(404, "PLACE_NOT_FOUND")

  /** The 409 a duplicate like or save is answered with. */
  function Already(c: PlaceCounter): Outcome {
    if c == LikesCount then Fail(409, "ALREADY_LIKED") else Fail(409, "ALREADY_SAVED")
  }

  /** The 404 an unlike or unsave without a record is answered with. */
  function Missing(c: PlaceCounter): Outcome {
    if c == LikesCount then Fail(404, "LIKE_NOT_FOUND") else Fail(404, "SAVED_NOT_FOUND")
  }

  /** The other counter. */
  function OtherCounter(c: PlaceCounter): PlaceCounter {
    if c == LikesCount then SavesCount else LikesCount
  }

  /** A place's like and saved records are keyed by its placeId string. */
  function PlaceEdge(me: Oid, placeId: string): E.EdgeKey {
    E.EdgeKey(me, E.PlaceType, E.PlaceKey(placeId))
  }

  function PlaceKeyOf(p: Place): E.TargetId {
    E.PlaceKey(p.placeId)
  }

  // ---------------------------------------------------------------------------
  // The steps

  /** `likePlace` (c = LikesCount, over the likes) and `savePlace`
      (c = SavesCount, over the saved records): the place must exist and the
      record must not; then the record is created and the counter raised. */
  function AddPlaceEdgeStep(places: Table<string, Place>, edges: map<E.EdgeKey, E.Edge>, c: PlaceCounter,
                            me: Oid, placeId: string, now: int): (Outcome, Table<string, Place>, map<E.EdgeKey, E.Edge>)
  {
    if placeId !in places.rows then (PlaceNotFound, places, edges)
    else if PlaceEdge(me, placeId) in edges then (Already(c), places, edges)
    else
      var (ins, edges') := E.InsertEdge(edges, PlaceEdge(me, placeId), now);
      if ins.DuplicateKey? then (DuplicateKeyReply, places, edges)
      else (Ok(200), AddToCounter(places, placeId, c, 1, now), edges')
  }

  /** `unlikePlace` and `unsavePlace`: delete the record, and only when one
      was deleted lower the counter. The place itself is not looked up. */
  function RemovePlaceEdgeStep(places: Table<string, Place>, edges: map<E.EdgeKey, E.Edge>, c: PlaceCounter,
                               me: Oid, placeId: string, now: int): (Outcome, Table<string, Place>, map<E.EdgeKey, E.Edge>)
  {
    var (deleted, edges') := E.RemoveEdge(edges, PlaceEdge(me, placeId));
    if !deleted then (Missing(c), places, edges)
    else (Ok(200), AddToCounter(places, placeId, c, -1, now), edges')
  }

  /** A page of `getPlaces`: the places with the caller's flags, and the
      page meta. */
  datatype PlaceListing = PlaceListing(places: seq<A.Flagged<Place>>, page: int, limit: int, total: nat)

  /** `getPlaces`: `findPlaces` with sort, page and limit defaulting to
      'recent', 1 and 20, then the flags. None is the store refusing a
      negative skip. */
  ghost function GetPlaces(places: map<string, Place>, f: PlaceFilters, sort: Option<string>, page: Option<int>,
                           limit: Option<int>, matches: (string, string) -> bool, me: Option<Oid>,
                           likes: map<E.EdgeKey, E.Edge>, saved: map<E.EdgeKey, E.Edge>): Option<PlaceListing>
  {
    var found := FindPlaces(places, f, sort.GetOr("recent"), page, limit, matches);
    if found.None? then None
    else
      var r := found.value;
      Some(PlaceListing(A.PersonalFlags(r.places, PlaceKeyOf, E.PlaceType, me, likes, saved), r.page, r.limit, r.total))
  }

  /** What `getPlaceById` sends: the place with its flags, its active promos
      and its five newest reviews. */
  datatype PlaceDetail = PlaceDetail(place: A.Flagged<Place>, promos: seq<P.Promo>, reviews: seq<R.Review>)

  ghost function GetPlaceById(places: map<string, Place>, promos: map<string, P.Promo>, reviews: map<Oid, R.Review>,
                              likes: map<E.EdgeKey, E.Edge>, saved: map<E.EdgeKey, E.Edge>,
                              me: Option<Oid>, placeId: string, now: int): (Outcome, Option<PlaceDetail>)
  {
    if placeId !in places then (PlaceNotFound, None)
    else
      var liked := me.Some? && PlaceEdge(me.value, placeId) in likes;
      var isSaved := me.Some? && PlaceEdge(me.value, placeId) in saved;
      var ps := P.FindPromos(promos, P.PromoFilters(Some(placeId), None, Some("true")), "", None, None, now);
      var rs := R.FindReviewsByPlaceId(reviews, placeId, None, Some(5));
      assert Skip(PageParam(None, 1), PageParam(None, 20)) == 0 && Skip(PageParam(None, 1), PageParam(Some(5), 20)) == 0;
      (Ok(200), Some(PlaceDetail(A.Flagged(places[placeId], liked, isSaved), ps.value.promos, rs.value)))
  }

  // ---------------------------------------------------------------------------
  // The counter invariant

  /** Counter `c` of every place equals the number of records pointing at it. */
  ghost predicate CounterMatches(places: map<string, Place>, edges: map<E.EdgeKey, E.Edge>, c: PlaceCounter) {
    forall placeId :: placeId in places ==> CounterValue(places[placeId], c) == E.CountTo(edges, E.PlaceType, E.PlaceKey(placeId))
  }

  /** When one place's counter `c` moves by `delta` and the records pointing
      at that place change by the same amount while every other place's
      count stays, both counters stay matched. */
  lemma {:induction false} MovedTogether(places: Table<string, Place>, edges: map<E.EdgeKey, E.Edge>,
                                         edges': map<E.EdgeKey, E.Edge>, other: map<E.EdgeKey, E.Edge>,
                                         c: PlaceCounter, placeId: string, delta: int, now: int)
    requires CounterMatches(places.rows, edges, c) && CounterMatches(places.rows, other, OtherCounter(c))
    requires forall q :: q in places.rows ==>
      E.CountTo(edges', E.PlaceType, E.PlaceKey(q)) == E.CountTo(edges, E.PlaceType, E.PlaceKey(q)) + (if q == placeId then delta else 0)
    ensures var places' := AddToCounter(places, placeId, c, delta, now);
      CounterMatches(places'.rows, edges', c) && CounterMatches(places'.rows, other, OtherCounter(c))
  {
    PlaceUpdatesTouchOnlyTheirFields(places, placeId, RatingSummary(0, 0), c, delta, now);
    assert OtherCounter(c) != c;
  }

  /** Adding a record and raising the counter of its place keeps counter `c`
      matched, and leaves the other counter as it was. */
  lemma {:induction false} AddPlaceEdgeKeepsCounters(places: Table<string, Place>, edges: map<E.EdgeKey, E.Edge>,
                                                     other: map<E.EdgeKey, E.Edge>, c: PlaceCounter,
                                                     me: Oid, placeId: string, now: int)
    requires CounterMatches(places.rows, edges, c) && CounterMatches(places.rows, other, OtherCounter(c))
    ensures var (o, places', edges') := AddPlaceEdgeStep(places, edges, c, me, placeId, now);
      CounterMatches(places'.rows, edges', c) && CounterMatches(places'.rows, other, OtherCounter(c))
  {
    var (o, places', edges') := AddPlaceEdgeStep(places, edges, c, me, placeId, now);
    if o.Ok? {
      forall q | q in places.rows
        ensures E.CountTo(edges', E.PlaceType, E.PlaceKey(q)) == E.CountTo(edges, E.PlaceType, E.PlaceKey(q)) + (if q == placeId then 1 else 0)
      {
        E.CountAfterInsert(edges, PlaceEdge(me, placeId), now, E.PlaceType, E.PlaceKey(q));
      }
      MovedTogether(places, edges, edges', other, c, placeId, 1, now);
    }
  }

  /** Deleting a record and lowering the counter of its place keeps counter
      `c` matched, and leaves the other counter as it was. */
  lemma {:induction false} RemovePlaceEdgeKeepsCounters(places: Table<string, Place>, edges: map<E.EdgeKey, E.Edge>,
                                                        other: map<E.EdgeKey, E.Edge>, c: PlaceCounter,
                                                        me: Oid, placeId: string, now: int)
    requires CounterMatches(places.rows, edges, c) && CounterMatches(places.rows, other, OtherCounter(c))
    ensures var (o, places', edges') := RemovePlaceEdgeStep(places, edges, c, me, placeId, now);
      CounterMatches(places'.rows, edges', c) && CounterMatches(places'.rows, other, OtherCounter(c))
  {
    var (o, places', edges') := RemovePlaceEdgeStep(places, edges, c, me, placeId, now);
    if o.Ok? {
      forall q | q in places.rows
        ensures E.CountTo(edges', E.PlaceType, E.PlaceKey(q)) == E.CountTo(edges, E.PlaceType, E.PlaceKey(q)) + (if q == placeId then -1 else 0)
      {
        E.CountAfterRemove(edges, PlaceEdge(me, placeId), E.PlaceType, E.PlaceKey(q));
      }
      MovedTogether(places, edges, edges', other, c, placeId, -1, now);
    }
  }

  /** A like or save succeeds exactly for an existing place without the
      caller's record; it then adds that one record and raises the counter by
      one. A refusal changes nothing. */
  lemma {:induction false} AddPlaceEdgeEffects(places: Table<string, Place>, edges: map<E.EdgeKey, E.Edge>, c: PlaceCounter,
                                               me: Oid, placeId: string, now: int)
    ensures var (o, places', edges') := AddPlaceEdgeStep(places, edges, c, me, placeId, now);
      && (o == PlaceNotFound <==> placeId !in places.rows)
      && (o == Already(c) <==> placeId in places.rows && PlaceEdge(me, placeId) in edges)
      && (o.Ok? <==> placeId in places.rows && PlaceEdge(me, placeId) !in edges)
      && (o.Ok? ==>
            && edges' == edges[PlaceEdge(me, placeId) := E.Edge(me, E.PlaceType, E.PlaceKey(placeId), now)]
            && CounterValue(places'.rows[placeId], c) == CounterValue(places.rows[placeId], c) + 1)
      && (!o.Ok? ==> places' == places && edges' == edges)
  {
    PlaceUpdatesTouchOnlyTheirFields(places, placeId, RatingSummary(0, 0), c, 1, now);
  }

  /** An unlike or unsave succeeds exactly when the caller's record exists; it
      then deletes it and lowers the counter of an existing place by one. A
      refusal changes nothing. */
  lemma {:induction false} RemovePlaceEdgeEffects(places: Table<string, Place>, edges: map<E.EdgeKey, E.Edge>, c: PlaceCounter,
                                                  me: Oid, placeId: string, now: int)
    ensures var (o, places', edges') := RemovePlaceEdgeStep(places, edges, c, me, placeId, now);
      && (o.Ok? <==> PlaceEdge(me, placeId) in edges)
      && (!o.Ok? ==> o == Missing(c) && places' == places && edges' == edges)
      && (o.Ok? ==>
            && edges' == edges - {PlaceEdge(me, placeId)}
            && (placeId in places.rows ==> CounterValue(places'.rows[placeId], c) == CounterValue(places.rows[placeId], c) - 1))
  {
    PlaceUpdatesTouchOnlyTheirFields(places, placeId, RatingSummary(0, 0), c, -1, now);
  }

  /** The listing holds the matching places in sort order (newest first by
      default), at most `limit` of them, each flagged by whether the caller's
      like and saved records for it exist. */
  lemma {:induction false} GetPlacesSpec(places: map<string, Place>, f: PlaceFilters, sort: Option<string>, page: Option<int>,
                                         limit: Option<int>, matches: (string, string) -> bool, me: Option<Oid>,
                                         likes: map<E.EdgeKey, E.Edge>, saved: map<E.EdgeKey, E.Edge>)
    ensures var r := GetPlaces(places, f, sort, page, limit, matches, me, likes, saved);
      && (r.None? <==> Skip(PageParam(page, 1), PageParam(limit, 20)) < 0)
      && (r.Some? ==>
            && r.value.total == |MatchingPlaces(places, f, matches)|
            && seq(|r.value.places|, i requires 0 <= i < |r.value.places| => r.value.places[i].item)
               == Window(Ordered(MatchingPlaces(places, f, matches), PlaceSortKey(sort.GetOr("recent"))),
                         Skip(PageParam(page, 1), PageParam(limit, 20)), PageParam(limit, 20)).value
            && SortedDesc(seq(|r.value.places|, i requires 0 <= i < |r.value.places| => r.value.places[i].item), PlaceSortKey(sort.GetOr("recent")))
            && (PageParam(limit, 20) > 0 ==> |r.value.places| <= PageParam(limit, 20))
            && (forall i :: 0 <= i < |r.value.places| ==>
                  && r.value.places[i].item in places.Values
                  && PlaceMatches(r.value.places[i].item, f, matches)
                  && (r.value.places[i].isLikedByMe <==> me.Some? && PlaceEdge(me.value, r.value.places[i].item.placeId) in likes)
                  && (r.value.places[i].isSavedByMe <==> me.Some? && PlaceEdge(me.value, r.value.places[i].item.placeId) in saved)))
  {
    var found := FindPlaces(places, f, sort.GetOr("recent"), page, limit, matches);
    if found.Some? {
      A.PersonalFlagsSpec(found.value.places, PlaceKeyOf, E.PlaceType, me, likes, saved);
      var r := GetPlaces(places, f, sort, page, limit, matches, me, likes, saved);
      assert seq(|r.value.places|, i requires 0 <= i < |r.value.places| => r.value.places[i].item) == found.value.places;
    }
  }

  /** The detail view's flags say whether the caller's records exist, and are
      false for an anonymous caller. */
  lemma {:induction false} GetPlaceByIdSpec(places: map<string, Place>, promos: map<string, P.Promo>, reviews: map<Oid, R.Review>,
                                            likes: map<E.EdgeKey, E.Edge>, saved: map<E.EdgeKey, E.Edge>,
                                            me: Option<Oid>, placeId: string, now: int)
    ensures var (o, d) := GetPlaceById(places, promos, reviews, likes, saved, me, placeId, now);
      && (o.Ok? <==> placeId in places) && (o.Ok? <==> d.Some?)
      && (d.Some? ==>
            && d.value.place.item == places[placeId]
            && (d.value.place.isLikedByMe <==> me.Some? && PlaceEdge(me.value, placeId) in likes)
            && (d.value.place.isSavedByMe <==> me.Some? && PlaceEdge(me.value, placeId) in saved)
            && |d.value.reviews| <= 5
            && (forall i :: 0 <= i < |d.value.reviews| ==> d.value.reviews[i].placeId == placeId)
            && (forall i :: 0 <= i < |d.value.promos| ==>
                  (placeId != "" ==> d.value.promos[i].placeId == placeId) && P.ActiveAt(d.value.promos[i], now)))
  {
  }

  // ---------------------------------------------------------------------------
  // The handlers

  method LikePlace(places: PlaceTable, likes: E.EdgeTable, me: Oid, placeId: string, now: int) returns (o: Outcome)
    requires places.Valid() && likes.Valid()
    modifies places, likes
    ensures places.Valid() && likes.Valid()
    ensures (o, places.Snap(), likes.rows) == AddPlaceEdgeStep(old(places.Snap()), old(likes.rows), LikesCount, me, placeId, now)
  {
    var place := places.FindPlaceById(placeId);
    if place.None? {
      return PlaceNotFound;
    }
    var existing := likes.Find(PlaceEdge(me, placeId));
    if existing.Some? {
      return Already(LikesCount);
    }
    var ins := likes.Create(PlaceEdge(me, placeId), now);
    if ins.DuplicateKey? {
      return DuplicateKeyReply;
    }
    places.UpdatePlaceCounts(placeId, LikesCount, 1, now);
    o := Ok(200);
  }

  method UnlikePlace(places: PlaceTable, likes: E.EdgeTable, me: Oid, placeId: string, now: int) returns (o: Outcome)
    requires places.Valid() && likes.Valid()
    modifies places, likes
    ensures places.Valid() && likes.Valid()
    ensures (o, places.Snap(), likes.rows) == RemovePlaceEdgeStep(old(places.Snap()), old(likes.rows), LikesCount, me, placeId, now)
  {
    var deleted := likes.Delete(PlaceEdge(me, placeId));
    if !deleted {
      assert likes.rows == old(likes.rows);
      return Missing(LikesCount);
    }
    places.UpdatePlaceCounts(placeId, LikesCount, -1, now);
    o := Ok(200);
  }

  method SavePlace(places: PlaceTable, saved: E.EdgeTable, me: Oid, placeId: string, now: int) returns (o: Outcome)
    requires places.Valid() && saved.Valid()
    modifies places, saved
    ensures places.Valid() && saved.Valid()
    ensures (o, places.Snap(), saved.rows) == AddPlaceEdgeStep(old(places.Snap()), old(saved.rows), SavesCount, me, placeId, now)
  {
    var place := places.FindPlaceById(placeId);
    if place.None? {
      return PlaceNotFound;
    }
    var existing := saved.Find(PlaceEdge(me, placeId));
    if existing.Some? {
      return Already(SavesCount);
    }
    var ins := saved.Create(PlaceEdge(me, placeId), now);
    if ins.DuplicateKey? {
      return DuplicateKeyReply;
    }
    places.UpdatePlaceCounts(placeId, SavesCount, 1, now);
    o := Ok(200);
  }

  method UnsavePlace(places: PlaceTable, saved: E.EdgeTable, me: Oid, placeId: string, now: int) returns (o: Outcome)
    requires places.Valid() && saved.Valid()
    modifies places, saved
    ensures places.Valid() && saved.Valid()
    ensures (o, places.Snap(), saved.rows) == RemovePlaceEdgeStep(old(places.Snap()), old(saved.rows), SavesCount, me, placeId, now)
  {
    var deleted := saved.Delete(PlaceEdge(me, placeId));
    if !deleted {
      assert saved.rows == old(saved.rows);
      return Missing(SavesCount);
    }
    places.UpdatePlaceCounts(placeId, SavesCount, -1, now);
    o := Ok(200);
  }
}
