/** The promo handlers (controllers/promoController.js): the listing with the
    place names and the caller's like/save flags, and the four handlers that
    create or delete a like or saved record of a promo and move its counter.

    Promos are addressed by their `promoId` string, but their like and saved
    records point at the promo's object id. The invariant the handlers keep,
    `PromoCountersMatch`, therefore needs the object ids to be distinct. */
module PromoController {
  import opened Common
  import opened Listing
  import opened PromoModel
  import E = EdgeModel
  import A = Aggregations
  import PM = PlaceModel

  const PromoNotFound := Fail(404, "PROMO_NOT_FOUND")

  /** The 409 a duplicate like or save is answered with. */
  function Already(c: PromoCounter): Outcome {
    if c == PromoLikes then Fail(409, "ALREADY_LIKED") else Fail(409, "ALREADY_SAVED")
  }

  /** The 404 an unlike or unsave without a record is answered with. */
  function Missing(c: PromoCounter): Outcome {
    if c == PromoLikes then Fail(404, "LIKE_NOT_FOUND") else Fail(404, "SAVED_NOT_FOUND")
  }

  function OtherCounter(c: PromoCounter): PromoCounter {
    if c == PromoLikes then PromoSaves else PromoLikes
  }

  /** The caller's like or saved record of a promo. */
  function PromoEdge(me: Oid, p: Promo): E.EdgeKey {
    E.EdgeKey(me, E.PromoType, E.ObjectKey(p.id))
  }

  // ---------------------------------------------------------------------------
  // The steps

  /** `likePromo` (c = PromoLikes, over the likes) and `savePromo`
      (c = PromoSaves, over the saved records). */
  function AddPromoEdgeStep(promos: Table<string, Promo>, edges: map<E.EdgeKey, E.Edge>, c: PromoCounter,
                            me: Oid, promoId: string, now: int): (Outcome, Table<string, Promo>, map<E.EdgeKey, E.Edge>)
  {
    if promoId !in promos.rows then (PromoNotFound, promos, edges)
    else
      var k := PromoEdge(me, promos.rows[promoId]);
      if k in edges then (Already(c), promos, edges)
      else
        var (ins, edges') := E.InsertEdge(edges, k, now);
        if ins.DuplicateKey? then (DuplicateKeyReply, promos, edges)
        else (Ok(200), AddToPromoCounter(promos, promoId, c, 1, now), edges')
  }

  /** `unlikePromo` and `unsavePromo`: unlike the place handlers these look
      the promo up first. */
  function RemovePromoEdgeStep(promos: Table<string, Promo>, edges: map<E.EdgeKey, E.Edge>, c: PromoCounter,
                               me: Oid, promoId: string, now: int): (Outcome, Table<string, Promo>, map<E.EdgeKey, E.Edge>)
  {
    if promoId !in promos.rows then (PromoNotFound, promos, edges)
    else
      var (deleted, edges') := E.RemoveEdge(edges, PromoEdge(me, promos.rows[promoId]));
      if !deleted then (Missing(c), promos, edges)
      else (Ok(200), AddToPromoCounter(promos, promoId, c, -1, now), edges')
  }

  // ---------------------------------------------------------------------------
  // The listing

  /** A listed promo with the name of its place. */
  datatype PromoItem = PromoItem(promo: Promo, placeName: string)

  datatype PromoListing = PromoListing(promos: seq<A.Flagged<PromoItem>>, page: int, limit: int, total: nat)

  /** The names of the places of the listed promos, keyed by placeId; a
      place that does not exist has no entry. */
  function PlaceNames(places: map<string, PM.Place>, promos: seq<Promo>): (m: map<string, string>)
    ensures forall pid :: pid in m <==> pid in places && exists i :: 0 <= i < |promos| && promos[i].placeId == pid
    ensures forall pid :: pid in m ==> m[pid] == places[pid].name
  {
    map pid | pid in (set i | 0 <= i < |promos| :: promos[i].placeId) && pid in places :: places[pid].name
  }

  /** The shown place name: 'Unknown' for a missing place or an empty name. */
  function ShownName(names: map<string, string>, placeId: string): string {
    if placeId in names && names[placeId] != "" then names[placeId] else "Unknown"
  }

  function PromoKeyOf(it: PromoItem): E.TargetId {
    E.ObjectKey(it.promo.id)
  }

  /** `getPromos`: `findPromos` with sort, page and limit defaulting to
      'recent', 1 and 20, each promo with its place name, then the flags. */
  ghost function GetPromos(promos: map<string, Promo>, places: map<string, PM.Place>, f: PromoFilters, sort: Option<string>,
                           page: Option<int>, limit: Option<int>, now: int, me: Option<Oid>,
                           likes: map<E.EdgeKey, E.Edge>, saved: map<E.EdgeKey, E.Edge>): Option<PromoListing>
  {
    var found := FindPromos(promos, f, sort.GetOr("recent"), page, limit, now);
    if found.None? then None
    else
      var ps := found.value.promos;
      var names := PlaceNames(places, ps);
      var items := seq(|ps|, i requires 0 <= i < |ps| => PromoItem(ps[i], ShownName(names, ps[i].placeId)));
      Some(PromoListing(A.PersonalFlags(items, PromoKeyOf, E.PromoType, me, likes, saved),
                        found.value.page, found.value.limit, found.value.total))
  }

  /** The listing is the `findPromos` page, promo by promo, so its window
      and completeness carry over. Each listed promo matches the filters,
      carries the name of its place (or 'Unknown' when the place is missing
      or unnamed), and is flagged by whether the caller's records point at
      its object id. */
  lemma {:induction false} GetPromosSpec(promos: map<string, Promo>, places: map<string, PM.Place>, f: PromoFilters,
                                         sort: Option<string>, page: Option<int>, limit: Option<int>, now: int,
                                         me: Option<Oid>, likes: map<E.EdgeKey, E.Edge>, saved: map<E.EdgeKey, E.Edge>)
    ensures var r := GetPromos(promos, places, f, sort, page, limit, now, me, likes, saved);
      && (r.None? <==> Skip(PageParam(page, 1), PageParam(limit, 20)) < 0)
      && (r.Some? ==>
            && r.value.total == |MatchingPromos(promos, f, now)|
            && (PageParam(limit, 20) > 0 ==> |r.value.promos| <= PageParam(limit, 20))
            && |r.value.promos| == |FindPromos(promos, f, sort.GetOr("recent"), page, limit, now).value.promos|
            && (forall i :: 0 <= i < |r.value.promos| ==>
                  var it := r.value.promos[i].item;
                  && it.promo == FindPromos(promos, f, sort.GetOr("recent"), page, limit, now).value.promos[i]
                  && it.promo in promos.Values
                  && PromoMatches(it.promo, f, now)
                  && (it.placeName == (if it.promo.placeId in places && places[it.promo.placeId].name != ""
                                       then places[it.promo.placeId].name else "Unknown"))
                  && (r.value.promos[i].isLikedByMe <==> me.Some? && PromoEdge(me.value, it.promo) in likes)
                  && (r.value.promos[i].isSavedByMe <==> me.Some? && PromoEdge(me.value, it.promo) in saved)))
  {
    var found := FindPromos(promos, f, sort.GetOr("recent"), page, limit, now);
    if found.Some? {
      var ps := found.value.promos;
      var names := PlaceNames(places, ps);
      var items := seq(|ps|, i requires 0 <= i < |ps| => PromoItem(ps[i], ShownName(names, ps[i].placeId)));
      A.PersonalFlagsSpec(items, PromoKeyOf, E.PromoType, me, likes, saved);
      forall i | 0 <= i < |ps|
        ensures items[i].placeName == (if ps[i].placeId in places && places[ps[i].placeId].name != ""
                                       then places[ps[i].placeId].name else "Unknown")
      {
        assert ps[i].placeId in places ==> ps[i].placeId in names;
      }
    }
  }

  /** The listing keeps `findPromos`' order: the promos run by the sort key,
      newest first by default. */
  lemma {:induction false} GetPromosOrder(promos: map<string, Promo>, places: map<string, PM.Place>, f: PromoFilters,
                                          sort: Option<string>, page: Option<int>, limit: Option<int>, now: int,
                                          me: Option<Oid>, likes: map<E.EdgeKey, E.Edge>, saved: map<E.EdgeKey, E.Edge>)
    ensures var r := GetPromos(promos, places, f, sort, page, limit, now, me, likes, saved);
      r.Some? ==> forall i, j :: 0 <= i < j < |r.value.promos| ==>
        PromoSortKey(sort.GetOr("recent"))(r.value.promos[i].item.promo) >= PromoSortKey(sort.GetOr("recent"))(r.value.promos[j].item.promo)
  {
    var found := FindPromos(promos, f, sort.GetOr("recent"), page, limit, now);
    if found.Some? {
      var ps := found.value.promos;
      var names := PlaceNames(places, ps);
      var items := seq(|ps|, i requires 0 <= i < |ps| => PromoItem(ps[i], ShownName(names, ps[i].placeId)));
      A.PersonalFlagsSpec(items, PromoKeyOf, E.PromoType, me, likes, saved);
      assert SortedDesc(ps, PromoSortKey(sort.GetOr("recent")));
    }
  }

  // ---------------------------------------------------------------------------
  // The counter invariant

  /** No two promos share an object id. */
  ghost predicate PromoIdsDistinct(promos: map<string, Promo>) {
    forall a, b :: a in promos && b in promos && promos[a].id == promos[b].id ==> a == b
  }

  /** Counter `c` of every promo equals the number of records pointing at
      its object id. */
  ghost predicate PromoCountersMatch(promos: map<string, Promo>, edges: map<E.EdgeKey, E.Edge>, c: PromoCounter) {
    forall k :: k in promos ==> PromoCounterValue(promos[k], c) == E.CountTo(edges, E.PromoType, E.ObjectKey(promos[k].id))
  }

  /** `createPromo` hands out a fresh object id, so the ids stay distinct;
      a new promo starts with no records and zero counters. */
  lemma {:induction false} InsertPromoKeepsCounters(promos: Table<string, Promo>, likes: map<E.EdgeKey, E.Edge>,
                                                    saved: map<E.EdgeKey, E.Edge>, p: NewPromo, now: int)
    requires PromosValid(promos) && PromoIdsDistinct(promos.rows)
    requires PromoCountersMatch(promos.rows, likes, PromoLikes) && PromoCountersMatch(promos.rows, saved, PromoSaves)
    requires forall k :: k in likes && k.targetType == E.PromoType ==> k.targetId.ObjectKey? && k.targetId.oid.n < promos.nextId
    requires forall k :: k in saved && k.targetType == E.PromoType ==> k.targetId.ObjectKey? && k.targetId.oid.n < promos.nextId
    ensures var (r, promos') := InsertPromo(promos, p, now);
      && PromosValid(promos') && PromoIdsDistinct(promos'.rows)
      && PromoCountersMatch(promos'.rows, likes, PromoLikes) && PromoCountersMatch(promos'.rows, saved, PromoSaves)
  {
    var (r, promos') := InsertPromo(promos, p, now);
    if r.Inserted? {
      var id := promos.Fresh();
      assert E.EdgesTo(likes, E.PromoType, E.ObjectKey(id)) == {};
      assert E.EdgesTo(saved, E.PromoType, E.ObjectKey(id)) == {};
    }
  }

  /** When one promo's counter `c` moves by `delta` and the records pointing
      at that promo's id change by the same amount while every other promo's
      count stays, both counters stay matched and the ids stay distinct. */
  lemma {:induction false} MovedTogether(promos: Table<string, Promo>, edges: map<E.EdgeKey, E.Edge>,
                                         edges': map<E.EdgeKey, E.Edge>, other: map<E.EdgeKey, E.Edge>,
                                         c: PromoCounter, promoId: string, delta: int, now: int)
    requires promoId in promos.rows && PromoIdsDistinct(promos.rows)
    requires PromoCountersMatch(promos.rows, edges, c) && PromoCountersMatch(promos.rows, other, OtherCounter(c))
    requires forall q :: q in promos.rows ==>
      E.CountTo(edges', E.PromoType, E.ObjectKey(promos.rows[q].id)) ==
      E.CountTo(edges, E.PromoType, E.ObjectKey(promos.rows[q].id)) + (if q == promoId then delta else 0)
    ensures var promos' := AddToPromoCounter(promos, promoId, c, delta, now);
      && PromoIdsDistinct(promos'.rows)
      && PromoCountersMatch(promos'.rows, edges', c) && PromoCountersMatch(promos'.rows, other, OtherCounter(c))
  {
    var promos' := AddToPromoCounter(promos, promoId, c, delta, now);
    AddToPromoCounterTouchesOne(promos, promoId, c, delta, now);
    assert promos'.rows[promoId].id == promos.rows[promoId].id;
    assert forall q :: q in promos'.rows ==> promos'.rows[q].id == promos.rows[q].id;
    assert OtherCounter(c) != c;
  }

  /** Adding a record and raising the counter of its promo keeps counter `c`
      matched and the ids distinct, and leaves the other counter as it was. */
  lemma {:induction false} AddPromoEdgeKeepsCounters(promos: Table<string, Promo>, edges: map<E.EdgeKey, E.Edge>,
                                                     other: map<E.EdgeKey, E.Edge>, c: PromoCounter,
                                                     me: Oid, promoId: string, now: int)
    requires PromoIdsDistinct(promos.rows)
    requires PromoCountersMatch(promos.rows, edges, c) && PromoCountersMatch(promos.rows, other, OtherCounter(c))
    ensures var (o, promos', edges') := AddPromoEdgeStep(promos, edges, c, me, promoId, now);
      && PromoIdsDistinct(promos'.rows)
      && PromoCountersMatch(promos'.rows, edges', c) && PromoCountersMatch(promos'.rows, other, OtherCounter(c))
  {
    var (o, promos', edges') := AddPromoEdgeStep(promos, edges, c, me, promoId, now);
    if o.Ok? {
      var k := PromoEdge(me, promos.rows[promoId]);
      forall q | q in promos.rows
        ensures E.CountTo(edges', E.PromoType, E.ObjectKey(promos.rows[q].id)) ==
          E.CountTo(edges, E.PromoType, E.ObjectKey(promos.rows[q].id)) + (if q == promoId then 1 else 0)
      {
        E.CountAfterInsert(edges, k, now, E.PromoType, E.ObjectKey(promos.rows[q].id));
      }
      MovedTogether(promos, edges, edges', other, c, promoId, 1, now);
    }
  }

  /** Deleting a record and lowering the counter of its promo keeps counter
      `c` matched and the ids distinct, and leaves the other counter alone. */
  lemma {:induction false} RemovePromoEdgeKeepsCounters(promos: Table<string, Promo>, edges: map<E.EdgeKey, E.Edge>,
                                                        other: map<E.EdgeKey, E.Edge>, c: PromoCounter,
                                                        me: Oid, promoId: string, now: int)
    requires PromoIdsDistinct(promos.rows)
    requires PromoCountersMatch(promos.rows, edges, c) && PromoCountersMatch(promos.rows, other, OtherCounter(c))
    ensures var (o, promos', edges') := RemovePromoEdgeStep(promos, edges, c, me, promoId, now);
      && PromoIdsDistinct(promos'.rows)
      && PromoCountersMatch(promos'.rows, edges', c) && PromoCountersMatch(promos'.rows, other, OtherCounter(c))
  {
    var (o, promos', edges') := RemovePromoEdgeStep(promos, edges, c, me, promoId, now);
    if o.Ok? {
      var k := PromoEdge(me, promos.rows[promoId]);
      forall q | q in promos.rows
        ensures E.CountTo(edges', E.PromoType, E.ObjectKey(promos.rows[q].id)) ==
          E.CountTo(edges, E.PromoType, E.ObjectKey(promos.rows[q].id)) + (if q == promoId then -1 else 0)
      {
        E.CountAfterRemove(edges, k, E.PromoType, E.ObjectKey(promos.rows[q].id));
      }
      MovedTogether(promos, edges, edges', other, c, promoId, -1, now);
    }
  }

  /** A like or save succeeds exactly for an existing promo without the
      caller's record; it then adds that one record and raises the counter by
      one. A refusal changes nothing. */
  lemma {:induction false} AddPromoEdgeEffects(promos: Table<string, Promo>, edges: map<E.EdgeKey, E.Edge>, c: PromoCounter,
                                               me: Oid, promoId: string, now: int)
    ensures var (o, promos', edges') := AddPromoEdgeStep(promos, edges, c, me, promoId, now);
      && (o == PromoNotFound <==> promoId !in promos.rows)
      && (o.Ok? <==> promoId in promos.rows && PromoEdge(me, promos.rows[promoId]) !in edges)
      && (o == Already(c) <==> promoId in promos.rows && PromoEdge(me, promos.rows[promoId]) in edges)
      && (o.Ok? ==>
            && edges' == edges[PromoEdge(me, promos.rows[promoId]) := E.Edge(me, E.PromoType, E.ObjectKey(promos.rows[promoId].id), now)]
            && PromoCounterValue(promos'.rows[promoId], c) == PromoCounterValue(promos.rows[promoId], c) + 1)
      && (!o.Ok? ==> promos' == promos && edges' == edges)
  {
    AddToPromoCounterTouchesOne(promos, promoId, c, 1, now);
  }

  /** An unlike or unsave succeeds exactly for an existing promo with the
      caller's record; it then deletes it and lowers the counter by one. */
  lemma {:induction false} RemovePromoEdgeEffects(promos: Table<string, Promo>, edges: map<E.EdgeKey, E.Edge>, c: PromoCounter,
                                                  me: Oid, promoId: string, now: int)
    ensures var (o, promos', edges') := RemovePromoEdgeStep(promos, edges, c, me, promoId, now);
      && (o == PromoNotFound <==> promoId !in promos.rows)
      && (o.Ok? <==> promoId in promos.rows && PromoEdge(me, promos.rows[promoId]) in edges)
      && (o == Missing(c) <==> promoId in promos.rows && PromoEdge(me, promos.rows[promoId]) !in edges)
      && (o.Ok? ==>
            && edges' == edges - {PromoEdge(me, promos.rows[promoId])}
            && PromoCounterValue(promos'.rows[promoId], c) == PromoCounterValue(promos.rows[promoId], c) - 1)
      && (!o.Ok? ==> promos' == promos && edges' == edges)
  {
    AddToPromoCounterTouchesOne(promos, promoId, c, -1, now);
  }

  // ---------------------------------------------------------------------------
  // The handlers

  method AddPromoEdge(promos: PromoTable, edges: E.EdgeTable, c: PromoCounter, me: Oid, promoId: string, now: int)
    returns (o: Outcome)
    requires promos.Valid() && edges.Valid()
    modifies promos, edges
    ensures promos.Valid() && edges.Valid()
    ensures (o, promos.Snap(), edges.rows) == AddPromoEdgeStep(old(promos.Snap()), old(edges.rows), c, me, promoId, now)
  {
    var promo := promos.FindPromoById(promoId);
    if promo.None? {
      return PromoNotFound;
    }
    var existing := edges.Find(PromoEdge(me, promo.value));
    if existing.Some? {
      return Already(c);
    }
    var ins := edges.Create(PromoEdge(me, promo.value), now);
    if ins.DuplicateKey? {
      return DuplicateKeyReply;
    }
    promos.UpdatePromoCounts(promoId, c, 1, now);
    o := Ok(200);
  }

  method RemovePromoEdge(promos: PromoTable, edges: E.EdgeTable, c: PromoCounter, me: Oid, promoId: string, now: int)
    returns (o: Outcome)
    requires promos.Valid() && edges.Valid()
    modifies promos, edges
    ensures promos.Valid() && edges.Valid()
    ensures (o, promos.Snap(), edges.rows) == RemovePromoEdgeStep(old(promos.Snap()), old(edges.rows), c, me, promoId, now)
  {
    var promo := promos.FindPromoById(promoId);
    if promo.None? {
      return PromoNotFound;
    }
    var deleted := edges.Delete(PromoEdge(me, promo.value));
    if !deleted {
      assert edges.rows == old(edges.rows);
      return Missing(c);
    }
    promos.UpdatePromoCounts(promoId, c, -1, now);
    o := Ok(200);
  }

  method LikePromo(promos: PromoTable, likes: E.EdgeTable, me: Oid, promoId: string, now: int) returns (o: Outcome)
    requires promos.Valid() && likes.Valid()
    modifies promos, likes
    ensures promos.Valid() && likes.Valid()
    ensures (o, promos.Snap(), likes.rows) == AddPromoEdgeStep(old(promos.Snap()), old(likes.rows), PromoLikes, me, promoId, now)
  {
    o := AddPromoEdge(promos, likes, PromoLikes, me, promoId, now);
  }

  method UnlikePromo(promos: PromoTable, likes: E.EdgeTable, me: Oid, promoId: string, now: int) returns (o: Outcome)
    requires promos.Valid() && likes.Valid()
    modifies promos, likes
    ensures promos.Valid() && likes.Valid()
    ensures (o, promos.Snap(), likes.rows) == RemovePromoEdgeStep(old(promos.Snap()), old(likes.rows), PromoLikes, me, promoId, now)
  {
    o := RemovePromoEdge(promos, likes, PromoLikes, me, promoId, now);
  }

  method SavePromo(promos: PromoTable, saved: E.EdgeTable, me: Oid, promoId: string, now: int) returns (o: Outcome)
    requires promos.Valid() && saved.Valid()
    modifies promos, saved
    ensures promos.Valid() && saved.Valid()
    ensures (o, promos.Snap(), saved.rows) == AddPromoEdgeStep(old(promos.Snap()), old(saved.rows), PromoSaves, me, promoId, now)
  {
    o := AddPromoEdge(promos, saved, PromoSaves, me, promoId, now);
  }

  method UnsavePromo(promos: PromoTable, saved: E.EdgeTable, me: Oid, promoId: string, now: int) returns (o: Outcome)
    requires promos.Valid() && saved.Valid()
    modifies promos, saved
    ensures promos.Valid() && saved.Valid()
    ensures (o, promos.Snap(), saved.rows) == RemovePromoEdgeStep(old(promos.Snap()), old(saved.rows), PromoSaves, me, promoId, now)
  {
    o := RemovePromoEdge(promos, saved, PromoSaves, me, promoId, now);
  }
}
