/** The saved-content handler (controllers/savedController.js): the caller's
    saved records, one page of them newest first, each looked up in the
    collection its target type names and put in that list; records whose
    target is gone, and target types other than place, promo and session,
    are skipped.

    As written the handler looks a saved promo up by its `promoId` string
    while the saved record holds the promo's object id, so no saved promo is
    ever shown (`GroupedAsWritten`); the model uses the lookup by object id
    (`Grouped`). */
module SavedController {
  import opened Common
  import opened Listing
  import E = EdgeModel
  import PM = PlaceModel
  import P = PromoModel
  import S = StudySessionModel
  import PC = PromoController

  /** The three lists the handler sends. */
  datatype SavedContent = SavedContent(places: seq<PM.Place>, promos: seq<P.Promo>, sessions: seq<S.Session>)

  /** `type || null`: a missing or empty `type` lists every type. */
  function TypeFilter(typ: Option<string>): (r: Option<E.TargetType>)
    ensures r.None? <==> typ.None? || typ.value == ""
    ensures r == Some(E.PlaceType) <==> typ == Some("place")
    ensures r == Some(E.PromoType) <==> typ == Some("promo")
    ensures r == Some(E.SessionType) <==> typ == Some("session")
  {
    if typ.None? || typ.value == "" then None
    else if typ.value == "place" then Some(E.PlaceType)
    else if typ.value == "promo" then Some(E.PromoType)
    else if typ.value == "review" then Some(E.ReviewType)
    else if typ.value == "session" then Some(E.SessionType)
    else Some(E.Other(typ.value))
  }

  // ---------------------------------------------------------------------------
  // Keeping the items one picker accepts, in order

  /** The values `pick` finds for the items of `s`, in the order of `s`. */
  function Select<T>(s: seq<E.Edge>, pick: E.Edge -> Option<T>): seq<T>
    decreases |s|
  {
    if s == [] then []
    else
      var last := pick(s[|s| - 1]);
      Select(s[..|s| - 1], pick) + (if last.Some? then [last.value] else [])
  }

  /** Where each selected value came from: strictly increasing positions of
      `s`, each holding an item that `pick` maps to that value, and every
      item `pick` accepts is among them. So the selection keeps the items'
      order and drops exactly the items `pick` rejects. */
  function Origins<T>(s: seq<E.Edge>, pick: E.Edge -> Option<T>): (o: seq<int>)
    ensures |o| == |Select(s, pick)|
    ensures forall k :: 0 <= k < |o| ==> 0 <= o[k] < |s| && pick(s[o[k]]) == Some(Select(s, pick)[k])
    ensures forall k, l :: 0 <= k < l < |o| ==> o[k] < o[l]
    ensures forall i :: 0 <= i < |s| && pick(s[i]).Some? ==> i in o
    decreases |s|
  {
    if s == [] then []
    else
      var init := s[..|s| - 1];
      var o := Origins(init, pick);
      assert forall i :: 0 <= i < |init| ==> init[i] == s[i];
      var last := pick(s[|s| - 1]);
      assert Select(s, pick) == Select(init, pick) + (if last.Some? then [last.value] else []);
      if last.Some? then o + [|s| - 1] else o
  }

  /** A value is selected exactly when some item is picked to it. */
  lemma SelectMembers<T>(s: seq<E.Edge>, pick: E.Edge -> Option<T>, x: T)
    ensures x in Select(s, pick) <==> exists i :: 0 <= i < |s| && pick(s[i]) == Some(x)
  {
    var o := Origins(s, pick);
    var r := Select(s, pick);
    if x in r {
      var k :| 0 <= k < |r| && r[k] == x;
      assert pick(s[o[k]]) == Some(x);
    }
    if i :| 0 <= i < |s| && pick(s[i]) == Some(x) {
      assert i in o;
      var k :| 0 <= k < |o| && o[k] == i;
      assert r[k] == x;
    }
  }

  // ---------------------------------------------------------------------------
  // Looking the targets up

  /** `Place.findPlaceById(item.targetId)` for a place record: a place
      record's target is the place id string; an object id matches no place. */
  function PlacePick(places: map<string, PM.Place>, e: E.Edge): Option<PM.Place> {
    if e.targetType == E.PlaceType && e.targetId.PlaceKey? && e.targetId.placeId in places
    then Some(places[e.targetId.placeId]) else None
  }

  /** `StudySession.findSessionById(item.targetId)` for a session record. */
  function SessionPick(sessions: map<Oid, S.Session>, e: E.Edge): Option<S.Session> {
    if e.targetType == E.SessionType && e.targetId.ObjectKey? && e.targetId.oid in sessions
    then Some(sessions[e.targetId.oid]) else None
  }

  /** `Promo.findPromoById(item.targetId)` as written: it matches the
      `promoId` string field, which an object id never equals. */
  function PromoPickAsWritten(promos: map<string, P.Promo>, e: E.Edge): Option<P.Promo> {
    if e.targetType == E.PromoType && e.targetId.PlaceKey? && e.targetId.placeId in promos
    then Some(promos[e.targetId.placeId]) else None
  }

  /** No two promos share an object id, so each id names at most one promo. */
  lemma PromoIdsNameOne(promos: map<string, P.Promo>)
    requires PC.PromoIdsDistinct(promos)
    ensures forall p, q :: p in promos.Values && q in promos.Values && p.id == q.id ==> p == q
  {
    forall p, q | p in promos.Values && q in promos.Values && p.id == q.id ensures p == q {
      var a :| a in promos && promos[a] == p;
      var b :| b in promos && promos[b] == q;
    }
  }

  /** The promos by object id, which is what a saved promo record holds. */
  function PromosByOid(promos: map<string, P.Promo>): (r: map<Oid, P.Promo>)
    requires PC.PromoIdsDistinct(promos)
    ensures forall k :: k in promos ==> promos[k].id in r && r[promos[k].id] == promos[k]
    ensures forall oid :: oid in r ==> r[oid] in promos.Values && r[oid].id == oid
  {
    PromoIdsNameOne(promos);
    map p | p in promos.Values :: p.id := p
  }

  /** The promo a saved promo record points at, looked up by object id. */
  function PromoPick(index: map<Oid, P.Promo>, e: E.Edge): Option<P.Promo> {
    if e.targetType == E.PromoType && e.targetId.ObjectKey? && e.targetId.oid in index
    then Some(index[e.targetId.oid]) else None
  }

  function PlacePicker(places: map<string, PM.Place>): E.Edge -> Option<PM.Place> {
    e => PlacePick(places, e)
  }

  function SessionPicker(sessions: map<Oid, S.Session>): E.Edge -> Option<S.Session> {
    e => SessionPick(sessions, e)
  }

  function PromoPicker(index: map<Oid, P.Promo>): E.Edge -> Option<P.Promo> {
    e => PromoPick(index, e)
  }

  function PromoPickerAsWritten(promos: map<string, P.Promo>): E.Edge -> Option<P.Promo> {
    e => PromoPickAsWritten(promos, e)
  }

  /** The loop of `getSavedContent`, with the promo lookup by object id. */
  function Grouped(items: seq<E.Edge>, places: map<string, PM.Place>, promos: map<string, P.Promo>,
                   sessions: map<Oid, S.Session>): SavedContent
    requires PC.PromoIdsDistinct(promos)
  {
    SavedContent(Select(items, PlacePicker(places)), Select(items, PromoPicker(PromosByOid(promos))),
                 Select(items, SessionPicker(sessions)))
  }

  /** The loop of `getSavedContent` as written. */
  function GroupedAsWritten(items: seq<E.Edge>, places: map<string, PM.Place>, promos: map<string, P.Promo>,
                            sessions: map<Oid, S.Session>): SavedContent
  {
    SavedContent(Select(items, PlacePicker(places)), Select(items, PromoPickerAsWritten(promos)),
                 Select(items, SessionPicker(sessions)))
  }

  /** Nothing is selected when `pick` rejects every item. */
  lemma {:induction false} NoneSelected<T>(s: seq<E.Edge>, pick: E.Edge -> Option<T>)
    requires forall i :: 0 <= i < |s| ==> pick(s[i]).None?
    ensures Select(s, pick) == []
    decreases |s|
  {
    if s != [] {
      NoneSelected(s[..|s| - 1], pick);
    }
  }

  /** The three lists together hold at most one entry per saved record,
      because the target types that route an item are distinct. */
  lemma {:induction false} GroupedCount(items: seq<E.Edge>, places: map<string, PM.Place>, index: map<Oid, P.Promo>,
                                        sessions: map<Oid, S.Session>)
    ensures |Select(items, PlacePicker(places))| + |Select(items, PromoPicker(index))|
            + |Select(items, SessionPicker(sessions))| <= |items|
    decreases |items|
  {
    if items != [] {
      GroupedCount(items[..|items| - 1], places, index, sessions);
    }
  }

  /** Every record whose target exists lands in the list of its type: a
      place record under its place, a promo record under the promo with
      that object id, a session record under its session. */
  lemma {:induction false} GroupedComplete(items: seq<E.Edge>, places: map<string, PM.Place>,
                                           promos: map<string, P.Promo>, sessions: map<Oid, S.Session>, i: int)
    requires PC.PromoIdsDistinct(promos) && 0 <= i < |items|
    ensures var g, e := Grouped(items, places, promos, sessions), items[i];
      && (e.targetType == E.PlaceType && e.targetId.PlaceKey? && e.targetId.placeId in places ==>
            places[e.targetId.placeId] in g.places)
      && (e.targetType == E.PromoType && e.targetId.ObjectKey? ==>
            forall k :: k in promos && promos[k].id == e.targetId.oid ==> promos[k] in g.promos)
      && (e.targetType == E.SessionType && e.targetId.ObjectKey? && e.targetId.oid in sessions ==>
            sessions[e.targetId.oid] in g.sessions)
  {
    var e := items[i];
    var index := PromosByOid(promos);
    if e.targetType == E.PlaceType && e.targetId.PlaceKey? && e.targetId.placeId in places {
      SelectMembers(items, PlacePicker(places), places[e.targetId.placeId]);
    }
    if e.targetType == E.PromoType && e.targetId.ObjectKey? {
      forall k | k in promos && promos[k].id == e.targetId.oid
        ensures promos[k] in Select(items, PromoPicker(index))
      {
        SelectMembers(items, PromoPicker(index), promos[k]);
      }
    }
    if e.targetType == E.SessionType && e.targetId.ObjectKey? && e.targetId.oid in sessions {
      SelectMembers(items, SessionPicker(sessions), sessions[e.targetId.oid]);
    }
  }

  /** Saved records hold promos by object id (`createSaved` turns every
      target id but a place's into an ObjectId), so as written the promo
      list is always empty. */
  lemma {:induction false} SavedPromosNeverShownAsWritten(items: seq<E.Edge>, places: map<string, PM.Place>,
                                                          promos: map<string, P.Promo>, sessions: map<Oid, S.Session>)
    requires forall i :: 0 <= i < |items| && items[i].targetType == E.PromoType ==> items[i].targetId.ObjectKey?
    ensures GroupedAsWritten(items, places, promos, sessions).promos == []
  {
    NoneSelected(items, PromoPickerAsWritten(promos));
  }

  /** One saved promo of an existing promo: as written the reply leaves it
      out, the lookup by object id returns it. */
  lemma SavedPromoLostAsWritten(p: P.Promo, me: Oid, now: int)
    ensures var items, promos := [E.Edge(me, E.PromoType, E.ObjectKey(p.id), now)], map[p.promoId := p];
      && PC.PromoIdsDistinct(promos)
      && GroupedAsWritten(items, map[], promos, map[]).promos == []
      && Grouped(items, map[], promos, map[]).promos == [p]
  {
    var items, promos := [E.Edge(me, E.PromoType, E.ObjectKey(p.id), now)], map[p.promoId := p];
    SavedPromosNeverShownAsWritten(items, map[], promos, map[]);
    assert items[..0] == [];
    assert p.promoId in promos && promos[p.promoId] == p;
    var index := PromosByOid(promos);
    assert PromoPicker(index)(items[0]) == Some(p);
    assert Select(items, PromoPicker(index)) == Select(items[..0], PromoPicker(index)) + [p];
  }

  /** Each record's own key: a record is stored under the key it carries. */
  lemma EdgeKeyed(saved: map<E.EdgeKey, E.Edge>, e: E.Edge)
    requires E.EdgesValid(saved) && e in saved.Values
    ensures E.KeyOf(e) in saved
  {
    var k :| k in saved && saved[k] == e;
  }

  /** The places and sessions are stored under their own ids. */
  ghost predicate KeyedByOwnId(places: map<string, PM.Place>, sessions: map<Oid, S.Session>) {
    && (forall k :: k in places ==> places[k].placeId == k)
    && (forall id :: id in sessions ==> sessions[id].id == id)
  }

  /** `getSavedContent`: one page of the caller's saved records (of the
      requested type, if any; page and limit defaulting to 1 and 50),
      grouped. A negative skip makes the store refuse the query, answered
      500 with the store's code. */
  ghost function GetSavedContent(saved: map<E.EdgeKey, E.Edge>, places: map<string, PM.Place>,
                                 promos: map<string, P.Promo>, sessions: map<Oid, S.Session>,
                                 me: Oid, typ: Option<string>, page: Option<int>, limit: Option<int>)
    : (Outcome, Option<SavedContent>)
    requires PC.PromoIdsDistinct(promos)
  {
    var items := E.FindUserEdges(saved, me, TypeFilter(typ), page, limit);
    if items.None? then (NegativeSkipReply, None)
    else (Ok(200), Some(Grouped(items.value, places, promos, sessions)))
  }

  /** The reply: the store's refusal exactly for a negative skip; otherwise
      each list holds
      existing targets of records the caller saved with that list's type,
      at most `limit` in all, and a type filter other than a list's type
      leaves that list empty. */
  lemma {:induction false} GetSavedContentSpec(saved: map<E.EdgeKey, E.Edge>, places: map<string, PM.Place>,
                                               promos: map<string, P.Promo>, sessions: map<Oid, S.Session>,
                                               me: Oid, typ: Option<string>, page: Option<int>, limit: Option<int>)
    requires E.EdgesValid(saved) && KeyedByOwnId(places, sessions) && PC.PromoIdsDistinct(promos)
    ensures var (o, r) := GetSavedContent(saved, places, promos, sessions, me, typ, page, limit);
      && (o.Ok? <==> Skip(PageParam(page, 1), PageParam(limit, 50)) >= 0)
      && (!o.Ok? ==> o == NegativeSkipReply && r.None?)
      && (o.Ok? ==> (o == Ok(200) && r.Some?
            && (PageParam(limit, 50) > 0 ==>
                  |r.value.places| + |r.value.promos| + |r.value.sessions| <= PageParam(limit, 50))
            && (forall p :: p in r.value.places ==>
                  p in places.Values && E.EdgeKey(me, E.PlaceType, E.PlaceKey(p.placeId)) in saved)
            && (forall p :: p in r.value.promos ==>
                  p in promos.Values && E.EdgeKey(me, E.PromoType, E.ObjectKey(p.id)) in saved)
            && (forall s :: s in r.value.sessions ==>
                  s in sessions.Values && E.EdgeKey(me, E.SessionType, E.ObjectKey(s.id)) in saved)
            && (TypeFilter(typ).Some? && TypeFilter(typ) != Some(E.PlaceType) ==> r.value.places == [])
            && (TypeFilter(typ).Some? && TypeFilter(typ) != Some(E.PromoType) ==> r.value.promos == [])
            && (TypeFilter(typ).Some? && TypeFilter(typ) != Some(E.SessionType) ==> r.value.sessions == [])))
  {
    var found := E.FindUserEdges(saved, me, TypeFilter(typ), page, limit);
    if found.Some? {
      var items := found.value;
      var index := PromosByOid(promos);
      GroupedCount(items, places, index, sessions);
      SavedPlaces(saved, places, items, me, TypeFilter(typ));
      SavedPromos(saved, promos, items, me, TypeFilter(typ));
      SavedSessions(saved, sessions, items, me, TypeFilter(typ));
    }
  }

  /** The reply shows the whole page of `findUserSaved`: every record on it
      whose target exists puts that target in its type's list. With
      FindUserEdgesListsEachOnce, paging through the saved content shows
      every saved target that exists. */
  lemma GetSavedContentShowsPage(saved: map<E.EdgeKey, E.Edge>, places: map<string, PM.Place>,
                                 promos: map<string, P.Promo>, sessions: map<Oid, S.Session>,
                                 me: Oid, typ: Option<string>, page: Option<int>, limit: Option<int>, e: E.Edge)
    requires PC.PromoIdsDistinct(promos)
    requires E.FindUserEdges(saved, me, TypeFilter(typ), page, limit).Some?
    requires e in E.FindUserEdges(saved, me, TypeFilter(typ), page, limit).value
    ensures var (o, r) := GetSavedContent(saved, places, promos, sessions, me, typ, page, limit);
      && o == Ok(200) && r.Some?
      && (e.targetType == E.PlaceType && e.targetId.PlaceKey? && e.targetId.placeId in places ==>
            places[e.targetId.placeId] in r.value.places)
      && (e.targetType == E.PromoType && e.targetId.ObjectKey? ==>
            forall k :: k in promos && promos[k].id == e.targetId.oid ==> promos[k] in r.value.promos)
      && (e.targetType == E.SessionType && e.targetId.ObjectKey? && e.targetId.oid in sessions ==>
            sessions[e.targetId.oid] in r.value.sessions)
  {
    var items := E.FindUserEdges(saved, me, TypeFilter(typ), page, limit).value;
    var i :| 0 <= i < |items| && items[i] == e;
    GroupedComplete(items, places, promos, sessions, i);
  }

  /** What the page of the caller's records (of type `t`, if given) says
      about the place list. */
  lemma SavedPlaces(saved: map<E.EdgeKey, E.Edge>, places: map<string, PM.Place>, items: seq<E.Edge>,
                    me: Oid, t: Option<E.TargetType>)
    requires E.EdgesValid(saved) && forall k :: k in places ==> places[k].placeId == k
    requires forall i :: 0 <= i < |items| ==>
      items[i] in saved.Values && items[i].userId == me && (t.Some? ==> items[i].targetType == t.value)
    ensures forall p :: p in Select(items, PlacePicker(places)) ==>
      p in places.Values && E.EdgeKey(me, E.PlaceType, E.PlaceKey(p.placeId)) in saved
    ensures t.Some? && t != Some(E.PlaceType) ==> Select(items, PlacePicker(places)) == []
  {
    forall p | p in Select(items, PlacePicker(places))
      ensures p in places.Values && E.EdgeKey(me, E.PlaceType, E.PlaceKey(p.placeId)) in saved
    {
      SelectMembers(items, PlacePicker(places), p);
      var i :| 0 <= i < |items| && PlacePicker(places)(items[i]) == Some(p);
      EdgeKeyed(saved, items[i]);
    }
    if t.Some? && t != Some(E.PlaceType) {
      NoneSelected(items, PlacePicker(places));
    }
  }

  /** The same for the promo list, looked up by object id. */
  lemma SavedPromos(saved: map<E.EdgeKey, E.Edge>, promos: map<string, P.Promo>, items: seq<E.Edge>,
                    me: Oid, t: Option<E.TargetType>)
    requires E.EdgesValid(saved) && PC.PromoIdsDistinct(promos)
    requires forall i :: 0 <= i < |items| ==>
      items[i] in saved.Values && items[i].userId == me && (t.Some? ==> items[i].targetType == t.value)
    ensures forall p :: p in Select(items, PromoPicker(PromosByOid(promos))) ==>
      p in promos.Values && E.EdgeKey(me, E.PromoType, E.ObjectKey(p.id)) in saved
    ensures t.Some? && t != Some(E.PromoType) ==> Select(items, PromoPicker(PromosByOid(promos))) == []
  {
    var index := PromosByOid(promos);
    forall p | p in Select(items, PromoPicker(index))
      ensures p in promos.Values && E.EdgeKey(me, E.PromoType, E.ObjectKey(p.id)) in saved
    {
      SelectMembers(items, PromoPicker(index), p);
      var i :| 0 <= i < |items| && PromoPicker(index)(items[i]) == Some(p);
      EdgeKeyed(saved, items[i]);
    }
    if t.Some? && t != Some(E.PromoType) {
      NoneSelected(items, PromoPicker(index));
    }
  }

  /** The same for the session list. */
  lemma SavedSessions(saved: map<E.EdgeKey, E.Edge>, sessions: map<Oid, S.Session>, items: seq<E.Edge>,
                      me: Oid, t: Option<E.TargetType>)
    requires E.EdgesValid(saved) && forall id :: id in sessions ==> sessions[id].id == id
    requires forall i :: 0 <= i < |items| ==>
      items[i] in saved.Values && items[i].userId == me && (t.Some? ==> items[i].targetType == t.value)
    ensures forall s :: s in Select(items, SessionPicker(sessions)) ==>
      s in sessions.Values && E.EdgeKey(me, E.SessionType, E.ObjectKey(s.id)) in saved
    ensures t.Some? && t != Some(E.SessionType) ==> Select(items, SessionPicker(sessions)) == []
  {
    forall s | s in Select(items, SessionPicker(sessions))
      ensures s in sessions.Values && E.EdgeKey(me, E.SessionType, E.ObjectKey(s.id)) in saved
    {
      SelectMembers(items, SessionPicker(sessions), s);
      var i :| 0 <= i < |items| && SessionPicker(sessions)(items[i]) == Some(s);
      EdgeKeyed(saved, items[i]);
    }
    if t.Some? && t != Some(E.SessionType) {
      NoneSelected(items, SessionPicker(sessions));
    }
  }

  /** The loop of `getSavedContent` over one page of saved records. */
  method GroupSaved(items: seq<E.Edge>, places: PM.PlaceTable, promos: P.PromoTable, sessions: S.SessionTable)
    returns (c: SavedContent)
    requires places.Valid() && promos.Valid() && sessions.Valid() && PC.PromoIdsDistinct(promos.rows)
    ensures c == Grouped(items, places.rows, promos.rows, sessions.rows)
  {
    var index := PromosByOid(promos.rows);
    c := SavedContent([], [], []);
    var i := 0;
    while i < |items|
      invariant 0 <= i <= |items|
      invariant c == Grouped(items[..i], places.rows, promos.rows, sessions.rows)
    {
      var e := items[i];
      if e.targetType == E.PlaceType {
        if e.targetId.PlaceKey? {
          var place := places.FindPlaceById(e.targetId.placeId);
          if place.Some? {
            c := c.(places := c.places + [place.value]);
          }
        }
      } else if e.targetType == E.PromoType {
        if e.targetId.ObjectKey? && e.targetId.oid in index {
          c := c.(promos := c.promos + [index[e.targetId.oid]]);
        }
      } else if e.targetType == E.SessionType {
        if e.targetId.ObjectKey? {
          var session := sessions.FindSessionById(e.targetId.oid);
          if session.Some? {
            c := c.(sessions := c.sessions + [session.value]);
          }
        }
      }
      assert items[..i + 1][..i] == items[..i];
      i := i + 1;
    }
    assert items[..i] == items;
  }
}
