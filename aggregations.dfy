/** The listing helpers (utils/aggregations.js) and the personalisation flags
    the place and promo listings compute the same way: whether the caller has
    liked and saved each item, and the public summary of each item's user. */
module Aggregations {
  import opened Common
  import opened Listing
  import E = EdgeModel
  import U = UserModel

  /** An item as a listing sends it, with the caller's two flags. */
  datatype Flagged<T> = Flagged(item: T, isLikedByMe: bool, isSavedByMe: bool)

  /** The stored target ids of the items, in order. */
  function KeysOf<T>(items: seq<T>, key: T -> E.TargetId): (r: seq<E.TargetId>)
    ensures |r| == |items|
    ensures forall i :: 0 <= i < |items| ==> r[i] == key(items[i])
  {
    seq(|items|, i requires 0 <= i < |items| => key(items[i]))
  }

  /** Each item with its flags: membership of its key in the two id lists. */
  function WithFlags<T>(items: seq<T>, key: T -> E.TargetId, liked: set<E.TargetId>, saved: set<E.TargetId>)
    : seq<Flagged<T>>
  {
    seq(|items|, i requires 0 <= i < |items| => Flagged(items[i], key(items[i]) in liked, key(items[i]) in saved))
  }

  /** The flags the place and promo listings compute: both false without a
      caller; otherwise `checkMultipleLikes`/`checkMultipleSaved` over the
      listed keys, and each flag is membership of the item's key. */
  function PersonalFlags<T>(items: seq<T>, key: T -> E.TargetId, t: E.TargetType, me: Option<Oid>,
                            likes: map<E.EdgeKey, E.Edge>, saved: map<E.EdgeKey, E.Edge>): seq<Flagged<T>>
  {
    if me.None? then WithFlags(items, key, {}, {})
    else
      var ids := KeysOf(items, key);
      WithFlags(items, key, E.EdgedAmong(likes, me.value, t, ids), E.EdgedAmong(saved, me.value, t, ids))
  }

  /** The flags keep the items and their order, are false for an anonymous
      caller, and otherwise say exactly whether the caller's like (saved)
      record for that item exists. */
  lemma {:induction false} PersonalFlagsSpec<T>(items: seq<T>, key: T -> E.TargetId, t: E.TargetType, me: Option<Oid>,
                                                likes: map<E.EdgeKey, E.Edge>, saved: map<E.EdgeKey, E.Edge>)
    ensures var r := PersonalFlags(items, key, t, me, likes, saved);
      && |r| == |items|
      && (forall i :: 0 <= i < |r| ==> r[i].item == items[i])
      && (forall i :: 0 <= i < |r| ==>
            (r[i].isLikedByMe <==> me.Some? && E.EdgeKey(me.value, t, key(items[i])) in likes) &&
            (r[i].isSavedByMe <==> me.Some? && E.EdgeKey(me.value, t, key(items[i])) in saved))
  {
    var r := PersonalFlags(items, key, t, me, likes, saved);
    if me.Some? {
      var ids := KeysOf(items, key);
      forall i | 0 <= i < |r|
        ensures (r[i].isLikedByMe <==> E.EdgeKey(me.value, t, key(items[i])) in likes)
        ensures (r[i].isSavedByMe <==> E.EdgeKey(me.value, t, key(items[i])) in saved)
      {
        assert ids[i] == key(items[i]) && ids[i] in ids;
      }
    }
  }

  // ---------------------------------------------------------------------------
  // addPersonalizationFlags, as the helper computes it

  /** The fields the helper looks at; a string field that is absent or empty
      is falsy. */
  datatype Item = Item(id: Option<Oid>, placeId: Option<string>, promoId: Option<string>)

  predicate Present(s: Option<string>) {
    s.Some? && s.value != ""
  }

  /** The target type the helper guesses from the first item: 'place' when it
      has a placeId, else 'promo' when it has a promoId, else 'session'. */
  function GuessedType(first: Item): E.TargetType {
    if Present(first.placeId) then E.PlaceType
    else if Present(first.promoId) then E.PromoType
    else E.SessionType
  }

  /** `item._id || item.placeId || item.promoId`, as the stored target id
      `checkMultipleLikes` compares it with under type `t`: the id itself,
      or a string kept as is for 'place' and parsed to an ObjectId otherwise. */
  function ItemKey(item: Item, t: E.TargetType, parse: string -> Oid): Option<E.TargetId> {
    if item.id.Some? then Some(E.ObjectKey(item.id.value))
    else if Present(item.placeId) then Some(E.StoredTargetId(t, item.placeId.value, parse))
    else if Present(item.promoId) then Some(E.StoredTargetId(t, item.promoId.value, parse))
    else None
  }

  function ItemKeys(items: seq<Item>, t: E.TargetType, parse: string -> Oid): (r: seq<E.TargetId>)
    ensures forall x :: x in r <==> exists i :: 0 <= i < |items| && ItemKey(items[i], t, parse) == Some(x)
    decreases |items|
  {
    if items == [] then []
    else
      var head := if ItemKey(items[0], t, parse).Some? then [ItemKey(items[0], t, parse).value] else [];
      var rest := ItemKeys(items[1..], t, parse);
      assert forall i :: 0 < i < |items| ==> items[i] == items[1..][i - 1];
      assert forall i :: 0 <= i < |items| - 1 ==> items[1..][i] == items[i + 1];
      head + rest
  }

  /** `addPersonalizationFlags` as written: both flags false without a user
      or items; otherwise the ids are looked up under the guessed type. */
  function AddPersonalizationFlagsAsWritten(items: seq<Item>, userId: Option<Oid>, likes: map<E.EdgeKey, E.Edge>,
                                            saved: map<E.EdgeKey, E.Edge>, parse: string -> Oid): seq<Flagged<Item>>
  {
    if userId.None? || items == [] then
      seq(|items|, i requires 0 <= i < |items| => Flagged(items[i], false, false))
    else
      var t := GuessedType(items[0]);
      var ids := ItemKeys(items, t, parse);
      var liked := E.EdgedAmong(likes, userId.value, t, ids);
      var savedIds := E.EdgedAmong(saved, userId.value, t, ids);
      seq(|items|, i requires 0 <= i < |items| =>
        var k := ItemKey(items[i], t, parse);
        Flagged(items[i], k.Some? && k.value in liked, k.Some? && k.value in savedIds))
  }

  /** The helper keeps the items and their order, and each flag says whether
      the item's id is among those the user has an edge to under the guessed
      type. */
  lemma {:induction false} AsWrittenFlagsByMembership(items: seq<Item>, userId: Option<Oid>, likes: map<E.EdgeKey, E.Edge>,
                                                      saved: map<E.EdgeKey, E.Edge>, parse: string -> Oid)
    ensures var r := AddPersonalizationFlagsAsWritten(items, userId, likes, saved, parse);
      && |r| == |items|
      && (forall i :: 0 <= i < |r| ==> r[i].item == items[i])
      && (userId.None? ==> forall i :: 0 <= i < |r| ==> !r[i].isLikedByMe && !r[i].isSavedByMe)
      && (userId.Some? && items != [] ==> forall i :: 0 <= i < |r| ==>
            var k := ItemKey(items[i], GuessedType(items[0]), parse);
            (r[i].isLikedByMe <==> k.Some? && E.EdgeKey(userId.value, GuessedType(items[0]), k.value) in likes))
  {
    if userId.Some? && items != [] {
      var t := GuessedType(items[0]);
      var ids := ItemKeys(items, t, parse);
      forall i | 0 <= i < |items| && ItemKey(items[i], t, parse).Some?
        ensures ItemKey(items[i], t, parse).value in ids
      {
        assert ItemKey(items[i], t, parse) == Some(ItemKey(items[i], t, parse).value);
      }
    }
  }

  /** A liked promo in a promo listing is shown as not liked: a promo has a
      placeId, so the helper looks its id up among place likes. */
  lemma LikedPromoShownUnliked(parse: string -> Oid)
    ensures var me, promo := Oid(1), Oid(7);
      var item := Item(Some(promo), Some("cafe"), Some("spring"));
      var k := E.EdgeKey(me, E.PromoType, E.ObjectKey(promo));
      var likes := map[k := E.Edge(me, E.PromoType, E.ObjectKey(promo), 0)];
      && !AddPersonalizationFlagsAsWritten([item], Some(me), likes, map[], parse)[0].isLikedByMe
      && PersonalFlags([item], (x: Item) => E.ObjectKey(x.id.GetOr(Oid(0))), E.PromoType, Some(me), likes, map[])[0].isLikedByMe
  {
    var me, promo := Oid(1), Oid(7);
    var item := Item(Some(promo), Some("cafe"), Some("spring"));
    var k := E.EdgeKey(me, E.PromoType, E.ObjectKey(promo));
    var likes := map[k := E.Edge(me, E.PromoType, E.ObjectKey(promo), 0)];
    AsWrittenFlagsByMembership([item], Some(me), likes, map[], parse);
    PersonalFlagsSpec([item], (x: Item) => E.ObjectKey(x.id.GetOr(Oid(0))), E.PromoType, Some(me), likes, map[]);
  }

  /** A liked place in a place listing is shown as not liked: the helper asks
      for the place's `_id`, but place likes are stored under the placeId. */
  lemma LikedPlaceShownUnliked(parse: string -> Oid)
    ensures var me, place := Oid(1), Oid(3);
      var item := Item(Some(place), Some("cafe"), None);
      var k := E.EdgeKey(me, E.PlaceType, E.PlaceKey("cafe"));
      var likes := map[k := E.Edge(me, E.PlaceType, E.PlaceKey("cafe"), 0)];
      && !AddPersonalizationFlagsAsWritten([item], Some(me), likes, map[], parse)[0].isLikedByMe
      && PersonalFlags([item], (x: Item) => E.PlaceKey(x.placeId.GetOr("")), E.PlaceType, Some(me), likes, map[])[0].isLikedByMe
  {
    var me, place := Oid(1), Oid(3);
    var item := Item(Some(place), Some("cafe"), None);
    var k := E.EdgeKey(me, E.PlaceType, E.PlaceKey("cafe"));
    var likes := map[k := E.Edge(me, E.PlaceType, E.PlaceKey("cafe"), 0)];
    AsWrittenFlagsByMembership([item], Some(me), likes, map[], parse);
    PersonalFlagsSpec([item], (x: Item) => E.PlaceKey(x.placeId.GetOr("")), E.PlaceType, Some(me), likes, map[]);
  }

  // ---------------------------------------------------------------------------
  // populateUserDetails

  /** The ids `s` names, each once, in order of first occurrence: the
      `new Set` of the ids with the falsy ones dropped. */
  function UniqueIds(s: seq<Option<Oid>>): (r: seq<Oid>)
    ensures Distinct(r)
    ensures forall u :: u in r <==> Some(u) in s
    decreases |s|
  {
    if s == [] then []
    else
      var rest := UniqueIds(s[..|s| - 1]);
      var last := s[|s| - 1];
      assert forall x :: x in s <==> x in s[..|s| - 1] || x == last;
      if last.None? || last.value in rest then rest else rest + [last.value]
  }

  /** The user ids the items name, each once. */
  function UserIdsOf<T>(items: seq<T>, userIdOf: T -> Option<Oid>): (r: seq<Oid>)
    ensures Distinct(r)
    ensures forall u :: u in r <==> exists i :: 0 <= i < |items| && userIdOf(items[i]) == Some(u)
  {
    var named := seq(|items|, i requires 0 <= i < |items| => userIdOf(items[i]));
    assert forall i :: 0 <= i < |items| ==> named[i] == userIdOf(items[i]);
    assert forall u :: Some(u) in named <==> exists i :: 0 <= i < |items| && userIdOf(items[i]) == Some(u);
    UniqueIds(named)
  }

  /** The `userMap` built from the lookups: each found user's summary under
      its id. */
  function UserMap(users: map<Oid, U.User>, ids: seq<Oid>): (m: map<Oid, U.UserSummary>)
    ensures forall u :: u in m <==> u in ids && u in users
    ensures forall u :: u in m ==> m[u] == U.Summary(users[u])
  {
    map u | u in ids && u in users :: U.Summary(users[u])
  }

  /** `populateUserDetails`: None when the items come back unchanged (no
      items, or none naming a user); otherwise each item's `user`, the
      summary of its user or null. */
  function PopulateUserDetails<T>(items: seq<T>, userIdOf: T -> Option<Oid>, users: map<Oid, U.User>)
    : Option<seq<Option<U.UserSummary>>>
  {
    if items == [] then None
    else
      var ids := UserIdsOf(items, userIdOf);
      if ids == [] then None
      else
        var m := UserMap(users, ids);
        Some(seq(|items|, i requires 0 <= i < |items| =>
          var u := userIdOf(items[i]);
          if u.Some? && u.value in m then Some(m[u.value]) else None))
  }

  /** The items come back unchanged exactly when none names a user; otherwise
      each item gets the summary of its own user when that user exists and
      null when it does not, and each user is looked up once. */
  lemma {:induction false} PopulateUserDetailsSpec<T>(items: seq<T>, userIdOf: T -> Option<Oid>, users: map<Oid, U.User>)
    ensures var r := PopulateUserDetails(items, userIdOf, users);
      && (r.None? <==> forall i :: 0 <= i < |items| ==> userIdOf(items[i]).None?)
      && (r.Some? ==> |r.value| == |items| && forall i :: 0 <= i < |items| ==>
            r.value[i] == (if userIdOf(items[i]).Some? && userIdOf(items[i]).value in users
                           then Some(U.Summary(users[userIdOf(items[i]).value])) else None))
    ensures Distinct(UserIdsOf(items, userIdOf))
  {
    var ids := UserIdsOf(items, userIdOf);
    forall i | 0 <= i < |items| && userIdOf(items[i]).Some? ensures userIdOf(items[i]).value in ids { }
    if items != [] && ids != [] {
      var u := ids[0];
      assert u in ids;
    }
  }
}
