/** The likes and saved collections (models/Like.js, models/Saved.js). The two
    files are the same code over two collection names, so one table class
    models both: a set of (user, target type, target id) edges, unique per
    key. */
module EdgeModel {
  import opened Common
  import opened Listing

  /** `targetType`. Handlers only write the first four; `Other` stands for any
      other string a query may name. */
  datatype TargetType = PlaceType | PromoType | ReviewType | SessionType | Other(name: string)

  /** `targetId`: kept as the raw string for places and as an ObjectId for
      every other target type (Like.js:13). */
  datatype TargetId = PlaceKey(placeId: string) | ObjectKey(oid: Oid)

  /** How `createLike`/`findLike`/`deleteLike` turn the type and the id they
      are given into the stored `targetId`: the string itself for a place,
      its ObjectId otherwise (`parse` is the ObjectId constructor). */
  function StoredTargetId(t: TargetType, raw: string, parse: string -> Oid): TargetId {
    if t == PlaceType then PlaceKey(raw) else ObjectKey(parse(raw))
  }

  /** The unique index (userId, targetType, targetId). */
  datatype EdgeKey = EdgeKey(userId: Oid, targetType: TargetType, targetId: TargetId)

  datatype Edge = Edge(userId: Oid, targetType: TargetType, targetId: TargetId, createdAt: int)

  function KeyOf(e: Edge): EdgeKey {
    EdgeKey(e.userId, e.targetType, e.targetId)
  }

  ghost predicate EdgesValid(rows: map<EdgeKey, Edge>) {
    forall k :: k in rows ==> KeyOf(rows[k]) == k
  }

  /** `createLike`/`createSaved`: `insertOne`, refused by the unique index. */
  function InsertEdge(rows: map<EdgeKey, Edge>, k: EdgeKey, now: int): (Inserted<Edge>, map<EdgeKey, Edge>) {
    if k in rows then (DuplicateKey, rows)
    else
      var e := Edge(k.userId, k.targetType, k.targetId, now);
      (Inserted(e), rows[k := e])
  }

  /** `deleteLike`/`deleteSaved`: `deleteOne`, true iff a record was removed. */
  function RemoveEdge(rows: map<EdgeKey, Edge>, k: EdgeKey): (bool, map<EdgeKey, Edge>) {
    (k in rows, rows - {k})
  }

  /** Find agrees with create and delete: after a successful create the key is
      found, after a refused one nothing changed, and after a delete the key
      is gone; no other key is affected. */
  lemma {:induction false} FindAgreesWithCreateAndDelete(rows: map<EdgeKey, Edge>, k: EdgeKey, now: int)
    requires EdgesValid(rows)
    ensures var (r, rows') := InsertEdge(rows, k, now);
      && EdgesValid(rows')
      && (r.Inserted? <==> k !in rows)
      && k in rows'
      && (r.Inserted? ==> rows'[k] == r.value && r.value.createdAt == now)
      && (r.DuplicateKey? ==> rows' == rows)
      && (forall j :: j != k ==> (j in rows' <==> j in rows))
    ensures var (deleted, rows') := RemoveEdge(rows, k);
      && EdgesValid(rows')
      && (deleted <==> k in rows)
      && k !in rows'
      && (forall j :: j != k ==> (j in rows' <==> j in rows))
  {
  }

  /** The keys of the edges pointing at one target. */
  function EdgesTo(rows: map<EdgeKey, Edge>, t: TargetType, target: TargetId): set<EdgeKey> {
    set k | k in rows.Keys && k.targetType == t && k.targetId == target
  }

  /** How many edges point at one target: what a likesCount or savesCount
      counter is meant to equal. */
  function CountTo(rows: map<EdgeKey, Edge>, t: TargetType, target: TargetId): nat {
    |EdgesTo(rows, t, target)|
  }

  /** Adding a key that is not there yet adds it to the edges of its own
      target only. */
  lemma {:induction false} EdgesToAfterPut(rows: map<EdgeKey, Edge>, k: EdgeKey, e: Edge, t: TargetType, target: TargetId)
    requires k !in rows
    ensures EdgesTo(rows[k := e], t, target) ==
      EdgesTo(rows, t, target) + (if k.targetType == t && k.targetId == target then {k} else {})
  {
    var a := EdgesTo(rows[k := e], t, target);
    var b := EdgesTo(rows, t, target) + (if k.targetType == t && k.targetId == target then {k} else {});
    forall j | j in a ensures j in b { }
    forall j | j in b ensures j in a { }
  }

  /** A create raises the count of its own target by one when it inserts and
      leaves every count alone otherwise. */
  lemma {:induction false} CountAfterInsert(rows: map<EdgeKey, Edge>, k: EdgeKey, now: int, t: TargetType, target: TargetId)
    ensures CountTo(InsertEdge(rows, k, now).1, t, target) ==
      CountTo(rows, t, target) + (if k !in rows && k.targetType == t && k.targetId == target then 1 else 0)
  {
    if k !in rows {
      EdgesToAfterPut(rows, k, Edge(k.userId, k.targetType, k.targetId, now), t, target);
    }
  }

  /** A delete lowers the count of its own target by one when it removes a
      record and leaves every count alone otherwise. */
  lemma {:induction false} CountAfterRemove(rows: map<EdgeKey, Edge>, k: EdgeKey, t: TargetType, target: TargetId)
    ensures CountTo(RemoveEdge(rows, k).1, t, target) ==
      CountTo(rows, t, target) - (if k in rows && k.targetType == t && k.targetId == target then 1 else 0)
  {
    assert EdgesTo(RemoveEdge(rows, k).1, t, target) == EdgesTo(rows, t, target) - {k};
  }

  /** Which of the asked-for targets of type `t` the user has an edge to:
      what `checkMultipleLikes`/`checkMultipleSaved` return. */
  function EdgedAmong(rows: map<EdgeKey, Edge>, userId: Oid, t: TargetType, targetIds: seq<TargetId>): set<TargetId> {
    set x | x in targetIds && EdgeKey(userId, t, x) in rows
  }

  /** The edges of one user, of type `t` when one is given. */
  ghost function EdgesOfUser(rows: map<EdgeKey, Edge>, userId: Oid, t: Option<TargetType>): set<Edge> {
    set e | e in rows.Values && e.userId == userId && (t.Some? ==> e.targetType == t.value)
  }

  /** `findUserLikes`/`findUserSaved`: the user's edges, of one type when a
      type is given, newest first, page and limit defaulting to 1 and 50. */
  ghost function FindUserEdges(rows: map<EdgeKey, Edge>, userId: Oid, t: Option<TargetType>, page: Option<int>, limit: Option<int>)
    : (r: Option<seq<Edge>>)
    ensures r.None? <==> Skip(PageParam(page, 1), PageParam(limit, 50)) < 0
    ensures r.Some? ==> SortedDesc(r.value, (e: Edge) => e.createdAt)
    ensures r.Some? ==> forall i :: 0 <= i < |r.value| ==>
      r.value[i] in rows.Values && r.value[i].userId == userId && (t.Some? ==> r.value[i].targetType == t.value)
    ensures r.Some? ==> |r.value| <= PageParam(limit, 50) || PageParam(limit, 50) <= 0
    ensures r.Some? ==> r.value == Window(Ordered(EdgesOfUser(rows, userId, t), (e: Edge) => e.createdAt),
                                          Skip(PageParam(page, 1), PageParam(limit, 50)), PageParam(limit, 50)).value
  {
    var p := PageParam(page, 1);
    var l := PageParam(limit, 50);
    var mine := EdgesOfUser(rows, userId, t);
    if Skip(p, l) < 0 then None
    else
      var key := (e: Edge) => e.createdAt;
      var w := Window(Ordered(mine, key), Skip(p, l), l).value;
      PageOfOrdered(mine, key, Skip(p, l), l);
      assert forall i :: 0 <= i < |w| ==> w[i] in mine;
      Some(w)
  }

  /** With a positive limit every edge of the user (of the asked-for type) is
      listed, on exactly one page. */
  lemma FindUserEdgesListsEachOnce(rows: map<EdgeKey, Edge>, userId: Oid, t: Option<TargetType>, limit: int, x: Edge, q: int)
    requires limit >= 1
    requires x in rows.Values && x.userId == userId && (t.Some? ==> x.targetType == t.value)
    requires q >= 1
    ensures FindUserEdges(rows, userId, t, Some(q), Some(limit)).Some?
    ensures x in FindUserEdges(rows, userId, t, Some(q), Some(limit)).value
      <==> q == PageNumber(Ordered(EdgesOfUser(rows, userId, t), (e: Edge) => e.createdAt), limit, x)
  {
    assert PageParam(Some(q), 1) == q && PageParam(Some(limit), 50) == limit;
    MulMono(0, q - 1, limit);
    PageHoldsOnce(EdgesOfUser(rows, userId, t), (e: Edge) => e.createdAt, limit, q, x, FindUserEdges(rows, userId, t, Some(q), Some(limit)).value);
  }

  class EdgeTable {
    var rows: map<EdgeKey, Edge>

    ghost predicate Valid()
      reads this
    {
      EdgesValid(rows)
    }

    constructor ()
      ensures Valid() && rows == map[]
    {
      rows := map[];
    }

    method Create(k: EdgeKey, now: int) returns (r: Inserted<Edge>)
      requires Valid()
      modifies this
      ensures Valid()
      ensures (r, rows) == InsertEdge(old(rows), k, now)
    {
      if k in rows {
        return DuplicateKey;
      }
      var e := Edge(k.userId, k.targetType, k.targetId, now);
      rows := rows[k := e];
      r := Inserted(e);
    }

    function Find(k: EdgeKey): (r: Option<Edge>)
      reads this
      requires Valid()
      ensures r.Some? <==> k in rows
      ensures r.Some? ==> KeyOf(r.value) == k
    {
      if k in rows then Some(rows[k]) else None
    }

    method Delete(k: EdgeKey) returns (deleted: bool)
      requires Valid()
      modifies this
      ensures Valid()
      ensures (deleted, rows) == RemoveEdge(old(rows), k)
    {
      deleted := k in rows;
      rows := rows - {k};
    }

    /** `checkMultipleLikes`/`checkMultipleSaved`. */
    function CheckMultiple(userId: Oid, t: TargetType, targetIds: seq<TargetId>): (r: set<TargetId>)
      reads this
      requires Valid()
      ensures forall x :: x in r <==> x in targetIds && Find(EdgeKey(userId, t, x)).Some?
    {
      EdgedAmong(rows, userId, t, targetIds)
    }
  }
}
