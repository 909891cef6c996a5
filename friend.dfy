/** The friends collection (models/Friend.js): one row per direction of a
    friendship, unique per (userId, friendId); rows are inserted and deleted
    in pairs. */
module FriendModel {
  import opened Common
  import opened Listing

  datatype Friendship = Friendship(userId: Oid, friendId: Oid, createdAt: int)

  /** The unique index (userId, friendId). */
  type FriendKey = (Oid, Oid)

  ghost predicate FriendsValid(rows: map<FriendKey, Friendship>) {
    forall k :: k in rows ==> rows[k].userId == k.0 && rows[k].friendId == k.1
  }

  /** Every friendship row has its mirror row. */
  ghost predicate Symmetric(rows: map<FriendKey, Friendship>) {
    forall k :: k in rows ==> (k.1, k.0) in rows
  }

  /** `createFriendship`: an ordered `insertMany` of (u1, u2) then (u2, u1).
      The first duplicate stops it with an error; a row inserted before the
      failure stays. */
  function InsertPair(rows: map<FriendKey, Friendship>, u1: Oid, u2: Oid, now: int): (bool, map<FriendKey, Friendship>) {
    if (u1, u2) in rows then (false, rows)
    else
      var rows1 := rows[(u1, u2) := Friendship(u1, u2, now)];
      if (u2, u1) in rows1 then (false, rows1)
      else (true, rows1[(u2, u1) := Friendship(u2, u1, now)])
  }

  /** `deleteFriendship`: `deleteMany` of both directions. */
  function RemovePair(rows: map<FriendKey, Friendship>, u: Oid, f: Oid): map<FriendKey, Friendship> {
    rows - {(u, f), (f, u)}
  }

  /** `areFriends`. */
  function AreFriends(rows: map<FriendKey, Friendship>, u: Oid, f: Oid): bool {
    (u, f) in rows
  }

  /** On symmetric rows, a pair insert between two distinct users that are not
      yet friends always succeeds and adds exactly both directions; it keeps
      the rows symmetric. If either direction exists it fails. */
  lemma {:induction false} InsertPairOnSymmetric(rows: map<FriendKey, Friendship>, u1: Oid, u2: Oid, now: int)
    requires FriendsValid(rows) && Symmetric(rows)
    ensures var (ok, rows') := InsertPair(rows, u1, u2, now);
      && FriendsValid(rows')
      && (u1 != u2 ==> Symmetric(rows'))
      && (ok <==> u1 != u2 && (u1, u2) !in rows)
      && (ok ==> rows' == rows[(u1, u2) := Friendship(u1, u2, now)][(u2, u1) := Friendship(u2, u1, now)])
      && (!ok && u1 != u2 ==> rows' == rows)
  {
    var (ok, rows') := InsertPair(rows, u1, u2, now);
    if u1 != u2 && (u1, u2) !in rows {
      assert (u2, u1) !in rows;
    }
  }

  /** Deleting both directions keeps the rows symmetric, and afterwards the two
      users are friends in neither direction; no other pair is touched. */
  lemma {:induction false} RemovePairSpec(rows: map<FriendKey, Friendship>, u: Oid, f: Oid)
    requires FriendsValid(rows) && Symmetric(rows)
    ensures var rows' := RemovePair(rows, u, f);
      && FriendsValid(rows') && Symmetric(rows')
      && !AreFriends(rows', u, f) && !AreFriends(rows', f, u)
      && (forall k :: k != (u, f) && k != (f, u) ==> (k in rows' <==> k in rows))
  {
    var rows' := RemovePair(rows, u, f);
    forall k | k in rows' ensures (k.1, k.0) in rows' {
      assert (k.1, k.0) in rows;
    }
  }

  /** On symmetric rows friendship is a symmetric relation. */
  lemma {:induction false} AreFriendsSymmetric(rows: map<FriendKey, Friendship>, u: Oid, f: Oid)
    requires Symmetric(rows)
    ensures AreFriends(rows, u, f) <==> AreFriends(rows, f, u)
  {
    if (u, f) in rows { assert ((u, f).1, (u, f).0) in rows; }
    if (f, u) in rows { assert ((f, u).1, (f, u).0) in rows; }
  }

  /** `findUserFriends`: the user's rows, newest first. */
  ghost function FindUserFriends(rows: map<FriendKey, Friendship>, u: Oid): (r: seq<Friendship>)
    ensures SortedDesc(r, (f: Friendship) => f.createdAt)
    ensures forall x :: x in r <==> x in rows.Values && x.userId == u
  {
    Ordered(set x | x in rows.Values && x.userId == u, (f: Friendship) => f.createdAt)
  }

  class FriendTable {
    var rows: map<FriendKey, Friendship>

    ghost predicate Valid()
      reads this
    {
      FriendsValid(rows)
    }

    constructor ()
      ensures Valid() && rows == map[]
    {
      rows := map[];
    }

    /** `createFriendship`: the two inserts of `insertMany`, in order. */
    method CreateFriendship(u1: Oid, u2: Oid, now: int) returns (ok: bool)
      requires Valid()
      modifies this
      ensures Valid()
      ensures (ok, rows) == InsertPair(old(rows), u1, u2, now)
    {
      if (u1, u2) in rows {
        return false;
      }
      rows := rows[(u1, u2) := Friendship(u1, u2, now)];
      if (u2, u1) in rows {
        return false;
      }
      rows := rows[(u2, u1) := Friendship(u2, u1, now)];
      ok := true;
    }

    function FindFriendship(u: Oid, f: Oid): (r: Option<Friendship>)
      reads this
      requires Valid()
      ensures r.Some? <==> AreFriends(rows, u, f)
      ensures r.Some? ==> r.value.userId == u && r.value.friendId == f
    {
      if (u, f) in rows then Some(rows[(u, f)]) else None
    }

    method DeleteFriendship(u: Oid, f: Oid)
      requires Valid()
      modifies this
      ensures Valid()
      ensures rows == RemovePair(old(rows), u, f)
    {
      rows := rows - {(u, f), (f, u)};
    }
  }
}
