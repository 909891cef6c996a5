/** The friendRequests collection (models/FriendRequest.js): requests
    addressed by their ObjectId, unique per (fromUserId, toUserId), with a
    status that starts pending. */
module FriendRequestModel {
  import opened Common
  import opened Listing

  datatype RequestStatus = Pending | Accepted | Declined

  datatype FriendRequest = FriendRequest(
    id: Oid,
    fromUserId: Oid,
    toUserId: Oid,
    status: RequestStatus,
    createdAt: int,
    updatedAt: int)

  /** Ids below the counter, and the unique index (fromUserId, toUserId). */
  ghost predicate RequestsValid(t: Table<Oid, FriendRequest>) {
    && (forall id :: id in t.rows ==> t.rows[id].id == id && id.n < t.nextId)
    && (forall a, b ::
          (a in t.rows && b in t.rows && t.rows[a].fromUserId == t.rows[b].fromUserId &&
           t.rows[a].toUserId == t.rows[b].toUserId) ==> a == b)
  }

  predicate HasRequest(rows: map<Oid, FriendRequest>, from: Oid, to: Oid) {
    exists id :: id in rows && rows[id].fromUserId == from && rows[id].toUserId == to
  }

  /** `createFriendRequest`: a pending request, refused by the unique index
      when a request from `from` to `to` exists in any status. */
  function InsertRequest(t: Table<Oid, FriendRequest>, from: Oid, to: Oid, now: int): (Inserted<FriendRequest>, Table<Oid, FriendRequest>) {
    if HasRequest(t.rows, from, to) then (DuplicateKey, t)
    else
      var r := FriendRequest(t.Fresh(), from, to, Pending, now, now);
      (Inserted(r), Table(t.rows[r.id := r], t.nextId + 1))
  }

  /** `updateRequestStatus`: `findOneAndUpdate` of status and updatedAt. */
  function SetRequestStatus(t: Table<Oid, FriendRequest>, id: Oid, status: RequestStatus, now: int)
    : (Option<FriendRequest>, Table<Oid, FriendRequest>)
  {
    if id in t.rows then
      var r := t.rows[id].(status := status, updatedAt := now);
      (Some(r), t.(rows := t.rows[id := r]))
    else (None, t)
  }

  /** The pending requests between `a` and `b`, in either direction: what
      `findPendingRequest(a, b)` picks its answer from. */
  function PendingBetween(rows: map<Oid, FriendRequest>, a: Oid, b: Oid): set<Oid> {
    set id | id in rows.Keys && rows[id].status == Pending &&
      ((rows[id].fromUserId == a && rows[id].toUserId == b) || (rows[id].fromUserId == b && rows[id].toUserId == a))
  }

  /** The lookup does not depend on the order of its two arguments. */
  lemma {:induction false} PendingBetweenSymmetric(rows: map<Oid, FriendRequest>, a: Oid, b: Oid)
    ensures PendingBetween(rows, a, b) == PendingBetween(rows, b, a)
  {
    forall id | id in PendingBetween(rows, a, b) ensures id in PendingBetween(rows, b, a) { }
    forall id | id in PendingBetween(rows, b, a) ensures id in PendingBetween(rows, a, b) { }
  }

  /** A created request is pending, stored under a fresh id and addressed as
      asked; the unique pair index refuses a second request in the same
      direction and then nothing changes. */
  lemma {:induction false} InsertRequestSpec(t: Table<Oid, FriendRequest>, from: Oid, to: Oid, now: int)
    requires RequestsValid(t)
    ensures var (r, t') := InsertRequest(t, from, to, now);
      && RequestsValid(t')
      && (r.Inserted? <==> !HasRequest(t.rows, from, to))
      && (r.Inserted? ==> r.value.id !in t.rows && t'.rows[r.value.id] == r.value && r.value.status == Pending &&
                          r.value.fromUserId == from && r.value.toUserId == to)
      && (r.DuplicateKey? ==> t' == t)
  {
    var (r, t') := InsertRequest(t, from, to, now);
    if r.Inserted? {
      var fresh_id := t.Fresh();
      forall a, b | a in t'.rows && b in t'.rows && t'.rows[a].fromUserId == t'.rows[b].fromUserId &&
          t'.rows[a].toUserId == t'.rows[b].toUserId
        ensures a == b
      {
        if a != b && (a == fresh_id || b == fresh_id) {
          assert false;
        }
      }
    }
  }

  /** A status update changes that request's status (and updatedAt) only. */
  lemma {:induction false} SetRequestStatusSpec(t: Table<Oid, FriendRequest>, id: Oid, status: RequestStatus, now: int)
    requires RequestsValid(t)
    ensures var (r, t') := SetRequestStatus(t, id, status, now);
      && RequestsValid(t')
      && (r.Some? <==> id in t.rows)
      && (r.Some? ==> t'.rows[id] == t.rows[id].(status := status, updatedAt := now))
      && (forall other :: other in t.rows && other != id ==> other in t'.rows && t'.rows[other] == t.rows[other])
      && t'.rows.Keys == t.rows.Keys
  {
    var (r2, t2) := SetRequestStatus(t, id, status, now);
    if id in t.rows {
      forall a | a in t2.rows ensures t2.rows[a].fromUserId == t.rows[a].fromUserId && t2.rows[a].toUserId == t.rows[a].toUserId { }
    }
  }

  /** `findIncomingRequests`: the pending requests addressed to `u`, newest first. */
  ghost function FindIncomingRequests(rows: map<Oid, FriendRequest>, u: Oid): (r: seq<FriendRequest>)
    ensures SortedDesc(r, (q: FriendRequest) => q.createdAt)
    ensures forall x :: x in r <==> x in rows.Values && x.toUserId == u && x.status == Pending
  {
    Ordered(set x | x in rows.Values && x.toUserId == u && x.status == Pending, (q: FriendRequest) => q.createdAt)
  }

  class FriendRequestTable {
    var rows: map<Oid, FriendRequest>
    var nextId: nat

    function Snap(): Table<Oid, FriendRequest>
      reads this
    {
      Table(rows, nextId)
    }

    ghost predicate Valid()
      reads this
    {
      RequestsValid(Snap())
    }

    constructor ()
      ensures Valid() && rows == map[] && nextId == 0
    {
      rows := map[];
      nextId := 0;
    }

    method CreateFriendRequest(from: Oid, to: Oid, now: int) returns (r: Inserted<FriendRequest>)
      requires Valid()
      modifies this
      ensures Valid()
      ensures (r, Snap()) == InsertRequest(old(Snap()), from, to, now)
    {
      InsertRequestSpec(Snap(), from, to, now);
      if HasRequest(rows, from, to) {
        return DuplicateKey;
      }
      var q := FriendRequest(Oid(nextId), from, to, Pending, now, now);
      rows := rows[q.id := q];
      nextId := nextId + 1;
      r := Inserted(q);
    }

    function FindRequestById(id: Oid): (r: Option<FriendRequest>)
      reads this
      requires Valid()
      ensures r.Some? <==> id in rows
      ensures r.Some? ==> r.value == rows[id] && r.value.id == id
    {
      if id in rows then Some(rows[id]) else None
    }

    /** `findPendingRequest(a, b)`: some pending request between the two users,
        in either direction, or None when there is none. */
    method FindPendingRequest(a: Oid, b: Oid) returns (r: Option<FriendRequest>)
      requires Valid()
      ensures r.None? <==> PendingBetween(rows, a, b) == {}
      ensures r.Some? ==> r.value.id in PendingBetween(rows, a, b) && rows[r.value.id] == r.value
    {
      var found := PendingBetween(rows, a, b);
      if found == {} {
        return None;
      }
      var id :| id in found;
      r := Some(rows[id]);
    }

    method UpdateRequestStatus(id: Oid, status: RequestStatus, now: int) returns (r: Option<FriendRequest>)
      requires Valid()
      modifies this
      ensures Valid()
      ensures (r, Snap()) == SetRequestStatus(old(Snap()), id, status, now)
    {
      SetRequestStatusSpec(Snap(), id, status, now);
      if id in rows {
        var q := rows[id].(status := status, updatedAt := now);
        rows := rows[id := q];
        r := Some(q);
      } else {
        r := None;
      }
    }
  }
}
