/** The friend handlers (controllers/friendController.js): sending,
    accepting and declining friend requests, removing a friend, and the two
    listings.

    As for the session handlers, each handler is a method over the tables it
    touches, specified by a step function over their values. The invariant
    the handlers keep together is `FriendGraphValid`: friendships come in
    mirrored pairs between two distinct users, and while a request between
    two users is pending they are not friends and no other request between
    them is pending. */
module FriendController {
  import opened Common
  import opened Listing
  import opened FriendRequestModel
  import U = UserModel
  import F = FriendModel
  import N = NotificationModel

  // ---------------------------------------------------------------------------
  // Notifications the handlers send

  function RequestNotice(q: FriendRequest, me: Oid, myName: string): N.NewNotification {
    N.NewNotification(q.toUserId, N.FriendRequest, "New friend request",
                      Some(myName + " sent you a friend request"),
                      Some(map["fromUserId" := me, "requestId" := q.id]))
  }

  function AcceptedNotice(q: FriendRequest, me: Oid, myName: string): N.NewNotification {
    N.NewNotification(q.fromUserId, N.FriendAccepted, "Friend request accepted",
                      Some(myName + " accepted your friend request"),
                      Some(map["fromUserId" := me]))
  }

  // ---------------------------------------------------------------------------
  // The steps

  const InvalidRequest := Fail(400, "INVALID_REQUEST")
  const UserNotFound := Fail(404, "USER_NOT_FOUND")
  const AlreadyFriends := Fail(409, "ALREADY_FRIENDS")
  const RequestExists := Fail(409, "REQUEST_EXISTS")
  const RequestNotFound := Fail(404, "REQUEST_NOT_FOUND")
  const Forbidden := Fail(403, "FORBIDDEN")
  const InvalidStatus := Fail(400, "INVALID_STATUS")
  const NotFriends := Fail(404, "NOT_FRIENDS")

  /** `sendFriendRequest` from `me` to `to`. A request already stored in the
      same direction, whatever its status, makes the insert fail on the
      unique index, which the error handler answers with 409 DUPLICATE_KEY. */
  function SendStep(requests: Table<Oid, FriendRequest>, friends: map<F.FriendKey, F.Friendship>,
                    users: map<Oid, U.User>, notes: N.Notes, me: Oid, myName: string, to: Oid, now: int)
    : (Outcome, Table<Oid, FriendRequest>, N.Notes)
  {
    if me == to then (InvalidRequest, requests, notes)
    else if to !in users then (UserNotFound, requests, notes)
    else if F.AreFriends(friends, me, to) then (AlreadyFriends, requests, notes)
    else if PendingBetween(requests.rows, me, to) != {} then (RequestExists, requests, notes)
    else
      var (ins, requests') := InsertRequest(requests, me, to, now);
      if ins.DuplicateKey? then (DuplicateKeyReply, requests, notes)
      else (Ok(201), requests', N.InsertNotification(notes, RequestNotice(ins.value, me, myName), now))
  }

  /** The three guards accept and decline share: the request exists, is
      addressed to `me`, and is still pending. */
  function AnswerGuard(requests: Table<Oid, FriendRequest>, me: Oid, rid: Oid): Option<Outcome> {
    if rid !in requests.rows then Some(RequestNotFound)
    else if requests.rows[rid].toUserId != me then Some(Forbidden)
    else if requests.rows[rid].status != Pending then Some(InvalidStatus)
    else None
  }

  /** `acceptFriendRequest`: mark the request accepted, insert both directions
      of the friendship, notify the sender. A failing friendship insert is
      answered 409 DUPLICATE_KEY after the status update has been written. */
  function AcceptRequestStep(requests: Table<Oid, FriendRequest>, friends: map<F.FriendKey, F.Friendship>,
                             notes: N.Notes, me: Oid, myName: string, rid: Oid, now: int)
    : (Outcome, Table<Oid, FriendRequest>, map<F.FriendKey, F.Friendship>, N.Notes)
  {
    var guard := AnswerGuard(requests, me, rid);
    if guard.Some? then (guard.value, requests, friends, notes)
    else
      var q := requests.rows[rid];
      var requests' := SetRequestStatus(requests, rid, Accepted, now).1;
      var (ok, friends') := F.InsertPair(friends, q.fromUserId, q.toUserId, now);
      if !ok then (DuplicateKeyReply, requests', friends', notes)
      else (Ok(200), requests', friends', N.InsertNotification(notes, AcceptedNotice(q, me, myName), now))
  }

  /** `declineFriendRequest`: mark the request declined; nothing else. */
  function DeclineRequestStep(requests: Table<Oid, FriendRequest>, me: Oid, rid: Oid, now: int)
    : (Outcome, Table<Oid, FriendRequest>)
  {
    var guard := AnswerGuard(requests, me, rid);
    if guard.Some? then (guard.value, requests)
    else (Ok(200), SetRequestStatus(requests, rid, Declined, now).1)
  }

  /** `removeFriend`: delete both directions of an existing friendship. */
  function RemoveFriendStep(friends: map<F.FriendKey, F.Friendship>, me: Oid, friendId: Oid)
    : (Outcome, map<F.FriendKey, F.Friendship>)
  {
    if !F.AreFriends(friends, me, friendId) then (NotFriends, friends)
    else (Ok(200), F.RemovePair(friends, me, friendId))
  }

  // ---------------------------------------------------------------------------
  // The listings

  /** The five fields `getFriends` shows of each friend. */
  datatype FriendView = FriendView(id: Oid, username: string, displayName: string, avatarUrl: Option<string>, bio: string)

  function FriendViewOf(u: U.User): FriendView {
    FriendView(u.id, u.username, u.displayName, u.avatarUrl, u.bio)
  }

  /** The friends' records looked up in order, those not found dropped. */
  function FriendViews(users: map<Oid, U.User>, fs: seq<F.Friendship>): (r: seq<FriendView>)
    ensures |r| <= |fs|
    ensures forall v :: v in r <==> exists f :: f in fs && f.friendId in users && v == FriendViewOf(users[f.friendId])
    decreases |fs|
  {
    if fs == [] then []
    else
      var rest := FriendViews(users, fs[1..]);
      var head := if fs[0].friendId in users then [FriendViewOf(users[fs[0].friendId])] else [];
      assert forall f :: f in fs <==> f == fs[0] || f in fs[1..];
      head + rest
  }

  /** `getFriends`: the user's friendships newest first, mapped to the
      friends' public fields. */
  ghost function GetFriends(friends: map<F.FriendKey, F.Friendship>, users: map<Oid, U.User>, me: Oid): seq<FriendView> {
    FriendViews(users, F.FindUserFriends(friends, me))
  }

  /** One entry of `getIncomingRequests`: the request and its sender's summary,
      or null for a sender that no longer exists. */
  datatype IncomingView = IncomingView(id: Oid, status: RequestStatus, createdAt: int, from: Option<U.UserSummary>)

  function IncomingViewOf(users: map<Oid, U.User>, q: FriendRequest): IncomingView {
    IncomingView(q.id, q.status, q.createdAt,
                 if q.fromUserId in users then Some(U.Summary(users[q.fromUserId])) else None)
  }

  /** `getIncomingRequests`: the pending requests to `me`, newest first, each
      with its sender. */
  ghost function GetIncoming(requests: map<Oid, FriendRequest>, users: map<Oid, U.User>, me: Oid): seq<IncomingView> {
    var qs := FindIncomingRequests(requests, me);
    seq(|qs|, i requires 0 <= i < |qs| => IncomingViewOf(users, qs[i]))
  }

  // ---------------------------------------------------------------------------
  // The invariant

  /** Two requests join the same two users, in either direction. */
  predicate SamePair(a: FriendRequest, b: FriendRequest) {
    (a.fromUserId == b.fromUserId && a.toUserId == b.toUserId) ||
    (a.fromUserId == b.toUserId && a.toUserId == b.fromUserId)
  }

  ghost predicate FriendGraphValid(requests: Table<Oid, FriendRequest>, friends: map<F.FriendKey, F.Friendship>) {
    && RequestsValid(requests)
    && F.FriendsValid(friends) && F.Symmetric(friends)
    && (forall k :: k in friends ==> k.0 != k.1)
    && (forall id :: id in requests.rows ==> requests.rows[id].fromUserId != requests.rows[id].toUserId)
    && (forall id :: id in requests.rows && requests.rows[id].status == Pending ==>
          (requests.rows[id].fromUserId, requests.rows[id].toUserId) !in friends)
    && (forall a, b ::
          (a in requests.rows && b in requests.rows &&
           requests.rows[a].status == Pending && requests.rows[b].status == Pending &&
           SamePair(requests.rows[a], requests.rows[b])) ==> a == b)
  }

  /** Adding a pending request between two distinct users that are not
      friends and have no request pending between them keeps the invariant. */
  lemma {:induction false} AddPendingKeepsInvariant(requests: Table<Oid, FriendRequest>, requests': Table<Oid, FriendRequest>,
                                                    friends: map<F.FriendKey, F.Friendship>, q: FriendRequest)
    requires FriendGraphValid(requests, friends)
    requires RequestsValid(requests')
    requires q.id !in requests.rows && q.status == Pending && q.fromUserId != q.toUserId
    requires (q.fromUserId, q.toUserId) !in friends && PendingBetween(requests.rows, q.fromUserId, q.toUserId) == {}
    requires requests'.rows == requests.rows[q.id := q]
    ensures FriendGraphValid(requests', friends)
  {
    var rows, rows' := requests.rows, requests'.rows;
    assert forall id :: id in rows' && id != q.id ==> id in rows && rows'[id] == rows[id];
    forall a, b | a in rows' && b in rows' && rows'[a].status == Pending && rows'[b].status == Pending &&
        SamePair(rows'[a], rows'[b])
      ensures a == b
    {
      assert a !in PendingBetween(rows, q.fromUserId, q.toUserId) && b !in PendingBetween(rows, q.fromUserId, q.toUserId);
    }
    assert forall id :: id in rows' && rows'[id].status == Pending ==> (rows'[id].fromUserId, rows'[id].toUserId) !in friends;
  }

  /** A send keeps the invariant: the new request joins two distinct users
      that are not friends and have no pending request between them. */
  lemma {:induction false} SendKeepsInvariant(requests: Table<Oid, FriendRequest>, friends: map<F.FriendKey, F.Friendship>,
                                              users: map<Oid, U.User>, notes: N.Notes, me: Oid, myName: string, to: Oid, now: int)
    requires FriendGraphValid(requests, friends)
    ensures FriendGraphValid(SendStep(requests, friends, users, notes, me, myName, to, now).1, friends)
  {
    var (o, requests', notes') := SendStep(requests, friends, users, notes, me, myName, to, now);
    if o.Ok? {
      InsertRequestSpec(requests, me, to, now);
      var q := FriendRequest(requests.Fresh(), me, to, Pending, now, now);
      AddPendingKeepsInvariant(requests, requests', friends, q);
    }
  }

  /** Accepting turns the one pending request between the pair into a
      friendship in both directions, which keeps the invariant. */
  lemma {:induction false} AcceptKeepsInvariant(requests: Table<Oid, FriendRequest>, friends: map<F.FriendKey, F.Friendship>,
                                                notes: N.Notes, me: Oid, myName: string, rid: Oid, now: int)
    requires FriendGraphValid(requests, friends)
    ensures var (o, requests', friends', notes') := AcceptRequestStep(requests, friends, notes, me, myName, rid, now);
      FriendGraphValid(requests', friends')
  {
    if AnswerGuard(requests, me, rid).None? {
      var q := requests.rows[rid];
      var (a, b) := (q.fromUserId, q.toUserId);
      SetRequestStatusSpec(requests, rid, Accepted, now);
      F.InsertPairOnSymmetric(friends, a, b, now);
      var requests' := SetRequestStatus(requests, rid, Accepted, now).1;
      var friends' := friends[(a, b) := F.Friendship(a, b, now)][(b, a) := F.Friendship(b, a, now)];
      assert F.InsertPair(friends, a, b, now) == (true, friends');
      forall id | id in requests'.rows && requests'.rows[id].status == Pending
        ensures (requests'.rows[id].fromUserId, requests'.rows[id].toUserId) !in friends'
      {
        assert id != rid && requests'.rows[id] == requests.rows[id];
        assert !SamePair(requests.rows[id], q);
      }
      forall x, y | x in requests'.rows && y in requests'.rows &&
          requests'.rows[x].status == Pending && requests'.rows[y].status == Pending &&
          SamePair(requests'.rows[x], requests'.rows[y])
        ensures x == y
      {
        assert x != rid && y != rid;
        assert requests'.rows[x] == requests.rows[x] && requests'.rows[y] == requests.rows[y];
      }
    }
  }

  /** Declining only takes a request out of the pending ones. */
  lemma {:induction false} DeclineKeepsInvariant(requests: Table<Oid, FriendRequest>, friends: map<F.FriendKey, F.Friendship>,
                                                 me: Oid, rid: Oid, now: int)
    requires FriendGraphValid(requests, friends)
    ensures FriendGraphValid(DeclineRequestStep(requests, me, rid, now).1, friends)
  {
    if AnswerGuard(requests, me, rid).None? {
      SetRequestStatusSpec(requests, rid, Declined, now);
      var requests' := SetRequestStatus(requests, rid, Declined, now).1;
      forall x, y | x in requests'.rows && y in requests'.rows &&
          requests'.rows[x].status == Pending && requests'.rows[y].status == Pending &&
          SamePair(requests'.rows[x], requests'.rows[y])
        ensures x == y
      {
        assert x != rid && y != rid;
        assert requests'.rows[x] == requests.rows[x] && requests'.rows[y] == requests.rows[y];
      }
    }
  }

  /** Removing a friend deletes both directions, which keeps the invariant. */
  lemma {:induction false} RemoveKeepsInvariant(requests: Table<Oid, FriendRequest>, friends: map<F.FriendKey, F.Friendship>,
                                                me: Oid, friendId: Oid)
    requires FriendGraphValid(requests, friends)
    ensures FriendGraphValid(requests, RemoveFriendStep(friends, me, friendId).1)
  {
    F.RemovePairSpec(friends, me, friendId);
  }

  // ---------------------------------------------------------------------------
  // What each step does

  /** A send succeeds exactly when its four guards pass and no request in the
      same direction is stored; it then stores one pending request from `me`
      to `to` and notifies `to`. Every refusal changes nothing. */
  lemma {:induction false} SendEffects(requests: Table<Oid, FriendRequest>, friends: map<F.FriendKey, F.Friendship>,
                                       users: map<Oid, U.User>, notes: N.Notes, me: Oid, myName: string, to: Oid, now: int)
    requires RequestsValid(requests)
    ensures var (o, requests', notes') := SendStep(requests, friends, users, notes, me, myName, to, now);
      && (o == InvalidRequest <==> me == to)
      && (o == UserNotFound <==> me != to && to !in users)
      && (o.Ok? <==> me != to && to in users && !F.AreFriends(friends, me, to) &&
                     PendingBetween(requests.rows, me, to) == {} && !HasRequest(requests.rows, me, to))
      && (o.Ok? ==>
            && o.status == 201
            && requests'.rows == requests.rows[requests.Fresh() := FriendRequest(requests.Fresh(), me, to, Pending, now, now)]
            && requests.Fresh() !in requests.rows
            && notes'.rows[notes.Fresh()].userId == to && notes'.rows[notes.Fresh()].kind == N.FriendRequest
            && notes'.rows[notes.Fresh()].data == map["fromUserId" := me, "requestId" := requests.Fresh()])
      && (!o.Ok? ==> requests' == requests && notes' == notes)
  {
    if me != to && to in users && !F.AreFriends(friends, me, to) && PendingBetween(requests.rows, me, to) == {} {
      InsertRequestSpec(requests, me, to, now);
    }
  }

  /** Under the invariant an accept never meets an existing friendship: it
      succeeds exactly when the request is pending and addressed to `me`, and
      then the request is accepted, the two users are friends both ways, and
      the sender is notified. A refusal changes nothing. */
  lemma {:induction false} AcceptEffects(requests: Table<Oid, FriendRequest>, friends: map<F.FriendKey, F.Friendship>,
                                         notes: N.Notes, me: Oid, myName: string, rid: Oid, now: int)
    requires FriendGraphValid(requests, friends)
    ensures var (o, requests', friends', notes') := AcceptRequestStep(requests, friends, notes, me, myName, rid, now);
      && (o.Ok? <==> rid in requests.rows && requests.rows[rid].toUserId == me && requests.rows[rid].status == Pending)
      && (o.Ok? || o == RequestNotFound || o == Forbidden || o == InvalidStatus)
      && (o.Ok? ==> var q := requests.rows[rid];
            && requests'.rows == requests.rows[rid := q.(status := Accepted, updatedAt := now)]
            && F.AreFriends(friends', q.fromUserId, me) && F.AreFriends(friends', me, q.fromUserId)
            && friends'.Keys == friends.Keys + {(q.fromUserId, me), (me, q.fromUserId)}
            && notes'.rows[notes.Fresh()].userId == q.fromUserId
            && notes'.rows[notes.Fresh()].kind == N.FriendAccepted)
      && (!o.Ok? ==> requests' == requests && friends' == friends && notes' == notes)
  {
    if AnswerGuard(requests, me, rid).None? {
      var q := requests.rows[rid];
      assert q.fromUserId != q.toUserId;
      assert (q.fromUserId, q.toUserId) !in friends;
      F.InsertPairOnSymmetric(friends, q.fromUserId, q.toUserId, now);
    }
  }

  /** A decline succeeds under the same guards as accept and then changes the
      status of that one request to declined. */
  lemma {:induction false} DeclineEffects(requests: Table<Oid, FriendRequest>, me: Oid, rid: Oid, now: int)
    ensures var (o, requests') := DeclineRequestStep(requests, me, rid, now);
      && (o.Ok? <==> rid in requests.rows && requests.rows[rid].toUserId == me && requests.rows[rid].status == Pending)
      && (o.Ok? ==> requests'.rows == requests.rows[rid := requests.rows[rid].(status := Declined, updatedAt := now)] &&
                    requests'.nextId == requests.nextId)
      && (!o.Ok? ==> requests' == requests)
  {
  }

  /** Removing succeeds exactly for a friend; afterwards the two are friends
      in neither direction and every other friendship is kept. */
  lemma {:induction false} RemoveEffects(friends: map<F.FriendKey, F.Friendship>, me: Oid, friendId: Oid)
    requires F.FriendsValid(friends) && F.Symmetric(friends)
    ensures var (o, friends') := RemoveFriendStep(friends, me, friendId);
      && (o.Ok? <==> F.AreFriends(friends, me, friendId))
      && !F.AreFriends(friends', me, friendId) && !F.AreFriends(friends', friendId, me)
      && (forall k :: k != (me, friendId) && k != (friendId, me) ==> (k in friends' <==> k in friends))
  {
    F.RemovePairSpec(friends, me, friendId);
    F.AreFriendsSymmetric(friends, me, friendId);
  }

  /** A request, once answered, stays in the collection: the sender can never
      send the same user a request again, even after the two stop being
      friends. The unique (fromUserId, toUserId) index answers 409
      DUPLICATE_KEY; only the other user can send one. */
  lemma {:induction false} AnsweredRequestBlocksResend(requests: Table<Oid, FriendRequest>, friends: map<F.FriendKey, F.Friendship>,
                                                       users: map<Oid, U.User>, notes: N.Notes, me: Oid, myName: string, to: Oid,
                                                       rid: Oid, now: int)
    requires FriendGraphValid(requests, friends)
    requires rid in requests.rows && requests.rows[rid].fromUserId == me && requests.rows[rid].toUserId == to
    requires requests.rows[rid].status != Pending
    requires to in users && !F.AreFriends(friends, me, to)
    requires forall id :: id in requests.rows && requests.rows[id].status == Pending ==> !SamePair(requests.rows[id], requests.rows[rid])
    ensures SendStep(requests, friends, users, notes, me, myName, to, now).0 == DuplicateKeyReply
  {
    assert me != to;
    assert PendingBetween(requests.rows, me, to) == {} by {
      forall id | id in PendingBetween(requests.rows, me, to) ensures false {
        assert SamePair(requests.rows[id], requests.rows[rid]);
      }
    }
    assert HasRequest(requests.rows, me, to);
  }

  /** `getFriends` lists exactly the users `me` is friends with and that still
      exist, each with its public fields. */
  lemma {:induction false} GetFriendsSpec(friends: map<F.FriendKey, F.Friendship>, users: map<Oid, U.User>, me: Oid)
    requires F.FriendsValid(friends)
    ensures forall v :: v in GetFriends(friends, users, me) <==>
      exists f :: F.AreFriends(friends, me, f) && f in users && v == FriendViewOf(users[f])
  {
    var fs := F.FindUserFriends(friends, me);
    forall v | v in GetFriends(friends, users, me)
      ensures exists f :: F.AreFriends(friends, me, f) && f in users && v == FriendViewOf(users[f])
    {
      var x :| x in fs && x.friendId in users && v == FriendViewOf(users[x.friendId]);
      var k :| k in friends && friends[k] == x;
      assert F.AreFriends(friends, me, x.friendId);
    }
    forall v, f | F.AreFriends(friends, me, f) && f in users && v == FriendViewOf(users[f])
      ensures v in GetFriends(friends, users, me)
    {
      var x := friends[(me, f)];
      assert x in friends.Values;
      assert x in fs;
    }
  }

  /** `getIncomingRequests` lists pending requests only, newest first. */
  lemma {:induction false} GetIncomingOrder(requests: map<Oid, FriendRequest>, users: map<Oid, U.User>, me: Oid)
    ensures var r := GetIncoming(requests, users, me);
      && (forall i, j :: 0 <= i < j < |r| ==> r[i].createdAt >= r[j].createdAt)
      && (forall i :: 0 <= i < |r| ==> r[i].status == Pending)
  {
    var qs := FindIncomingRequests(requests, me);
    assert forall i :: 0 <= i < |qs| ==> qs[i] in qs;
  }

  /** The requests `getIncomingRequests` lists are exactly the pending ones
      addressed to `me`. */
  lemma {:induction false} GetIncomingIds(requests: Table<Oid, FriendRequest>, users: map<Oid, U.User>, me: Oid)
    requires RequestsValid(requests)
    ensures var r := GetIncoming(requests.rows, users, me);
      forall id :: (exists i :: 0 <= i < |r| && r[i].id == id) <==>
        id in requests.rows && requests.rows[id].toUserId == me && requests.rows[id].status == Pending
  {
    var qs := FindIncomingRequests(requests.rows, me);
    var r := GetIncoming(requests.rows, users, me);
    forall id | id in requests.rows && requests.rows[id].toUserId == me && requests.rows[id].status == Pending
      ensures exists i :: 0 <= i < |r| && r[i].id == id
    {
      assert requests.rows[id] in requests.rows.Values;
      var i :| 0 <= i < |qs| && qs[i] == requests.rows[id];
      assert r[i].id == id;
    }
    forall i | 0 <= i < |r|
      ensures r[i].id in requests.rows && requests.rows[r[i].id].toUserId == me && requests.rows[r[i].id].status == Pending
    {
      assert qs[i] in qs;
      assert qs[i] in requests.rows.Values;
      var k :| k in requests.rows && requests.rows[k] == qs[i];
    }
  }

  // ---------------------------------------------------------------------------
  // The handlers

  method SendFriendRequest(users: U.UserTable, friends: F.FriendTable, requests: FriendRequestTable,
                           notifications: N.NotificationTable, me: Oid, myName: string, to: Oid, now: int)
    returns (o: Outcome)
    requires users.Valid() && friends.Valid() && requests.Valid() && notifications.Valid()
    modifies requests, notifications
    ensures requests.Valid() && notifications.Valid()
    ensures (o, requests.Snap(), notifications.Snap()) ==
      SendStep(old(requests.Snap()), friends.rows, users.rows, old(notifications.Snap()), me, myName, to, now)
  {
    if me == to {
      return InvalidRequest;
    }
    var target := users.FindUserById(to);
    if target.None? {
      return UserNotFound;
    }
    var friendship := friends.FindFriendship(me, to);
    if friendship.Some? {
      return AlreadyFriends;
    }
    var pending := requests.FindPendingRequest(me, to);
    if pending.Some? {
      return RequestExists;
    }
    var ins := requests.CreateFriendRequest(me, to, now);
    if ins.DuplicateKey? {
      return DuplicateKeyReply;
    }
    var _ := notifications.CreateNotification(RequestNotice(ins.value, me, myName), now);
    o := Ok(201);
  }

  method AcceptFriendRequest(friends: F.FriendTable, requests: FriendRequestTable, notifications: N.NotificationTable,
                             me: Oid, myName: string, rid: Oid, now: int) returns (o: Outcome)
    requires friends.Valid() && requests.Valid() && notifications.Valid()
    modifies friends, requests, notifications
    ensures friends.Valid() && requests.Valid() && notifications.Valid()
    ensures (o, requests.Snap(), friends.rows, notifications.Snap()) ==
      AcceptRequestStep(old(requests.Snap()), old(friends.rows), old(notifications.Snap()), me, myName, rid, now)
  {
    var request := requests.FindRequestById(rid);
    if request.None? {
      return RequestNotFound;
    }
    var q := request.value;
    if q.toUserId != me {
      return Forbidden;
    }
    if q.status != Pending {
      return InvalidStatus;
    }
    var _ := requests.UpdateRequestStatus(rid, Accepted, now);
    var ok := friends.CreateFriendship(q.fromUserId, q.toUserId, now);
    if !ok {
      return DuplicateKeyReply;
    }
    var _ := notifications.CreateNotification(AcceptedNotice(q, me, myName), now);
    o := Ok(200);
  }

  method DeclineFriendRequest(requests: FriendRequestTable, me: Oid, rid: Oid, now: int) returns (o: Outcome)
    requires requests.Valid()
    modifies requests
    ensures requests.Valid()
    ensures (o, requests.Snap()) == DeclineRequestStep(old(requests.Snap()), me, rid, now)
  {
    var request := requests.FindRequestById(rid);
    if request.None? {
      return RequestNotFound;
    }
    var q := request.value;
    if q.toUserId != me {
      return Forbidden;
    }
    if q.status != Pending {
      return InvalidStatus;
    }
    var _ := requests.UpdateRequestStatus(rid, Declined, now);
    o := Ok(200);
  }

  method RemoveFriend(friends: F.FriendTable, me: Oid, friendId: Oid) returns (o: Outcome)
    requires friends.Valid()
    modifies friends
    ensures friends.Valid()
    ensures (o, friends.rows) == RemoveFriendStep(old(friends.rows), me, friendId)
  {
    var friendship := friends.FindFriendship(me, friendId);
    if friendship.None? {
      return NotFriends;
    }
    friends.DeleteFriendship(me, friendId);
    o := Ok(200);
  }
}
