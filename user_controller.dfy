/** The user lookup handlers (controllers/userController.js): search by name
    and another user's profile as the caller sees it. The search pattern
    (a case-insensitive regular expression built from the query) is a
    predicate parameter. */
module UserController {
  import opened Common
  import opened UserModel
  import F = FriendModel
  import FR = FriendRequestModel

  const InvalidQuery := Fail(400, "INVALID_QUERY")
  const UserNotFound := Fail(404, "USER_NOT_FOUND")

  /** The four fields a search result keeps. */
  function Sanitized(p: PublicUser): UserSummary {
    UserSummary(p.id, p.username, p.displayName, p.avatarUrl)
  }

  /** `searchUsers`: a query that is missing or shorter than two characters
      is refused; otherwise at most 20 matching users, stripped to their
      public summary. */
  ghost function SearchStep(users: map<Oid, User>, q: Option<string>, matches: string -> bool): (Outcome, seq<UserSummary>) {
    if q.None? || |q.value| < 2 then (InvalidQuery, [])
    else
      var found := SearchUsers(users, matches, 20);
      (Ok(200), seq(|found|, i requires 0 <= i < |found| => Sanitized(found[i])))
  }

  /** `s` is the summary of a user whose username or display name matches. */
  ghost predicate IsHitSummary(users: map<Oid, User>, matches: string -> bool, s: UserSummary) {
    exists id :: id in users && s == Summary(users[id]) && (matches(users[id].username) || matches(users[id].displayName))
  }

  /** The summary of a matching user's public view is that user's summary. */
  lemma SanitizedHit(users: map<Oid, User>, matches: string -> bool, p: PublicUser)
    requires IsHitView(users, matches, p)
    ensures IsHitSummary(users, matches, Sanitized(p))
  {
    var id :| id in users && p == WithoutPassword(users[id]) && (matches(users[id].username) || matches(users[id].displayName));
    assert Sanitized(p) == Summary(users[id]);
  }

  /** The search refuses exactly the short or missing queries; otherwise it
      returns as many users as match, up to 20, each result the summary of a
      matching user, and every matching user when there are at most 20. */
  lemma {:induction false} SearchSpec(users: map<Oid, User>, q: Option<string>, matches: string -> bool)
    ensures (SearchStep(users, q, matches).0 == InvalidQuery) <==> (q.None? || |q.value| < 2)
    ensures SearchStep(users, q, matches).0 != InvalidQuery ==> SearchStep(users, q, matches).0 == Ok(200)
    ensures |SearchStep(users, q, matches).1| <= 20
    ensures SearchStep(users, q, matches).0 == Ok(200) ==>
      |SearchStep(users, q, matches).1| == if |SearchHits(users, matches)| < 20 then |SearchHits(users, matches)| else 20
    ensures forall i :: 0 <= i < |SearchStep(users, q, matches).1| ==>
      IsHitSummary(users, matches, SearchStep(users, q, matches).1[i])
    ensures SearchStep(users, q, matches).0 == Ok(200) && |SearchHits(users, matches)| <= 20 ==>
      forall id :: id in SearchHits(users, matches) ==> Summary(users[id]) in SearchStep(users, q, matches).1
  {
    if q.Some? && |q.value| >= 2 {
      var found := SearchUsers(users, matches, 20);
      var r := SearchStep(users, q, matches).1;
      forall i | 0 <= i < |r| ensures IsHitSummary(users, matches, r[i]) {
        assert r[i] == Sanitized(found[i]);
        SanitizedHit(users, matches, found[i]);
      }
      if |SearchHits(users, matches)| <= 20 {
        SearchFindsEveryHit(users, q, matches);
      }
    }
  }

  /** When at most 20 users match, the search returns every one of them. */
  lemma SearchFindsEveryHit(users: map<Oid, User>, q: Option<string>, matches: string -> bool)
    requires q.Some? && |q.value| >= 2 && |SearchHits(users, matches)| <= 20
    ensures forall id :: id in SearchHits(users, matches) ==> Summary(users[id]) in SearchStep(users, q, matches).1
  {
    var found := SearchUsers(users, matches, 20);
    var r := SearchStep(users, q, matches).1;
    forall id | id in SearchHits(users, matches) ensures Summary(users[id]) in r {
      var j :| 0 <= j < |found| && found[j] == WithoutPassword(users[id]);
      assert r[j] == Sanitized(found[j]);
    }
  }

  /** The profile `getUserById` sends: public fields, whether the caller is
      a friend, and the direction of a pending request between the two
      ("sent", "received", or None). */
  datatype Profile = Profile(id: Oid, username: string, displayName: string, avatarUrl: Option<string>,
                             bio: string, school: string, stats: Stats, createdAt: int,
                             isFriend: bool, friendRequestStatus: Option<string>)

  /** `getUserById`. Nothing is changed. */
  method GetUserById(users: UserTable, friends: F.FriendTable, requests: FR.FriendRequestTable, me: Oid, id: Oid)
    returns (o: Outcome, profile: Option<Profile>)
    requires users.Valid() && friends.Valid() && requests.Valid()
    ensures o == UserNotFound <==> id !in users.rows
    ensures o.Ok? <==> id in users.rows
    ensures o.Ok? <==> profile.Some?
    ensures profile.Some? ==>
      var u, p := users.rows[id], profile.value;
      && p.id == id && p.username == u.username && p.displayName == u.displayName && p.avatarUrl == u.avatarUrl
      && p.bio == u.bio && p.school == u.school && p.stats == u.stats && p.createdAt == u.createdAt
      && (p.isFriend <==> F.AreFriends(friends.rows, me, id))
      && (p.friendRequestStatus.None? <==> FR.PendingBetween(requests.rows, me, id) == {})
      && (p.friendRequestStatus == Some("sent") ==>
            exists r :: r in FR.PendingBetween(requests.rows, me, id) && requests.rows[r].fromUserId == me)
      && (p.friendRequestStatus == Some("received") ==>
            exists r :: r in FR.PendingBetween(requests.rows, me, id) && requests.rows[r].fromUserId != me)
      && (p.friendRequestStatus.Some? ==> p.friendRequestStatus == Some("sent") || p.friendRequestStatus == Some("received"))
  {
    var user := users.FindUserById(id);
    if user.None? {
      return UserNotFound, None;
    }
    var isFriend := friends.FindFriendship(me, id).Some?;
    var status: Option<string> := None;
    var pending := requests.FindPendingRequest(me, id);
    if pending.Some? {
      if pending.value.fromUserId == me {
        status := Some("sent");
      } else {
        status := Some("received");
      }
    }
    var u := user.value;
    o := Ok(200);
    profile := Some(Profile(u.id, u.username, u.displayName, u.avatarUrl, u.bio, u.school, u.stats, u.createdAt,
                            isFriend, status));
  }
}
