/** The users collection (models/User.js): account records with unique email
    and unique username, the defaults a new account gets, partial updates,
    search, and the per-user activity counters. */
module UserModel {
  import opened Common
  import opened Listing

  /** `preferences`: every field may hold null (None) once a profile update has
      written an absent value into it. */
  datatype Preferences = Preferences(
    noise: Option<string>,
    wifi: Option<bool>,
    outlets: Option<bool>,
    favoriteDistricts: Option<seq<string>>,
    tags: Option<seq<string>>)

  datatype Stats = Stats(sessionsCreated: int, sessionsJoined: int, reviewsCount: int, likesGiven: int)

  /** The counters `incrementUserStat` can address as `stats.<field>`. */
  datatype StatField = SessionsCreated | SessionsJoined | ReviewsCount | LikesGiven

  datatype User = User(
    id: Oid,
    email: string,
    username: string,
    displayName: string,
    passwordHash: string,
    avatarUrl: Option<string>,
    bio: string,
    school: string,
    preferences: Preferences,
    expoToken: Option<string>,
    stats: Stats,
    isBanned: bool,
    bannedReason: Option<string>,
    createdAt: int,
    updatedAt: int)

  /** A user record as handlers send it out: everything but the password hash. */
  datatype PublicUser = PublicUser(
    id: Oid,
    email: string,
    username: string,
    displayName: string,
    avatarUrl: Option<string>,
    bio: string,
    school: string,
    preferences: Preferences,
    expoToken: Option<string>,
    stats: Stats,
    isBanned: bool,
    bannedReason: Option<string>,
    createdAt: int,
    updatedAt: int)

  /** The four public fields other users get to see. */
  datatype UserSummary = UserSummary(id: Oid, username: string, displayName: string, avatarUrl: Option<string>)

  /** What `createUser` is given; None is a field left out of `userData`. */
  datatype NewUser = NewUser(
    email: string,
    username: string,
    displayName: Option<string>,
    passwordHash: string,
    avatarUrl: Option<string>,
    bio: Option<string>,
    school: Option<string>,
    preferences: Option<Preferences>,
    expoToken: Option<string>)

  /** The `$set` of an `updateUser` call: None leaves the field alone. A
      supplied `preferences` writes all five sub-fields, absent ones as null. */
  datatype UserPatch = UserPatch(
    displayName: Option<string>,
    bio: Option<string>,
    school: Option<string>,
    avatarUrl: Option<string>,
    preferences: Option<Preferences>,
    expoToken: Option<Option<string>>)

  const NoPatch := UserPatch(None, None, None, None, None, None)

  const DefaultDisplayName := "Deja Brew guest"

  /** JavaScript `s || d` on an optional string: the empty string is falsy. */
  function OrString(s: Option<string>, d: string): string {
    if s.Some? && s.value != "" then s.value else d
  }

  /** JavaScript `s || null` on an optional string. */
  function OrNull(s: Option<string>): Option<string> {
    if s.Some? && s.value != "" then s else None
  }

  /** The preferences `createUser` stores, exactly as written: `wifi` and
      `outlets` are `x || true`, which is true whatever `x` is. */
  function StoredPreferencesAsWritten(p: Option<Preferences>): Preferences {
    var given := p.GetOr(Preferences(None, None, None, None, None));
    Preferences(
      Some(OrString(given.noise, "quiet")),
      Some(true),
      Some(true),
      Some(given.favoriteDistricts.GetOr([])),
      Some(given.tags.GetOr([])))
  }

  /** The preferences `createUser` evidently means to store: a supplied
      boolean is kept and only an absent one defaults to true. */
  function StoredPreferences(p: Option<Preferences>): Preferences {
    var given := p.GetOr(Preferences(None, None, None, None, None));
    Preferences(
      Some(OrString(given.noise, "quiet")),
      Some(given.wifi.GetOr(true)),
      Some(given.outlets.GetOr(true)),
      Some(given.favoriteDistricts.GetOr([])),
      Some(given.tags.GetOr([])))
  }

  /** `wifi: false` is stored as true by the preference defaults as written. */
  lemma ExplicitFalseLostAsWritten()
    ensures StoredPreferencesAsWritten(Some(Preferences(None, Some(false), Some(false), None, None))).wifi == Some(true)
    ensures StoredPreferencesAsWritten(Some(Preferences(None, Some(false), Some(false), None, None))).outlets == Some(true)
  {
  }

  /** With the `|| true` defaults, no input can give wifi or outlets false. */
  lemma {:induction false} AsWrittenIgnoresBooleans(p: Option<Preferences>)
    ensures StoredPreferencesAsWritten(p).wifi == Some(true)
    ensures StoredPreferencesAsWritten(p).outlets == Some(true)
  {
  }

  /** The corrected defaults keep every supplied boolean and agree with the
      code as written whenever the booleans are absent or true, in particular
      for registration, which passes no preferences at all. */
  lemma {:induction false} StoredPreferencesKeepsBooleans(p: Option<Preferences>)
    ensures p.Some? && p.value.wifi.Some? ==> StoredPreferences(p).wifi == p.value.wifi
    ensures p.Some? && p.value.outlets.Some? ==> StoredPreferences(p).outlets == p.value.outlets
    ensures (p.None? || (p.value.wifi != Some(false) && p.value.outlets != Some(false))) ==>
      StoredPreferences(p) == StoredPreferencesAsWritten(p)
  {
    if p.Some? && p.value.wifi != Some(false) && p.value.outlets != Some(false) {
      assert p.value.wifi.GetOr(true) && p.value.outlets.GetOr(true);
    }
  }

  /** The record `createUser` inserts under id `id` at time `now`. */
  function NewUserRecord(id: Oid, u: NewUser, now: int): (r: User)
    ensures r.stats == Stats(0, 0, 0, 0) && !r.isBanned && r.bannedReason.None?
    ensures r.displayName != ""
    ensures u.displayName.Some? && u.displayName.value != "" ==> r.displayName == u.displayName.value
    ensures r.createdAt == now == r.updatedAt
  {
    User(
      id, u.email, u.username, OrString(u.displayName, DefaultDisplayName), u.passwordHash,
      OrNull(u.avatarUrl), OrString(u.bio, ""), OrString(u.school, ""),
      StoredPreferences(u.preferences), OrNull(u.expoToken),
      Stats(0, 0, 0, 0), false, None, now, now)
  }

  /** `delete user.passwordHash` on a copy of the record. */
  function WithoutPassword(u: User): PublicUser {
    PublicUser(u.id, u.email, u.username, u.displayName, u.avatarUrl, u.bio, u.school,
               u.preferences, u.expoToken, u.stats, u.isBanned, u.bannedReason, u.createdAt, u.updatedAt)
  }

  /** The public view hides the password hash and nothing else: two records
      have the same view exactly when they differ at most in their hash. */
  lemma {:induction false} WithoutPasswordHidesOnlyHash(u: User, v: User)
    ensures WithoutPassword(u) == WithoutPassword(v) <==> u.(passwordHash := v.passwordHash) == v
  {
    if WithoutPassword(u) == WithoutPassword(v) {
      assert WithoutPassword(u).email == WithoutPassword(v).email;
    }
  }

  function Summary(u: User): UserSummary {
    UserSummary(u.id, u.username, u.displayName, u.avatarUrl)
  }

  // ---------------------------------------------------------------------------
  // The collection as a value

  /** The unique indexes on email and username, and fresh ids below the counter. */
  ghost predicate UsersValid(t: Table<Oid, User>) {
    && (forall id :: id in t.rows ==> t.rows[id].id == id && id.n < t.nextId)
    && (forall a, b :: a in t.rows && b in t.rows && t.rows[a].email == t.rows[b].email ==> a == b)
    && (forall a, b :: a in t.rows && b in t.rows && t.rows[a].username == t.rows[b].username ==> a == b)
  }

  predicate EmailTaken(rows: map<Oid, User>, email: string) {
    exists id :: id in rows && rows[id].email == email
  }

  predicate UsernameTaken(rows: map<Oid, User>, username: string) {
    exists id :: id in rows && rows[id].username == username
  }

  /** `insertOne` of a new user: refused by either unique index. */
  function InsertUser(t: Table<Oid, User>, u: NewUser, now: int): (Inserted<User>, Table<Oid, User>) {
    if EmailTaken(t.rows, u.email) || UsernameTaken(t.rows, u.username) then (DuplicateKey, t)
    else
      var r := NewUserRecord(t.Fresh(), u, now);
      (Inserted(r), Table(t.rows[r.id := r], t.nextId + 1))
  }

  /** The user with a given email, if any (at most one, by the index). */
  ghost function UserByEmail(rows: map<Oid, User>, email: string): (r: Option<User>)
    ensures r.Some? <==> EmailTaken(rows, email)
    ensures r.Some? ==> r.value in rows.Values && r.value.email == email
  {
    if EmailTaken(rows, email) then
      var id :| id in rows && rows[id].email == email; Some(rows[id])
    else None
  }

  /** Every field the patch supplies takes the supplied value, every other
      field keeps its value, and updatedAt is the time of the update. */
  function ApplyPatch(u: User, p: UserPatch, now: int): User {
    u.(displayName := p.displayName.GetOr(u.displayName),
       bio := p.bio.GetOr(u.bio),
       school := p.school.GetOr(u.school),
       avatarUrl := if p.avatarUrl.Some? then p.avatarUrl else u.avatarUrl,
       preferences := p.preferences.GetOr(u.preferences),
       expoToken := p.expoToken.GetOr(u.expoToken),
       updatedAt := now)
  }

  function AddToStat(s: Stats, f: StatField, amount: int): Stats {
    match f
    case SessionsCreated => s.(sessionsCreated := s.sessionsCreated + amount)
    case SessionsJoined => s.(sessionsJoined := s.sessionsJoined + amount)
    case ReviewsCount => s.(reviewsCount := s.reviewsCount + amount)
    case LikesGiven => s.(likesGiven := s.likesGiven + amount)
  }

  function StatValue(s: Stats, f: StatField): int {
    match f
    case SessionsCreated => s.sessionsCreated
    case SessionsJoined => s.sessionsJoined
    case ReviewsCount => s.reviewsCount
    case LikesGiven => s.likesGiven
  }

  /** `$inc` moves the addressed counter by `amount` and no other counter. */
  lemma {:induction false} AddToStatMovesOneCounter(s: Stats, f: StatField, amount: int, g: StatField)
    ensures StatValue(AddToStat(s, f, amount), g) == StatValue(s, g) + (if g == f then amount else 0)
  {
    match f
    case SessionsCreated =>
    case SessionsJoined =>
    case ReviewsCount =>
    case LikesGiven =>
  }

  /** `updateOne` with `$inc` on one user: no change when the id is unknown. */
  function IncrementStat(t: Table<Oid, User>, id: Oid, f: StatField, amount: int, now: int): Table<Oid, User> {
    if id in t.rows then
      t.(rows := t.rows[id := t.rows[id].(stats := AddToStat(t.rows[id].stats, f, amount), updatedAt := now)])
    else t
  }

  /** `findOneAndUpdate` with the patch: the updated record, or None. */
  function PatchUser(t: Table<Oid, User>, id: Oid, p: UserPatch, now: int): (Option<User>, Table<Oid, User>) {
    if id in t.rows then
      var u := ApplyPatch(t.rows[id], p, now);
      (Some(u), t.(rows := t.rows[id := u]))
    else (None, t)
  }

  /** Creating a user keeps both unique indexes and yields a record that the
      email lookup finds, with zero counters and no ban. */
  lemma {:induction false} InsertUserKeepsValid(t: Table<Oid, User>, u: NewUser, now: int)
    requires UsersValid(t)
    ensures UsersValid(InsertUser(t, u, now).1)
    ensures InsertUser(t, u, now).0.Inserted? <==> !EmailTaken(t.rows, u.email) && !UsernameTaken(t.rows, u.username)
    ensures InsertUser(t, u, now).0.Inserted? ==>
      UserByEmail(InsertUser(t, u, now).1.rows, u.email) == Some(InsertUser(t, u, now).0.value)
  {
    var (r, t') := InsertUser(t, u, now);
    if r.Inserted? {
      var id := t.Fresh();
      assert id !in t.rows;
      var found := UserByEmail(t'.rows, u.email);
      assert t'.rows[id].email == u.email;
    }
  }

  /** A profile update changes neither email nor username, so the unique
      indexes stay valid. */
  lemma {:induction false} PatchKeepsValid(t: Table<Oid, User>, id: Oid, p: UserPatch, now: int)
    requires UsersValid(t)
    ensures UsersValid(PatchUser(t, id, p, now).1)
  {
    var t1 := PatchUser(t, id, p, now).1;
    if id in t.rows {
      forall a | a in t1.rows ensures t1.rows[a].email == t.rows[a].email && t1.rows[a].username == t.rows[a].username { }
    }
  }

  /** A counter update changes neither email nor username either. */
  lemma {:induction false} IncrementKeepsValid(t: Table<Oid, User>, id: Oid, f: StatField, amount: int, now: int)
    requires UsersValid(t)
    ensures UsersValid(IncrementStat(t, id, f, amount, now))
  {
    var t2 := IncrementStat(t, id, f, amount, now);
    if id in t.rows {
      forall a | a in t2.rows ensures t2.rows[a].email == t.rows[a].email && t2.rows[a].username == t.rows[a].username { }
    }
  }

  /** The ids of the users whose username or display name matches. */
  ghost function SearchHits(rows: map<Oid, User>, matches: string -> bool): (r: set<Oid>)
    ensures forall id :: id in r <==> id in rows && (matches(rows[id].username) || matches(rows[id].displayName))
    ensures |r| <= |rows|
  {
    var hits := set id | id in rows && (matches(rows[id].username) || matches(rows[id].displayName));
    SubsetCard(hits, rows.Keys);
    hits
  }

  /** The public views of the users `ids` names, in that order. */
  function Views(rows: map<Oid, User>, ids: seq<Oid>): (r: seq<PublicUser>)
    requires forall i :: 0 <= i < |ids| ==> ids[i] in rows
    ensures |r| == |ids|
    ensures forall i :: 0 <= i < |ids| ==> r[i] == WithoutPassword(rows[ids[i]])
  {
    if ids == [] then [] else [WithoutPassword(rows[ids[0]])] + Views(rows, ids[1..])
  }

  /** The views of a list of ids hold the view of each id in it. */
  lemma ViewsHold(rows: map<Oid, User>, ids: seq<Oid>)
    requires forall i :: 0 <= i < |ids| ==> ids[i] in rows
    ensures forall id :: id in ids ==> WithoutPassword(rows[id]) in Views(rows, ids)
  {
    forall id | id in ids ensures WithoutPassword(rows[id]) in Views(rows, ids) {
      var i :| 0 <= i < |ids| && ids[i] == id;
      assert Views(rows, ids)[i] == WithoutPassword(rows[id]);
    }
  }

  /** `p` is the public view of a user whose username or display name matches. */
  ghost predicate IsHitView(rows: map<Oid, User>, matches: string -> bool, p: PublicUser) {
    exists id :: id in rows && p == WithoutPassword(rows[id]) && (matches(rows[id].username) || matches(rows[id].displayName))
  }

  /** `searchUsers`: users whose username or display name matches, in the
      collection's natural (insertion) order, at most `limit` of them, with
      the password hash projected away. */
  ghost function SearchUsers(rows: map<Oid, User>, matches: string -> bool, limit: int): (r: seq<PublicUser>)
    ensures |r| <= |rows|
    ensures limit > 0 ==> |r| <= limit
    ensures |r| == LimitCount(limit, |SearchHits(rows, matches)|)
    ensures forall i :: 0 <= i < |r| ==> IsHitView(rows, matches, r[i])
    ensures LimitCount(limit, |SearchHits(rows, matches)|) == |SearchHits(rows, matches)| ==>
      forall id :: id in SearchHits(rows, matches) ==> WithoutPassword(rows[id]) in r
  {
    var hits := SearchHits(rows, matches);
    var ordered := Ordered(hits, (id: Oid) => -(id.n as int));
    var page := ordered[..LimitCount(limit, |ordered|)];
    assert forall i :: 0 <= i < |page| ==> page[i] in hits;
    ViewsHold(rows, page);
    assert LimitCount(limit, |hits|) == |hits| ==> page == ordered;
    Views(rows, page)
  }

  lemma SubsetCard<T>(a: set<T>, b: set<T>)
    requires a <= b
    ensures |a| <= |b|
  {
    if a != {} {
      var x :| x in a;
      SubsetCard(a - {x}, b - {x});
    }
  }

  // ---------------------------------------------------------------------------
  // The collection as the store holds it

  class UserTable {
    var rows: map<Oid, User>
    var nextId: nat

    function Snap(): Table<Oid, User>
      reads this
    {
      Table(rows, nextId)
    }

    ghost predicate Valid()
      reads this
    {
      UsersValid(Snap())
    }

    constructor ()
      ensures Valid() && rows == map[] && nextId == 0
    {
      rows := map[];
      nextId := 0;
    }

    /** `createUser`: fill in the defaults and insert under a fresh id. */
    method CreateUser(u: NewUser, now: int) returns (r: Inserted<User>)
      requires Valid()
      modifies this
      ensures Valid()
      ensures (r, Snap()) == InsertUser(old(Snap()), u, now)
    {
      InsertUserKeepsValid(Snap(), u, now);
      if EmailTaken(rows, u.email) || UsernameTaken(rows, u.username) {
        return DuplicateKey;
      }
      var user := NewUserRecord(Oid(nextId), u, now);
      rows := rows[user.id := user];
      nextId := nextId + 1;
      r := Inserted(user);
    }

    function FindUserById(id: Oid): (r: Option<User>)
      reads this
      requires Valid()
      ensures r.Some? <==> id in rows
      ensures r.Some? ==> r.value == rows[id] && r.value.id == id
    {
      if id in rows then Some(rows[id]) else None
    }

    /** `findUserByEmail`: the unique user with that email, if any. */
    method FindUserByEmail(email: string) returns (r: Option<User>)
      requires Valid()
      ensures r == UserByEmail(rows, email)
    {
      if EmailTaken(rows, email) {
        var id :| id in rows && rows[id].email == email;
        r := Some(rows[id]);
        ghost var spec := UserByEmail(rows, email);
        ghost var other :| other in rows && rows[other] == spec.value;
        assert other == id;
      } else {
        r := None;
      }
    }

    /** `findUserByUsername`: whether some user has that username. */
    method FindUserByUsername(username: string) returns (r: Option<User>)
      requires Valid()
      ensures r.Some? <==> UsernameTaken(rows, username)
      ensures r.Some? ==> r.value.id in rows && rows[r.value.id] == r.value && r.value.username == username
    {
      if UsernameTaken(rows, username) {
        var id :| id in rows && rows[id].username == username;
        r := Some(rows[id]);
      } else {
        r := None;
      }
    }

    /** `updateUser`: `$set` of the supplied fields and updatedAt. */
    method UpdateUser(id: Oid, p: UserPatch, now: int) returns (r: Option<User>)
      requires Valid()
      modifies this
      ensures Valid()
      ensures (r, Snap()) == PatchUser(old(Snap()), id, p, now)
    {
      PatchKeepsValid(Snap(), id, p, now);
      if id in rows {
        var u := ApplyPatch(rows[id], p, now);
        rows := rows[id := u];
        r := Some(u);
      } else {
        r := None;
      }
    }

    /** `incrementUserStat`: `$inc` one counter and set updatedAt. */
    method IncrementUserStat(id: Oid, f: StatField, amount: int, now: int)
      requires Valid()
      modifies this
      ensures Valid()
      ensures Snap() == IncrementStat(old(Snap()), id, f, amount, now)
    {
      IncrementKeepsValid(Snap(), id, f, amount, now);
      if id in rows {
        rows := rows[id := rows[id].(stats := AddToStat(rows[id].stats, f, amount), updatedAt := now)];
      }
    }
  }
}
