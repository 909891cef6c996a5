/** The account handlers (controllers/authController.js): registration,
    login, reading and updating one's own profile, and the push token.

    Hashing, password comparison and token signing are not modelled: the
    hash is an input of `Register`, the comparison a function parameter of
    `Login`, and the signed token is left out of the replies. */
module AuthController {
  import opened Common
  import opened UserModel

  const EmailExists := Fail(409, "EMAIL_EXISTS")
  const UsernameExists := Fail(409, "USERNAME_EXISTS")
  const InvalidCredentials := Fail(401, "INVALID_CREDENTIALS")

  /** `register`: email first, then username; the new account gets the
      default display name when none (or '') is given, and the reply carries
      the record without its password hash. */
  function RegisterStep(users: Table<Oid, User>, email: string, username: string, displayName: Option<string>,
                        passwordHash: string, now: int): (Outcome, Option<PublicUser>, Table<Oid, User>)
  {
    if EmailTaken(users.rows, email) then (EmailExists, None, users)
    else if UsernameTaken(users.rows, username) then (UsernameExists, None, users)
    else
      var u := NewUser(email, username, Some(OrString(displayName, DefaultDisplayName)), passwordHash,
                       None, None, None, None, None);
      var (ins, users') := InsertUser(users, u, now);
      if ins.DuplicateKey? then (DuplicateKeyReply, None, users)
      else (Ok(201), Some(WithoutPassword(ins.value)), users')
  }

  /** `login`: an unknown email and a wrong password get the same reply. */
  ghost function LoginStep(users: map<Oid, User>, email: string, password: string,
                           comparePassword: (string, string) -> bool): (Outcome, Option<PublicUser>)
  {
    var found := UserByEmail(users, email);
    if found.None? then (InvalidCredentials, None)
    else if !comparePassword(password, found.value.passwordHash) then (InvalidCredentials, None)
    else (Ok(200), Some(WithoutPassword(found.value)))
  }

  /** The body of `updateMe`; None is a field left out. */
  datatype MeBody = MeBody(displayName: Option<string>, bio: Option<string>, school: Option<string>,
                           preferences: Option<Preferences>, avatarUrl: Option<string>)

  /** The update `updateMe` builds: each supplied field, and for a supplied
      preferences object all five of its sub-fields (absent ones as null). */
  function MePatch(b: MeBody): UserPatch {
    UserPatch(b.displayName, b.bio, b.school, b.avatarUrl, b.preferences, None)
  }

  /** `updateMe`. A caller whose record has vanished makes the handler throw
      on the missing result, which the error handler answers with 500. */
  function UpdateMeStep(users: Table<Oid, User>, me: Oid, b: MeBody, now: int): (Outcome, Option<PublicUser>, Table<Oid, User>) {
    var (r, users') := PatchUser(users, me, MePatch(b), now);
    if r.None? then (InternalErrorReply, None, users')
    else (Ok(200), Some(WithoutPassword(r.value)), users')
  }

  /** `updatePushToken`: set the token (null when the body has none). */
  function UpdatePushTokenStep(users: Table<Oid, User>, me: Oid, expoToken: Option<string>, now: int)
    : (Outcome, Table<Oid, User>)
  {
    var (_, users') := PatchUser(users, me, NoPatch.(expoToken := Some(expoToken)), now);
    (Ok(200), users')
  }

  /** Registration checks the email before the username and creates nothing
      on either conflict; otherwise it creates exactly one account, with the
      default display name when none is given, zero counters, and a reply
      that is the stored record minus its hash. */
  lemma {:induction false} RegisterEffects(users: Table<Oid, User>, email: string, username: string,
                                           displayName: Option<string>, passwordHash: string, now: int)
    requires UsersValid(users)
    ensures var (o, r, users') := RegisterStep(users, email, username, displayName, passwordHash, now);
      && UsersValid(users')
      && (o == EmailExists <==> EmailTaken(users.rows, email))
      && (o == UsernameExists <==> !EmailTaken(users.rows, email) && UsernameTaken(users.rows, username))
      && (o.Ok? <==> !EmailTaken(users.rows, email) && !UsernameTaken(users.rows, username))
      && (!o.Ok? ==> users' == users && r.None?)
      && (o.Ok? ==>
            && o.status == 201 && r.Some?
            && |users'.rows| == |users.rows| + 1
            && users.Fresh() in users'.rows && users.Fresh() !in users.rows
            && r.value == WithoutPassword(users'.rows[users.Fresh()])
            && users'.rows[users.Fresh()].email == email && users'.rows[users.Fresh()].username == username
            && users'.rows[users.Fresh()].passwordHash == passwordHash
            && users'.rows[users.Fresh()].displayName == OrString(displayName, DefaultDisplayName)
            && users'.rows[users.Fresh()].stats == Stats(0, 0, 0, 0)
            && UserByEmail(users'.rows, email) == Some(users'.rows[users.Fresh()]))
  {
    var (o, r, users') := RegisterStep(users, email, username, displayName, passwordHash, now);
    var u := NewUser(email, username, Some(OrString(displayName, DefaultDisplayName)), passwordHash, None, None, None, None, None);
    InsertUserKeepsValid(users, u, now);
    if o.Ok? {
      assert users.Fresh() !in users.rows;
      assert OrString(displayName, DefaultDisplayName) != "" by {
        assert DefaultDisplayName != "";
      }
    }
  }

  /** Login succeeds exactly for a known email whose hash accepts the
      password, and then returns that account without its hash; every other
      case gets the one 401 reply, so the reply does not tell which check
      failed. */
  lemma {:induction false} LoginEffects(users: Table<Oid, User>, email: string, password: string,
                                        comparePassword: (string, string) -> bool)
    requires UsersValid(users)
    ensures var (o, r) := LoginStep(users.rows, email, password, comparePassword);
      && (o.Ok? <==> exists id :: id in users.rows && users.rows[id].email == email &&
                                  comparePassword(password, users.rows[id].passwordHash))
      && (!o.Ok? ==> o == InvalidCredentials && r.None?)
      && (o.Ok? ==> exists id :: id in users.rows && users.rows[id].email == email && r == Some(WithoutPassword(users.rows[id])))
  {
    var found := UserByEmail(users.rows, email);
    if found.Some? {
      var id :| id in users.rows && users.rows[id] == found.value;
      forall other | other in users.rows && users.rows[other].email == email ensures other == id { }
    }
  }

  /** The profile update sets a field exactly when the body supplies it,
      sets all five preferences sub-fields when a preferences object is
      supplied, never touches email, username, password hash, counters or
      ban, and replies with the updated record minus its hash. */
  lemma {:induction false} UpdateMeEffects(users: Table<Oid, User>, me: Oid, b: MeBody, now: int)
    requires UsersValid(users)
    ensures var (o, r, users') := UpdateMeStep(users, me, b, now);
      && UsersValid(users')
      && (o.Ok? <==> me in users.rows)
      && (!o.Ok? ==> o == InternalErrorReply && users' == users)
      && (o.Ok? ==>
            var old_u, new_u := users.rows[me], users'.rows[me];
            && r == Some(WithoutPassword(new_u))
            && new_u.displayName == b.displayName.GetOr(old_u.displayName)
            && new_u.bio == b.bio.GetOr(old_u.bio)
            && new_u.school == b.school.GetOr(old_u.school)
            && (b.avatarUrl.Some? ==> new_u.avatarUrl == b.avatarUrl)
            && (b.avatarUrl.None? ==> new_u.avatarUrl == old_u.avatarUrl)
            && new_u.preferences == (if b.preferences.Some? then b.preferences.value else old_u.preferences)
            && new_u.email == old_u.email && new_u.username == old_u.username
            && new_u.passwordHash == old_u.passwordHash && new_u.stats == old_u.stats
            && new_u.isBanned == old_u.isBanned && new_u.expoToken == old_u.expoToken
            && (forall id :: id in users.rows && id != me ==> id in users'.rows && users'.rows[id] == users.rows[id]))
  {
    PatchKeepsValid(users, me, MePatch(b), now);
  }

  /** The push token update sets the token alone (and updatedAt), and
      replies 200 whether or not the caller's record exists. */
  lemma {:induction false} UpdatePushTokenEffects(users: Table<Oid, User>, me: Oid, expoToken: Option<string>, now: int)
    requires UsersValid(users)
    ensures var (o, users') := UpdatePushTokenStep(users, me, expoToken, now);
      && o == Ok(200) && UsersValid(users')
      && (me in users.rows ==> users'.rows == users.rows[me := users.rows[me].(expoToken := expoToken, updatedAt := now)])
      && (me !in users.rows ==> users' == users)
  {
    PatchKeepsValid(users, me, NoPatch.(expoToken := Some(expoToken)), now);
  }

  // ---------------------------------------------------------------------------
  // The handlers

  method Register(users: UserTable, email: string, username: string, displayName: Option<string>,
                  passwordHash: string, now: int) returns (o: Outcome, user: Option<PublicUser>)
    requires users.Valid()
    modifies users
    ensures users.Valid()
    ensures (o, user, users.Snap()) == RegisterStep(old(users.Snap()), email, username, displayName, passwordHash, now)
  {
    var byEmail := users.FindUserByEmail(email);
    if byEmail.Some? {
      return EmailExists, None;
    }
    var byName := users.FindUserByUsername(username);
    if byName.Some? {
      return UsernameExists, None;
    }
    var ins := users.CreateUser(NewUser(email, username, Some(OrString(displayName, DefaultDisplayName)), passwordHash,
                                        None, None, None, None, None), now);
    if ins.DuplicateKey? {
      return DuplicateKeyReply, None;
    }
    o, user := Ok(201), Some(WithoutPassword(ins.value));
  }

  method Login(users: UserTable, email: string, password: string, comparePassword: (string, string) -> bool)
    returns (o: Outcome, user: Option<PublicUser>)
    requires users.Valid()
    ensures (o, user) == LoginStep(users.rows, email, password, comparePassword)
  {
    var found := users.FindUserByEmail(email);
    if found.None? {
      return InvalidCredentials, None;
    }
    if !comparePassword(password, found.value.passwordHash) {
      return InvalidCredentials, None;
    }
    o, user := Ok(200), Some(WithoutPassword(found.value));
  }

  /** `getMe`: a copy of the authenticated record without its hash. */
  function GetMe(me: User): (r: (Outcome, PublicUser))
    ensures r.0 == Ok(200)
    ensures forall v: User :: r.1 == WithoutPassword(v) <==> me.(passwordHash := v.passwordHash) == v
  {
    WithoutPasswordHidesOnlyHashAll(me);
    (Ok(200), WithoutPassword(me))
  }

  lemma {:induction false} WithoutPasswordHidesOnlyHashAll(u: User)
    ensures forall v: User :: WithoutPassword(u) == WithoutPassword(v) <==> u.(passwordHash := v.passwordHash) == v
  {
    forall v: User ensures WithoutPassword(u) == WithoutPassword(v) <==> u.(passwordHash := v.passwordHash) == v {
      WithoutPasswordHidesOnlyHash(u, v);
    }
  }

  method UpdateMe(users: UserTable, me: Oid, b: MeBody, now: int) returns (o: Outcome, user: Option<PublicUser>)
    requires users.Valid()
    modifies users
    ensures users.Valid()
    ensures (o, user, users.Snap()) == UpdateMeStep(old(users.Snap()), me, b, now)
  {
    var updated := users.UpdateUser(me, MePatch(b), now);
    if updated.None? {
      return InternalErrorReply, None;
    }
    o, user := Ok(200), Some(WithoutPassword(updated.value));
  }

  method UpdatePushToken(users: UserTable, me: Oid, expoToken: Option<string>, now: int) returns (o: Outcome)
    requires users.Valid()
    modifies users
    ensures users.Valid()
    ensures (o, users.Snap()) == UpdatePushTokenStep(old(users.Snap()), me, expoToken, now)
  {
    var _ := users.UpdateUser(me, NoPatch.(expoToken := Some(expoToken)), now);
    o := Ok(200);
  }
}
