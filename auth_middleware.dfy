/** The authentication guards (middleware/auth.js): the bearer-token ladder
    that admits a request with its user, and the owner check. Token
    verification and the ObjectId constructor are parameters: `verifyToken`
    gives the user id claim of a valid token, `parseOid` the id of a
    well-formed string (None where the constructor throws). */
module AuthMiddleware {
  import opened Common
  import opened UserModel

  const Unauthorized := Fail(401, "UNAUTHORIZED")
  const InvalidToken := Fail(401, "INVALID_TOKEN")
  const UserNotFound := Fail(401, "USER_NOT_FOUND")
  const AccountBanned := Fail(403, "ACCOUNT_BANNED")
  const AuthError := Fail(500, "AUTH_ERROR")
  const Forbidden := Fail(403, "FORBIDDEN")

  const Bearer := "Bearer "

  /** What the guard does: admit the request with its user, or answer it. */
  datatype AuthGate = Authenticated(user: User) | Refused(reply: Outcome)

  predicate StartsWith(s: string, prefix: string) {
    |prefix| <= |s| && s[..|prefix|] == prefix
  }

  /** The user id a well-formed bearer header names, if its token verifies
      and the id parses. */
  function ClaimedId(header: Option<string>, verifyToken: string -> Option<string>,
                     parseOid: string -> Option<Oid>): Option<Oid>
  {
    if header.None? || !StartsWith(header.value, Bearer) then None
    else
      var claim := verifyToken(header.value[|Bearer|..]);
      if claim.None? then None else parseOid(claim.value)
  }

  /** `authMiddleware`. Its checks run in order, each one reached only when
      the ones before it passed: the header, the token, the id (a malformed
      one makes the lookup throw, answered 500), the account, the ban. The
      request goes on exactly when all pass, with the stored, unbanned
      user. */
  function Authenticate(header: Option<string>, verifyToken: string -> Option<string>,
                        parseOid: string -> Option<Oid>, users: map<Oid, User>): (g: AuthGate)
    ensures var bearer := header.Some? && StartsWith(header.value, Bearer);
      var claim := if bearer then verifyToken(header.value[7..]) else None;
      var id := ClaimedId(header, verifyToken, parseOid);
      && (g == Refused(Unauthorized) <==> !bearer)
      && (g == Refused(InvalidToken) <==> bearer && claim.None?)
      && (g == Refused(AuthError) <==> claim.Some? && id.None?)
      && (g == Refused(UserNotFound) <==> id.Some? && id.value !in users)
      && (g == Refused(AccountBanned) <==> id.Some? && id.value in users && users[id.value].isBanned)
      && (g.Authenticated? <==> id.Some? && id.value in users && !users[id.value].isBanned)
      && (g.Authenticated? ==> g.user == users[id.value] && !g.user.isBanned)
  {
    if header.None? || !StartsWith(header.value, Bearer) then Refused(Unauthorized)
    else
      var token := header.value[|Bearer|..];
      var claim := verifyToken(token);
      if claim.None? then Refused(InvalidToken)
      else
        var id := parseOid(claim.value);
        if id.None? then Refused(AuthError)
        else if id.value !in users then Refused(UserNotFound)
        else if users[id.value].isBanned then Refused(AccountBanned)
        else Authenticated(users[id.value])
  }

  /** The token is the header after "Bearer ": a header "Bearer t" is
      judged on `t` alone, and admitted exactly when `t` verifies to the id
      of a stored, unbanned account. */
  lemma BearerToken(t: string, verifyToken: string -> Option<string>, parseOid: string -> Option<Oid>,
                    users: map<Oid, User>)
    ensures var g := Authenticate(Some(Bearer + t), verifyToken, parseOid, users);
      && (g == Refused(InvalidToken) <==> verifyToken(t).None?)
      && (g.Authenticated? <==>
            verifyToken(t).Some? && parseOid(verifyToken(t).value).Some?
            && parseOid(verifyToken(t).value).value in users
            && !users[parseOid(verifyToken(t).value).value].isBanned)
  {
    var h := Bearer + t;
    assert StartsWith(h, Bearer) by {
      assert h[..|Bearer|] == Bearer;
    }
    assert h[|Bearer|..] == t;
  }

  /** A header that does not start with "Bearer " is refused before its
      token is looked at, whatever the token store says. */
  lemma NoBearerNoToken(header: string, v1: string -> Option<string>, v2: string -> Option<string>,
                        parseOid: string -> Option<Oid>, users: map<Oid, User>)
    requires !StartsWith(header, Bearer)
    ensures Authenticate(Some(header), v1, parseOid, users) == Authenticate(Some(header), v2, parseOid, users)
                                                           == Refused(Unauthorized)
  {
  }

  /** What the owner check does: let the request on, or answer it. */
  datatype OwnerGate = Owner | NotOwner(reply: Outcome)

  /** `ownerOnlyMiddleware`: the resource's owner field, as a string (None
      when the resource or the field is missing), must equal the caller's
      id string. */
  function OwnerOnly(resourceOwner: Option<string>, me: string): (g: OwnerGate)
    ensures g.Owner? <==> resourceOwner == Some(me)
    ensures g.NotOwner? ==> g.reply == Forbidden
  {
    if resourceOwner.None? || resourceOwner.value != me then NotOwner(Forbidden) else Owner
  }
}
