/** The request validation rules (middleware/validation.js). Each rule set
    checks named fields of the body, the route parameters or the query
    string and collects one error per failing check; `validate` lets the
    request through exactly when no check failed.

    A field's value is the string the validators see: a missing field reads
    as the empty string, and `optional()` skips a missing field altogether.
    The e-mail and ISO 8601 checks and date parsing come from a library and
    are parameters. */
module Validation {
  import opened Common
  import opened Listing

  /** The fields of the body, the route or the query string. */
  type Fields = map<string, string>

  datatype Location = Body | Param | Query

  /** One entry of `errors.array()`. */
  datatype FieldError = FieldError(location: Location, field: string, message: string)

  /** What `validate` does: pass the request on, or answer it. */
  datatype Gate = Next | Reject(reply: Outcome, details: seq<FieldError>)

  const DefaultMessage := "Invalid value"
  const ValidationFailed := Fail(400, "VALIDATION_ERROR")

  /** The value a validator sees: a missing field is the empty string. */
  function Value(f: Fields, name: string): string {
    if name in f then f[name] else ""
  }

  /** One check of a chain: no error when it holds. */
  function Check(loc: Location, name: string, ok: bool, message: string): (r: seq<FieldError>)
    ensures r == [] <==> ok
  {
    if ok then [] else [FieldError(loc, name, message)]
  }

  // ---------------------------------------------------------------------------
  // Character classes and the patterns built from them

  predicate WordChar(c: char) {
    ('a' <= c <= 'z') || ('A' <= c <= 'Z') || ('0' <= c <= '9') || c == '_'
  }

  predicate HexChar(c: char) {
    ('0' <= c <= '9') || ('a' <= c <= 'f') || ('A' <= c <= 'F')
  }

  predicate DigitChar(c: char) {
    '0' <= c <= '9'
  }

  /** `^[a-zA-Z0-9_]+$`, matched one character at a time. */
  predicate UsernamePattern(s: string) {
    if |s| == 0 then false
    else WordChar(s[0]) && (|s| == 1 || UsernamePattern(s[1..]))
  }

  /** `^[0-9a-fA-F]{24}$`: counts down the 24 repetitions. */
  predicate HexRun(s: string, n: nat) {
    if n == 0 then s == []
    else |s| > 0 && HexChar(s[0]) && HexRun(s[1..], n - 1)
  }

  lemma {:induction false} UsernamePatternChars(s: string)
    ensures UsernamePattern(s) <==> |s| > 0 && forall i :: 0 <= i < |s| ==> WordChar(s[i])
    decreases |s|
  {
    if |s| > 1 {
      UsernamePatternChars(s[1..]);
      assert forall i :: 1 <= i < |s| ==> s[i] == s[1..][i - 1];
    }
  }

  lemma {:induction false} HexRunChars(s: string, n: nat)
    ensures HexRun(s, n) <==> |s| == n && forall i :: 0 <= i < |s| ==> HexChar(s[i])
    decreases n
  {
    if n > 0 && |s| > 0 {
      HexRunChars(s[1..], n - 1);
      assert forall i :: 1 <= i < |s| ==> s[i] == s[1..][i - 1];
    }
  }

  // ---------------------------------------------------------------------------
  // isInt: `^[-+]?[0-9]+$`, then the number compared with the bounds

  function DigitValue(c: char): nat
    requires DigitChar(c)
  {
    (c as int - '0' as int) as nat
  }

  /** The value of a run of decimal digits (leading zeros allowed). */
  function DigitsValue(s: string): Option<nat>
    decreases |s|
  {
    if |s| == 0 || !DigitChar(s[|s| - 1]) then None
    else if |s| == 1 then Some(DigitValue(s[0]))
    else
      var init := DigitsValue(s[..|s| - 1]);
      if init.None? then None else Some(10 * init.value + DigitValue(s[|s| - 1]))
  }

  /** The integer `isInt` accepts, or None when the text is not one. */
  function IntValue(s: string): Option<int> {
    if |s| > 0 && s[0] == '-' then
      var d := DigitsValue(s[1..]);
      if d.None? then None else Some(0 - d.value)
    else if |s| > 0 && s[0] == '+' then DigitsValue(s[1..])
    else
      var d := DigitsValue(s);
      if d.None? then None else Some(d.value)
  }

  /** `isInt({ min, max })`; a bound left out is None. */
  predicate IsIntIn(s: string, min: Option<int>, max: Option<int>) {
    var v := IntValue(s);
    v.Some? && (min.None? || v.value >= min.value) && (max.None? || v.value <= max.value)
  }

  function DigitOf(d: nat): char
    requires d < 10
  {
    ('0' as int + d) as char
  }

  /** The decimal text of a natural number. */
  function NatText(n: nat): (s: string)
    ensures |s| > 0 && s[0] != '-' && s[0] != '+'
    decreases n
  {
    if n < 10 then [DigitOf(n)] else NatText(n / 10) + [DigitOf(n % 10)]
  }

  /** The decimal text of an integer, with a minus sign when negative. */
  function IntText(n: int): string {
    if n < 0 then "-" + NatText(-n) else NatText(n)
  }

  lemma {:induction false} DigitsOfNatText(n: nat)
    ensures DigitsValue(NatText(n)) == Some(n)
    decreases n
  {
    if n >= 10 {
      DigitsOfNatText(n / 10);
      var s := NatText(n);
      assert s[..|s| - 1] == NatText(n / 10);
    }
  }

  /** Every integer's decimal text is accepted by `isInt` and read back as
      that integer. */
  lemma IntValueOfIntText(n: int)
    ensures IntValue(IntText(n)) == Some(n)
  {
    if n < 0 {
      DigitsOfNatText(-n);
      assert IntText(n)[1..] == NatText(-n);
    } else {
      DigitsOfNatText(n);
    }
  }

  // ---------------------------------------------------------------------------
  // The rule sets

  /** `optional()`: the checks run only when the field is present. */
  function Optional(f: Fields, loc: Location, name: string, ok: string -> bool, message: string): (r: seq<FieldError>)
    ensures r == [] <==> name !in f || ok(f[name])
  {
    if name in f then Check(loc, name, ok(f[name]), message) else []
  }

  /** A registration passes exactly with an e-mail, a password of at least
      8 characters, a username of 3 to 30 letters, digits and underscores,
      and a display name, if any, of at most 50 characters. */
  function RegisterErrors(b: Fields, isEmail: string -> bool): (r: seq<FieldError>)
    ensures r == [] <==>
      && isEmail(Value(b, "email"))
      && |Value(b, "password")| >= 8
      && 3 <= |Value(b, "username")| <= 30
      && (forall i :: 0 <= i < |Value(b, "username")| ==> WordChar(Value(b, "username")[i]))
      && ("displayName" in b ==> |b["displayName"]| <= 50)
  {
    Check(Body, "email", isEmail(Value(b, "email")), "Valid email is required")
    + Check(Body, "password", |Value(b, "password")| >= 8, "Password must be at least 8 characters")
    + UsernameErrors(Value(b, "username"))
    + Optional(b, Body, "displayName", s => |s| <= 50, "Display name max 50 characters")
  }

  /** The username chain: a length check and a pattern check, each with its
      own error. */
  function UsernameErrors(username: string): (r: seq<FieldError>)
    ensures r == [] <==> 3 <= |username| <= 30 && forall i :: 0 <= i < |username| ==> WordChar(username[i])
  {
    UsernamePatternChars(username);
    Check(Body, "username", 3 <= |username| <= 30, "Username must be 3-30 characters")
    + Check(Body, "username", UsernamePattern(username), "Username can only contain letters, numbers, and underscores")
  }

  /** A login passes exactly with an e-mail and a non-empty password. */
  function LoginErrors(b: Fields, isEmail: string -> bool): (r: seq<FieldError>)
    ensures r == [] <==> isEmail(Value(b, "email")) && "password" in b && b["password"] != ""
  {
    Check(Body, "email", isEmail(Value(b, "email")), "Valid email is required")
    + Check(Body, "password", Value(b, "password") != "", "Password is required")
  }

  /** A review passes exactly with an integer rating from 1 to 5 (written
      with an optional sign and leading zeros) and a text, if any, of at most
      500 characters. */
  function CreateReviewErrors(b: Fields): (r: seq<FieldError>)
    ensures r == [] <==>
      && "rating" in b && IntValue(b["rating"]).Some? && 1 <= IntValue(b["rating"]).value <= 5
      && ("text" in b ==> |b["text"]| <= 500)
  {
    Check(Body, "rating", IsIntIn(Value(b, "rating"), Some(1), Some(5)), "Rating must be between 1 and 5")
    + Optional(b, Body, "text", s => |s| <= 500, "Review text max 500 characters")
  }

  /** A session passes exactly with a title of 1 to 100 characters, a
      course, if any, of at most 50, between 2 and 10 people and a place. */
  function CreateSessionErrors(b: Fields): (r: seq<FieldError>)
    ensures r == [] <==>
      && "title" in b && 1 <= |b["title"]| <= 100
      && ("course" in b ==> |b["course"]| <= 50)
      && "maxPeople" in b && IntValue(b["maxPeople"]).Some? && 2 <= IntValue(b["maxPeople"]).value <= 10
      && "placeId" in b && b["placeId"] != ""
  {
    Check(Body, "title", Value(b, "title") != "", DefaultMessage)
    + Check(Body, "title", |Value(b, "title")| <= 100, "Title required, max 100 characters")
    + Optional(b, Body, "course", s => |s| <= 50, "Course max 50 characters")
    + Check(Body, "maxPeople", IsIntIn(Value(b, "maxPeople"), Some(2), Some(10)), "Max people must be between 2 and 10")
    + Check(Body, "placeId", Value(b, "placeId") != "", "Place ID is required")
  }

  /** A profile update passes exactly when each supplied field is within
      its length. */
  function UpdateUserErrors(b: Fields): (r: seq<FieldError>)
    ensures r == [] <==>
      && ("displayName" in b ==> |b["displayName"]| <= 50)
      && ("bio" in b ==> |b["bio"]| <= 200)
      && ("school" in b ==> |b["school"]| <= 100)
  {
    Optional(b, Body, "displayName", s => |s| <= 50, "Display name max 50 characters")
    + Optional(b, Body, "bio", s => |s| <= 200, "Bio max 200 characters")
    + Optional(b, Body, "school", s => |s| <= 100, "School max 100 characters")
  }

  /** The end-date check: it fails only when both dates parse and the end
      is not after the start (a comparison with an invalid date is false). */
  predicate EndAfterStart(end: string, start: string, date: string -> Option<int>) {
    !(date(end).Some? && date(start).Some? && date(end).value <= date(start).value)
  }

  /** A promo passes exactly with a title of 1 to 100 characters, a place,
      two ISO 8601 dates, and an end after the start whenever both parse. */
  function CreatePromoErrors(b: Fields, isISO8601: string -> bool, date: string -> Option<int>): (r: seq<FieldError>)
    ensures r == [] <==>
      && "title" in b && 1 <= |b["title"]| <= 100
      && "placeId" in b && b["placeId"] != ""
      && isISO8601(Value(b, "promoStart")) && isISO8601(Value(b, "promoEnd"))
      && (date(Value(b, "promoEnd")).Some? && date(Value(b, "promoStart")).Some? ==>
            date(Value(b, "promoEnd")).value > date(Value(b, "promoStart")).value)
  {
    Check(Body, "title", Value(b, "title") != "", DefaultMessage)
    + Check(Body, "title", |Value(b, "title")| <= 100, "Title required, max 100 characters")
    + Check(Body, "placeId", Value(b, "placeId") != "", "Place ID is required")
    + Check(Body, "promoStart", isISO8601(Value(b, "promoStart")), "Valid start date required")
    + Check(Body, "promoEnd", isISO8601(Value(b, "promoEnd")), "Valid end date required")
    + Check(Body, "promoEnd", EndAfterStart(Value(b, "promoEnd"), Value(b, "promoStart"), date),
            "End date must be after start date")
  }

  /** An id parameter passes exactly when it is 24 hexadecimal digits. */
  function ObjectIdErrors(params: Fields, name: string): (r: seq<FieldError>)
    ensures r == [] <==> name in params && |params[name]| == 24 && forall i :: 0 <= i < 24 ==> HexChar(params[name][i])
  {
    HexRunChars(Value(params, name), 24);
    Check(Param, name, HexRun(Value(params, name), 24), "Invalid ID format")
  }

  /** The page and limit a listing reads from the query string (`parseInt`). */
  function QueryInt(q: Fields, name: string): Option<int> {
    if name in q then IntValue(q[name]) else None
  }

  /** Pagination passes exactly with a page, if any, of at least 1 and a
      limit, if any, from 1 to 100. */
  function PaginationErrors(q: Fields): (r: seq<FieldError>)
    ensures r == [] <==>
      && ("page" in q ==> QueryInt(q, "page").Some? && QueryInt(q, "page").value >= 1)
      && ("limit" in q ==> QueryInt(q, "limit").Some? && 1 <= QueryInt(q, "limit").value <= 100)
  {
    Optional(q, Query, "page", s => IsIntIn(s, Some(1), None), "Page must be positive integer")
    + Optional(q, Query, "limit", s => IsIntIn(s, Some(1), Some(100)), "Limit must be between 1 and 100")
  }

  /** `validate`: the request goes on exactly when no check failed, and is
      otherwise answered 400 VALIDATION_ERROR with every failure listed. */
  function Validate(errors: seq<FieldError>): (g: Gate)
    ensures g.Next? <==> errors == []
    ensures g.Reject? ==> g.reply == ValidationFailed && g.details == errors && |g.details| > 0
  {
    if errors == [] then Next else Reject(ValidationFailed, errors)
  }

  /** Each rating from 1 to 5, written plainly, passes. */
  lemma RatingsAccepted(b: Fields, n: int)
    requires 1 <= n <= 5 && "text" !in b
    ensures Validate(CreateReviewErrors(b["rating" := IntText(n)])).Next?
  {
    IntValueOfIntText(n);
  }

  lemma SkipOfPositives(p: int, l: int)
    requires p >= 1 && l >= 1
    ensures Skip(p, l) >= 0
  {
  }

  /** After pagination passes, the listing's skip is never negative,
      whatever its default limit, so the query cannot fail on it. */
  lemma PaginationKeepsSkip(q: Fields, defaultLimit: int)
    requires defaultLimit > 0 && Validate(PaginationErrors(q)).Next?
    ensures Skip(PageParam(QueryInt(q, "page"), 1), PageParam(QueryInt(q, "limit"), defaultLimit)) >= 0
  {
    SkipOfPositives(PageParam(QueryInt(q, "page"), 1), PageParam(QueryInt(q, "limit"), defaultLimit));
  }
}
