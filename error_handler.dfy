/** The error handler (middleware/errorHandler.js): every error a handler
    throws or passes on becomes a status and an error code, by an ordered
    chain of tests on the error's fields. */
module ErrorHandler {
  import opened Common

  /** `err.code`: the MongoDB driver sets a number, handlers may set a
      string. */
  datatype ErrCode = NumCode(n: int) | TextCode(s: string)

  /** The fields the handler reads; a field the error lacks is None. */
  datatype Error = Error(name: string, code: Option<ErrCode>, status: Option<int>)

  datatype Reply = Reply(status: int, code: ErrCode)

  const DuplicateKeyCode := 11000

  /** JavaScript truthiness of `err.code`: missing, 0 and '' are false. */
  predicate CodeGiven(code: Option<ErrCode>) {
    match code
    case None => false
    case Some(NumCode(n)) => n != 0
    case Some(TextCode(s)) => s != ""
  }

  /** `errorHandler`. The duplicate-key test comes first, so it wins over
      every name; then the two token errors, then validation errors; any
      other error keeps its own status and code, 500 and INTERNAL_ERROR
      standing in for missing (or false) ones. */
  function Handle(e: Error): (r: Reply)
    ensures e.code == Some(NumCode(DuplicateKeyCode)) ==> r == Reply(409, TextCode("DUPLICATE_KEY"))
    ensures e.code != Some(NumCode(DuplicateKeyCode)) ==>
      && (e.name == "JsonWebTokenError" ==> r == Reply(401, TextCode("INVALID_TOKEN")))
      && (e.name == "TokenExpiredError" ==> r == Reply(401, TextCode("TOKEN_EXPIRED")))
      && (e.name == "ValidationError" ==> r == Reply(400, TextCode("VALIDATION_ERROR")))
    ensures e.code != Some(NumCode(DuplicateKeyCode)) && e.name !in {"JsonWebTokenError", "TokenExpiredError", "ValidationError"} ==>
      && r.status == (if e.status.None? || e.status.value == 0 then 500 else e.status.value)
      && r.code == (if CodeGiven(e.code) then e.code.value else TextCode("INTERNAL_ERROR"))
  {
    if e.code == Some(NumCode(DuplicateKeyCode)) then Reply(409, TextCode("DUPLICATE_KEY"))
    else if e.name == "JsonWebTokenError" then Reply(401, TextCode("INVALID_TOKEN"))
    else if e.name == "TokenExpiredError" then Reply(401, TextCode("TOKEN_EXPIRED"))
    else if e.name == "ValidationError" then Reply(400, TextCode("VALIDATION_ERROR"))
    else
      var status := if e.status.None? || e.status.value == 0 then 500 else e.status.value;
      Reply(status, if CodeGiven(e.code) then e.code.value else TextCode("INTERNAL_ERROR"))
  }

  /** The reply as a handler outcome. */
  function AsOutcome(r: Reply): Outcome {
    match r.code
    case TextCode(s) => Fail(r.status, s)
    case NumCode(n) => FailNum(r.status, n)
  }

  /** The three replies the handler models use for errors they pass on: an
      insert refused by a unique index is answered 409 DUPLICATE_KEY, a
      plain thrown error (no status, no code, an ordinary name) 500
      INTERNAL_ERROR, and the store's refusal of a negative skip (a numeric
      code, no status) 500 with that code. */
  lemma HandlerReplies(name: string)
    ensures AsOutcome(Handle(Error(name, Some(NumCode(DuplicateKeyCode)), None))) == DuplicateKeyReply
    ensures name !in {"JsonWebTokenError", "TokenExpiredError", "ValidationError"} ==>
      && AsOutcome(Handle(Error(name, None, None))) == InternalErrorReply
      && AsOutcome(Handle(Error(name, Some(NumCode(NegativeSkipCode)), None))) == NegativeSkipReply
  {
  }

  /** Every reply is an error status unless the error itself carried a
      non-error one: 400, 401, 409 and 500 are the handler's own. */
  lemma HandlerStatus(e: Error)
    ensures Handle(e).status in {400, 401, 409, 500} || (e.status.Some? && Handle(e).status == e.status.value)
  {
  }
}
