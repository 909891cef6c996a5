/** Shared vocabulary of the model: optional values, ObjectIds, the
    (HTTP status, error code) outcome every handler answers with, and the
    result of an insert that may hit a unique index. */
module Common {

  datatype Option<T> = None | Some(value: T) {
    function GetOr(default: T): T {
      match this
      case Some(v) => v
      case None => default
    }
  }

  /** A MongoDB ObjectId. Each collection draws fresh ones from its own counter,
      so two documents of one collection never share an id. */
  datatype Oid = Oid(n: nat)

  /** What a handler sends back: a success status, or an error status with the
      error code of the JSON body, a string or (for an error the store raised)
      the store's numeric code. Messages and bodies are not modelled. */
  datatype Outcome = Ok(status: int) | Fail(status: int, code: string) | FailNum(status: int, num: int)

  /** An insert either succeeds or is refused by a unique index (MongoDB error
      11000), which leaves the collection unchanged. */
  datatype Inserted<R> = Inserted(value: R) | DuplicateKey

  /** A collection whose documents are addressed by key `K`, with the counter
      that the next inserted document draws its fresh ObjectId from. */
  datatype Table<K, V> = Table(rows: map<K, V>, nextId: nat) {
    function Fresh(): Oid { Oid(nextId) }
  }

  /** The reply the error handler gives a thrown duplicate-key error. */
  const DuplicateKeyReply: Outcome := Fail(409, "DUPLICATE_KEY")

  /** The reply the error handler gives an error without status or code, such
      as a plain thrown error. */
  const InternalErrorReply: Outcome := Fail(500, "INTERNAL_ERROR")

  /** The code of the MongoDB server's error for a negative `skip` (a
      MongoServerError, which carries no HTTP status). */
  const NegativeSkipCode := 51024

  /** The reply the error handler gives that error: 500 with the store's
      numeric code. */
  const NegativeSkipReply: Outcome := FailNum(500, NegativeSkipCode)
}
