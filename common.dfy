/** Values shared by every component of the clinic backend model. */
module Common {

  /** A value that may be missing: a TypeScript `T | null` or an optional property. */
  datatype Option<T> = None | Some(value: T) {
    function GetOr(default: T): T {
      match this
      case Some(v) => v
      case None => default
    }
  }

  /** The outcome of an `async` operation that returns nothing but may throw an `Error`. */
  datatype Outcome = Pass | Fail(message: string) {
    /** The thrown message, or "" when nothing was thrown. */
    function ErrorText(): string {
      match this
      case Fail(m) => m
      case Pass => ""
    }
  }

  /** The outcome of an `async` operation that returns a value or throws an `Error`. */
  datatype Result<T> = Ok(value: T) | Err(message: string)

  /**
   * `s || null` for an optional text column: an absent value and the empty
   * string (which JavaScript treats as false) are both stored as SQL NULL.
   */
  function OrNull(s: Option<string>): (r: Option<string>)
    ensures r.None? <==> (s.None? || s.value == "")
    ensures r.Some? ==> r == s
  {
    if s.Some? && s.value != "" then s else None
  }

  /** Storing a value already normalised by `OrNull` stores it unchanged. */
  lemma OrNullIdempotent(s: Option<string>)
    ensures OrNull(OrNull(s)) == OrNull(s)
  {
  }

  const PatientRole := "Patient"
  const DoctorRole := "Doctor"
  const AdminRole := "Admin"
}

/** The part of an Express response the middleware and handlers write: a status and a JSON body. */
module Http {

  /** A JSON body of the form `{message: ...}` or `{error: ...}`. */
  datatype Body = Message(message: string) | Error(error: string)

  datatype Reply = Reply(status: int, body: Body)
}
