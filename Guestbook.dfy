/**
 * The guestbook entry and the request validation that both server variants
 * share: trim the name and the message, default a missing name to
 * "Anonymous", and reject a message that is blank after trimming.
 */
module Guestbook {
  import opened Wrappers
  import opened Text

  /** One guestbook submission as stored and listed. */
  datatype Entry = Entry(id: int, name: string, message: string, createdAt: string)

  /**
   * The JSON body of a POST. A field is None when its key is absent; a
   * present field is a string (null or non-string values are not modelled).
   */
  datatype Request = Request(name: Option<string>, message: Option<string>)

  /** A request that passed validation: the trimmed name and message. */
  datatype Submission = Submission(name: string, message: string)

  /** An HTTP reply: 201 with a body, 400 with an error text, or 500 from an uncaught exception. */
  datatype Response<B> = Created(body: B) | BadRequest(error: string) | ServerError {
    function Status(): int {
      match this
      case Created(_) => 201
      case BadRequest(_) => 400
      case ServerError => 500
    }
  }

  const DefaultName: string := "Anonymous"
  const MessageRequired: string := "Message is required"

  /** The message as the server sees it before trimming: absent reads as "". */
  function RawMessage(req: Request): string {
    req.message.GetOr("")
  }

  /** A message that strips to nothing under Python's str.strip(). */
  predicate IsBlank(s: string) {
    AllIn(s, PythonWhitespace)
  }

  /** What every stored entry satisfies: trimmed name, trimmed non-empty message. */
  predicate WellFormed(e: Entry) {
    IsTrimmed(e.name, PythonWhitespace) && e.message != [] && IsTrimmed(e.message, PythonWhitespace)
  }

  /**
   * Reads and checks the name and message of a POST body. The default name
   * replaces only a MISSING key: a present but blank name strips to "".
   */
  function Validate(req: Request): (r: Result<Submission, string>)
    ensures r.Failure? <==> IsBlank(RawMessage(req))
    ensures r.Failure? ==> r.error == MessageRequired
    ensures r.Success? ==> r.value.message == Strip(RawMessage(req), PythonWhitespace)
    ensures r.Success? ==> r.value.message != [] && IsTrimmed(r.value.message, PythonWhitespace)
    ensures r.Success? && req.name.None? ==> r.value.name == DefaultName
    ensures r.Success? && req.name.Some? ==> r.value.name == Strip(req.name.value, PythonWhitespace)
    ensures r.Success? ==> IsTrimmed(r.value.name, PythonWhitespace)
  {
    StripTrimmed(DefaultName, PythonWhitespace);
    var name := Strip(req.name.GetOr(DefaultName), PythonWhitespace);
    var message := Strip(RawMessage(req), PythonWhitespace);
    if message == [] then Failure(MessageRequired) else Success(Submission(name, message))
  }

  /** A message made only of spaces, of any length, or a missing message is rejected whatever the name. */
  lemma {:induction false} BlankMessageRejected(name: Option<string>, spaces: string)
    requires forall k :: 0 <= k < |spaces| ==> spaces[k] == ' '
    ensures Validate(Request(name, Some(spaces))) == Failure(MessageRequired)
    ensures Validate(Request(name, None)) == Failure(MessageRequired)
  {
    assert ' ' in PythonWhitespace;
  }

  /** A present name that is empty after trimming stays empty: it is not replaced by "Anonymous". */
  lemma {:induction false} BlankNameStaysEmpty(name: string, message: string)
    requires IsBlank(name) && !IsBlank(message)
    ensures Validate(Request(Some(name), Some(message))).Success?
    ensures Validate(Request(Some(name), Some(message))).value.name == ""
  {
  }
}
