/** The mapping from a raised exception to an HTTP response carrying a FHIR
    OperationOutcome. */
module GlobalExceptionHandler {
  import opened Wrappers
  import opened Exceptions

  datatype IssueSeverity = Fatal | Error | Warning | Information

  /** The OperationOutcome issue types the handler uses. */
  datatype IssueType = NotFound | Invalid | ExceptionIssue

  datatype Issue = Issue(severity: IssueSeverity, code: IssueType, diagnostics: Option<string>)

  datatype OperationOutcome = OperationOutcome(issue: seq<Issue>)

  datatype Response = Response(status: int, outcome: OperationOutcome, entity: string)

  const NotFoundStatus := 404
  const BadRequestStatus := 400
  const ServerErrorStatus := 500

  /** The status and issue type of each kind of failure. */
  function Classify(f: Failure): (sc: (int, IssueType))
    ensures f.ResourceNotFound? <==> sc == (NotFoundStatus, NotFound)
    ensures f.FhirValidation? <==> sc == (BadRequestStatus, Invalid)
    ensures f.Unexpected? <==> sc == (ServerErrorStatus, ExceptionIssue)
  {
    match f
    case ResourceNotFound(_) => (NotFoundStatus, NotFound)
    case FhirValidation(_) => (BadRequestStatus, Invalid)
    case Unexpected(_) => (ServerErrorStatus, ExceptionIssue)
  }

  /** HAPI's `setDiagnostics`: a null or empty string leaves the element
      without a value. */
  function Diagnostics(message: Option<string>): (d: Option<string>)
    ensures d.None? <==> message.None? || message == Some("")
    ensures d.Some? ==> d == message
  {
    if message == Some("") then None else message
  }

  /** `toResponse`: one error issue whose diagnostics is the exception's
      message, encoded as the response entity. */
  function ToResponse(encode: OperationOutcome -> string, f: Failure): (r: Response)
    ensures |r.outcome.issue| == 1
    ensures r.outcome.issue[0].severity == Error && r.outcome.issue[0].diagnostics == Diagnostics(f.message)
    ensures (r.status, r.outcome.issue[0].code) == Classify(f)
    ensures r.entity == encode(r.outcome)
  {
    var (status, code) := Classify(f);
    var outcome := OperationOutcome([Issue(Error, code, Diagnostics(f.message))]);
    Response(status, outcome, encode(outcome))
  }

  /** The failure a response reports, read back from its status and its
      single issue. */
  function FailureOf(r: Response): (f: Option<Failure>)
    ensures f.Some? ==> |r.outcome.issue| == 1 && f.value.message == r.outcome.issue[0].diagnostics
  {
    if |r.outcome.issue| != 1 then None
    else
      var message := r.outcome.issue[0].diagnostics;
      if r.status == NotFoundStatus then Some(ResourceNotFound(message))
      else if r.status == BadRequestStatus then Some(FhirValidation(message))
      else if r.status == ServerErrorStatus then Some(Unexpected(message))
      else None
  }

  /** The response determines the failure: its kind, and its message up to
      an empty message, which reads back as none. */
  lemma ResponseIdentifiesFailure(encode: OperationOutcome -> string, f: Failure)
    ensures FailureOf(ToResponse(encode, f)) == Some(f.(message := Diagnostics(f.message)))
    ensures f.message != Some("") ==> FailureOf(ToResponse(encode, f)) == Some(f)
  {
  }

  /** An exception with an empty message is answered exactly as one with no
      message: the response cannot tell them apart. */
  lemma EmptyMessageIsNoMessage(encode: OperationOutcome -> string, f: Failure)
    requires f.message == Some("")
    ensures ToResponse(encode, f) == ToResponse(encode, f.(message := None))
  {
  }

  /** Two failures answered with the same status are of the same kind. */
  lemma StatusDeterminesKind(encode: OperationOutcome -> string, f: Failure, g: Failure)
    requires ToResponse(encode, f).status == ToResponse(encode, g).status
    ensures f.ResourceNotFound? == g.ResourceNotFound? && f.FhirValidation? == g.FhirValidation? && f.Unexpected? == g.Unexpected?
  {
  }
}
