/** rest/GlobalExceptionHandler.java: how a thrown exception becomes an HTTP response, and the shape
    of the responses the controllers build. */
module ExceptionHandler {
  import opened Wrappers
  import opened Exceptions
  import opened Mapper

  /** A value in a JSON response map. */
  datatype Value =
    | Text(text: string)
    | TextList(items: seq<string>)
    | Timestamp(instant: int)     // LocalDateTime.now(), taken as a parameter

  /** A response body. */
  datatype Body =
    | NoBody
    | View(view: ReadOnlyDto)
    | Token(token: string)
    | Json(fields: map<string, Value>)

  /** What the client gets: a response, or an exception no handler of this advice catches (Spring's
      default error handling takes over). */
  datatype HttpResult =
    | Reply(status: int, body: Body)
    | Uncaught(exception: string)

  const Ok: int := 200
  const Created: int := 201
  const NoContent: int := 204
  const BadRequest: int := 400
  const Forbidden: int := 403

  /** One entry of the details list: the field, a colon and a space, then the message. */
  function Detail(e: FieldError): string
  {
    e.field + ": " + e.message
  }

  /** The first index of ':' in s, or |s| when there is none. */
  function ColonIndex(s: string): (i: nat)
    ensures i <= |s|
    ensures forall j :: 0 <= j < i ==> s[j] != ':'
    ensures i < |s| ==> s[i] == ':'
  {
    if |s| == 0 then 0
    else if s[0] == ':' then 0
    else 1 + ColonIndex(s[1..])
  }

  /** Reads a details entry back into its field and message. */
  function ParseDetail(d: string): (r: Option<FieldError>)
  {
    var i := ColonIndex(d);
    if i + 2 <= |d| && d[i + 1] == ' ' then Some(FieldError(d[..i], d[i + 2..])) else None
  }

  /** A details entry identifies its field error: field names hold no colon. */
  lemma {:induction false} DetailRoundTrip(e: FieldError)
    requires forall j :: 0 <= j < |e.field| ==> e.field[j] != ':'
    ensures ParseDetail(Detail(e)) == Some(e)
  {
    var d := Detail(e);
    assert d[..|e.field|] == e.field;
    assert d[|e.field|] == ':';
    assert forall j :: 0 <= j < |e.field| ==> d[j] == e.field[j];
    assert ColonIndex(d) == |e.field|;
    assert d[|e.field| + 2..] == e.message;
  }

  /** The details list: one entry per field error, in the order of the errors. */
  function Details(errs: seq<FieldError>): (ds: seq<string>)
    ensures |ds| == |errs|
    ensures forall i :: 0 <= i < |errs| ==> ds[i] == Detail(errs[i])
  {
    if errs == [] then [] else [Detail(errs[0])] + Details(errs[1..])
  }

  /** Reporting two batches of errors together lists the first batch's entries, then the second's:
      nothing is dropped after the first error. */
  lemma {:induction false} DetailsOfConcatenation(a: seq<FieldError>, b: seq<FieldError>)
    ensures Details(a + b) == Details(a) + Details(b)
  {
    var l := Details(a + b);
    var r := Details(a) + Details(b);
    assert |l| == |r|;
    forall i | 0 <= i < |l| ensures l[i] == r[i] {
      if i < |a| {
        assert (a + b)[i] == a[i];
      } else {
        assert (a + b)[i] == b[i - |a|];
      }
    }
  }

  /** handleAppGenericException: 400 with the exception's code and message and a timestamp. */
  function HandleApp(e: AppError, now: int): (r: HttpResult)
    ensures r.Reply? && r.status == BadRequest && r.body.Json?
    ensures r.body.fields.Keys == {"code", "message", "timestamp"}
    ensures r.body.fields["code"] == Text(e.code) && r.body.fields["message"] == Text(e.message)
  {
    Reply(BadRequest, Json(map["code" := Text(e.code), "message" := Text(e.message), "timestamp" := Timestamp(now)]))
  }

  /** handleValidationException: 400 with ValidationException's fixed code and message, every field
      error as a details entry, and a timestamp. */
  function HandleValidation(errs: seq<FieldError>, now: int): (r: HttpResult)
    ensures r.Reply? && r.status == BadRequest && r.body.Json?
    ensures r.body.fields.Keys == {"code", "message", "details", "timestamp"}
    ensures r.body.fields["code"] == Text(ValidationCode)
    ensures r.body.fields["message"] == Text(ValidationMessage)
    ensures r.body.fields["details"].TextList?
    ensures var ds := r.body.fields["details"].items;
      |ds| == |errs| && forall i :: 0 <= i < |errs| ==> ds[i] == Detail(errs[i])
  {
    Reply(BadRequest, Json(map["code" := Text(ValidationCode), "message" := Text(ValidationMessage),
                                "details" := TextList(Details(errs)), "timestamp" := Timestamp(now)]))
  }

  /** The advice as a whole: the more specific handler wins for a ValidationException; every other
      application exception, whatever its kind, is a 400; anything else is not handled here. */
  function Handle(t: Thrown, now: int): (r: HttpResult)
    ensures t.App? ==> r == HandleApp(t.error, now)
    ensures t.Validation? ==> r == HandleValidation(t.fieldErrors, now)
    ensures r.Uncaught? <==> t.Runtime?
    ensures r.Reply? ==> r.status == BadRequest
  {
    match t
    case App(e) => HandleApp(e, now)
    case Validation(errs) => HandleValidation(errs, now)
    case Runtime(x) => Uncaught(x)
  }
}
