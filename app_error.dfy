/**
 * The server's error type and the HTTP response each variant becomes:
 * a status code and a JSON body with the single field "error".
 */
module AppErrors {
  import opened Text

  /** `Database` carries the database driver's error, represented by its display text. */
  datatype AppError =
    | Database(detail: string)
    | NotFound(message: string)
    | BadRequest(message: string)
    | InternalError(message: string)

  const StatusBadRequest: nat := 400
  const StatusNotFound: nat := 404
  const StatusInternalServerError: nat := 500

  /** A response: its status code and its JSON object body, field name to string value. */
  datatype Response = Response(status: nat, body: map<string, string>)

  /** The category prefix of the error's display text. */
  function Prefix(e: AppError): string
  {
    match e
    case Database(_) => "Database error: "
    case NotFound(_) => "Not found: "
    case BadRequest(_) => "Bad request: "
    case InternalError(_) => "Internal server error: "
  }

  /** The text a variant carries. */
  function Payload(e: AppError): string
  {
    match e
    case Database(d) => d
    case NotFound(m) => m
    case BadRequest(m) => m
    case InternalError(m) => m
  }

  /** The error's display text: its category prefix followed by what it carries. */
  function Describe(e: AppError): (text: string)
    ensures |text| > |Payload(e)|
    ensures text[|text| - |Payload(e)|..] == Payload(e)
  {
    Prefix(e) + Payload(e)
  }

  /** `into_response`: the variant chooses the status, and the body carries the variant's text. */
  function IntoResponse(e: AppError): (r: Response)
    ensures r.body.Keys == {"error"}
    ensures r.status == StatusBadRequest || r.status == StatusNotFound || r.status == StatusInternalServerError
    ensures Describe(e) == Prefix(e) + r.body["error"]
  {
    match e
    case Database(d) => Response(StatusInternalServerError, map["error" := d])
    case NotFound(m) => Response(StatusNotFound, map["error" := m])
    case BadRequest(m) => Response(StatusBadRequest, map["error" := m])
    case InternalError(m) => Response(StatusInternalServerError, map["error" := m])
  }

  /** Status 500 is exactly the database and internal errors. */
  lemma ServerErrorIff(e: AppError)
    ensures IntoResponse(e).status == StatusInternalServerError <==> (e.Database? || e.InternalError?)
  {
  }

  /** Status 404 is exactly `NotFound`, and status 400 exactly `BadRequest`. */
  lemma ClientErrorIff(e: AppError)
    ensures IntoResponse(e).status == StatusNotFound <==> e.NotFound?
    ensures IntoResponse(e).status == StatusBadRequest <==> e.BadRequest?
  {
  }

  /** What a client can tell from a response: the category the status stands for and the message. */
  function Recover(r: Response): (e: Option<AppError>)
  {
    if "error" !in r.body then None
    else if r.status == StatusNotFound then Some(NotFound(r.body["error"]))
    else if r.status == StatusBadRequest then Some(BadRequest(r.body["error"]))
    else if r.status == StatusInternalServerError then Some(InternalError(r.body["error"]))
    else None
  }

  /**
   * The response loses nothing but the difference between a database error
   * and an internal error with the same text.
   */
  lemma RecoverIntoResponse(e: AppError)
    ensures Recover(IntoResponse(e)) == Some(if e.Database? then InternalError(e.detail) else e)
  {
  }

  /** A database error and an internal error with the same text give the same response. */
  lemma DatabaseLooksInternal(d: string)
    ensures IntoResponse(Database(d)) == IntoResponse(InternalError(d))
  {
  }

  /** Two errors give the same response only when they agree up to that one difference. */
  lemma IntoResponseInjective(e1: AppError, e2: AppError)
    requires IntoResponse(e1) == IntoResponse(e2)
    ensures !e1.Database? && !e2.Database? ==> e1 == e2
    ensures Payload(e1) == Payload(e2)
  {
    RecoverIntoResponse(e1);
    RecoverIntoResponse(e2);
  }
}
