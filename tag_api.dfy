// The tag page's API client: its request outcome classification, its status
// messages and `getTags`. It differs from the dashboard's client only in
// its messages and in reporting every other exception as a network error.
module TagApi {
  import opened Wrappers
  import opened Strings
  import opened Http
  import Config = TagsConfig
  import DashboardApi

  /** _getErrorMessage: 400 is a validation failure here; the status text otherwise. */
  function ErrorMessage(status: nat): (m: string)
    ensures status == 400 ==> m == Config.ValidationFailed
    ensures status == 403 ==> m == Config.PermissionDenied
    ensures status == 404 ==> m == Config.NotFound
    ensures status == 500 ==> m == Config.ServerError
    ensures status !in {400, 403, 404, 500} ==> m == StatusMessage(status)
  {
    match status
    case 400 => Config.ValidationFailed
    case 403 => Config.PermissionDenied
    case 404 => Config.NotFound
    case 500 => Config.ServerError
    case _ => StatusMessage(status)
  }

  /** The catch of _request for anything but an `ApiError`. */
  function Caught(e: JsError): (err: ApiError)
    ensures err.status == (if e.name == "AbortError" then 408 else 0)
    ensures err.message == Config.NetworkError
  {
    if e.name == "AbortError" then ApiError(Config.NetworkError, 408)
    else ApiError(Config.NetworkError, 0)
  }

  /**
   * _request: the body of a 2xx response that does not declare failure,
   * else the `ApiError`. The tag page ships its own copy of the dashboard
   * client, so this mirrors DashboardApi.Request rather than reusing it;
   * ClientsAgreeOnStatus and ClientsDifferOnParseErrors relate the two.
   */
  function Request(o: FetchOutcome): (r: Result<Body, ApiError>)
    ensures r.Ok? <==> o.Responded? && IsOk(o.status) && o.json.Ok? && !DeclaresFailure(o.json.value)
    ensures r.Ok? ==> r.value == o.json.value
  {
    match o
    case Threw(e) => Err(Caught(e))
    case Responded(status, json) =>
      if !IsOk(status) then Err(ApiError(ErrorMessage(status), status))
      else
        match json
        case Err(e) => Err(Caught(e))
        case Ok(b) =>
          if DeclaresFailure(b) then Err(ApiError(MessageOr(b, Config.ServerError), status))
          else Ok(b)
  }

  /** A 400 asks the user to check the input. */
  lemma BadRequestIsValidation(json: Result<Body, JsError>)
    ensures Request(Responded(400, json)) == Err(ApiError(Config.ValidationFailed, 400))
  {
  }

  /** An exception other than an abort is always reported as a network error with status 0. */
  lemma OtherExceptionsAreNetworkErrors(e: JsError)
    requires e.name != "AbortError"
    ensures Request(Threw(e)) == Err(ApiError(Config.NetworkError, 0))
  {
  }

  /**
   * Both clients succeed and fail on the same outcomes, with the same body
   * and the same status; only the messages of their failures differ.
   */
  lemma ClientsAgreeOnStatus(o: FetchOutcome)
    ensures Request(o).Ok? <==> DashboardApi.Request(o).Ok?
    ensures Request(o).Ok? ==> Request(o).value == DashboardApi.Request(o).value
    ensures Request(o).Err? ==> Request(o).error.status == DashboardApi.Request(o).error.status
  {
  }

  /** The dashboard client passes a parse error's own message through; this one does not. */
  lemma ClientsDifferOnParseErrors()
    ensures var o := Responded(200, Err(JsError("SyntaxError", "Unexpected token")));
            Request(o).error.message == Config.NetworkError &&
            DashboardApi.Request(o).error.message == "Unexpected token"
  {
    AbsentCharNotContained("Unexpected token", "fetch", 0);
  }

  /** getTags: `result.tags || []`. */
  function GetTags(o: FetchOutcome): (r: Result<seq<Record>, ApiError>)
    ensures r.Ok? <==> Request(o).Ok?
    ensures r.Ok? ==> r.value == Request(o).value.tags.GetOr([])
    ensures r.Err? ==> r.error == Request(o).error
  {
    match Request(o)
    case Err(e) => Err(e)
    case Ok(b) => Ok(b.tags.GetOr([]))
  }
}
