// The site-wide script helpers: `apiCall`, the shared fetch wrapper, with
// its body rule, its error rule and the loading state of the element that
// triggered it. (Its `getCookie` is `Cookies.GetCookie`.)
module CoreJs {
  import opened Wrappers
  import opened Strings
  import opened Http
  import Cookies
  import DashboardApi

  /** The methods that carry a JSON body. */
  predicate HasBody(verb: string) {
    verb == "POST" || verb == "PUT" || verb == "PATCH" || verb == "DELETE"
  }

  /**
   * The `body` of the fetch options: the data, when there is any and the
   * method is one that carries a body; none otherwise.
   */
  function FetchBody(verb: string, data: Option<Record>): (r: Option<Record>)
    ensures r.Some? <==> data.Some? && HasBody(verb)
    ensures r.Some? ==> r == data
  {
    if data.Some? && HasBody(verb) then data else None
  }

  /** A `GET` (the default method) never sends a body, whatever the data. */
  lemma GetSendsNoBody(data: Option<Record>)
    ensures FetchBody("GET", data).None?
  {
  }

  /** What `fetch` is given: the method, the `X-CSRFToken` header and the body. */
  datatype FetchRequest = FetchRequest(verb: string, csrfToken: Option<string>, body: Option<Record>)

  /** The error message thrown for a failed status: the body's message, else `HTTP <status>`. */
  function StatusError(b: Body, status: nat): (e: JsError)
    ensures e.name == "Error"
    ensures b.message.Some? && b.message.value != "" ==> e.message == b.message.value
    ensures (b.message.None? || b.message.value == "") ==> e.message == "HTTP " + NatToString(status)
  {
    JsError("Error", MessageOr(b, "HTTP " + NatToString(status)))
  }

  /**
   * What the awaited `apiCall` ends in: the parsed body of an ok response;
   * an unparsable body's error whatever the status; the failed status's
   * error; or the exception `fetch` threw, passed on unchanged.
   */
  function CallResult(outcome: FetchOutcome): (r: Result<Body, JsError>)
    ensures r.Ok? <==> outcome.Responded? && outcome.json.Ok? && IsOk(outcome.status)
    ensures r.Ok? ==> r.value == outcome.json.value
    ensures outcome.Threw? ==> r == Err(outcome.error)
    ensures outcome.Responded? && outcome.json.Err? ==> r == Err(outcome.json.error)
    ensures outcome.Responded? && outcome.json.Ok? && !IsOk(outcome.status) ==>
              r == Err(StatusError(outcome.json.value, outcome.status))
  {
    match outcome
    case Threw(e) => Err(e)
    case Responded(status, json) =>
      match json
      case Err(e) => Err(e)
      case Ok(b) => if IsOk(status) then Ok(b) else Err(StatusError(b, status))
  }

  /**
   * Unlike the page clients, `apiCall` hands back an ok response's body
   * even when the body itself says `success: false`.
   */
  lemma DeclaredFailureStillReturned(status: nat, b: Body)
    requires IsOk(status) && DeclaresFailure(b)
    ensures CallResult(Responded(status, Ok(b))) == Ok(b)
    ensures DashboardApi.Request(Responded(status, Ok(b))).Err?
  {
  }

  /** A failed status without a message reports the status in decimal. */
  lemma BareStatusErrorNamesStatus(status: nat, data: Option<seq<Record>>)
    requires !IsOk(status)
    ensures CallResult(Responded(status, Ok(Body(None, None, data, None)))).error.message ==
            "HTTP " + NatToString(status)
    ensures DigitsValue(CallResult(Responded(status, Ok(Body(None, None, data, None)))).error.message[5..]) == status
  {
    NatToStringRoundTrip(status);
    var m := "HTTP " + NatToString(status);
    assert m[5..] == NatToString(status);
  }

  const SpinnerHtml := "<i class=\"fas fa-spinner fa-spin me-1\"></i>처리 중..."

  /** The element that triggered the call (usually a button). */
  class LoadingElement {
    var innerHTML: string
    var disabled: bool

    constructor(innerHTML: string)
      ensures this.innerHTML == innerHTML && !disabled
    {
      this.innerHTML := innerHTML;
      disabled := false;
    }
  }

  /** The loading state set before the request: the content saved, the element disabled and spinning. */
  method StartLoading(showLoading: bool, el: LoadingElement?) returns (originalContent: Option<string>)
    modifies el
    ensures showLoading && el != null ==>
              originalContent == Some(old(el.innerHTML)) && el.disabled && el.innerHTML == SpinnerHtml
    ensures !(showLoading && el != null) ==> originalContent.None?
    ensures !showLoading && el != null ==> el.disabled == old(el.disabled) && el.innerHTML == old(el.innerHTML)
  {
    originalContent := None;
    if showLoading && el != null {
      originalContent := Some(el.innerHTML);
      el.disabled := true;
      el.innerHTML := SpinnerHtml;
    }
  }

  /** The `finally` of apiCall: a saved content is put back and the element enabled. */
  method StopLoading(showLoading: bool, el: LoadingElement?, originalContent: Option<string>)
    modifies el
    ensures showLoading && el != null && originalContent.Some? ==>
              !el.disabled && el.innerHTML == originalContent.value
    ensures !(showLoading && el != null && originalContent.Some?) ==>
              el == null || (el.disabled == old(el.disabled) && el.innerHTML == old(el.innerHTML))
  {
    if showLoading && el != null && originalContent.Some? {
      el.disabled := false;
      el.innerHTML := originalContent.value;
    }
  }

  /**
   * apiCall: builds the request (the CSRF token from the cookie, the body
   * by the method), shows the loading state, awaits the outcome and
   * always leaves the element as it found it, enabled.
   */
  method ApiCall(documentCookie: string, verb: string, data: Option<Record>, showLoading: bool,
                 el: LoadingElement?, outcome: FetchOutcome)
      returns (request: FetchRequest, result: Result<Body, JsError>)
    modifies el
    ensures request.verb == verb && request.body == FetchBody(verb, data)
    ensures request.csrfToken == Cookies.CookieRemainder(documentCookie, Cookies.DefaultCookieName)
    ensures result == CallResult(outcome)
    ensures showLoading && el != null ==> !el.disabled && el.innerHTML == old(el.innerHTML)
    ensures !showLoading && el != null ==> el.disabled == old(el.disabled) && el.innerHTML == old(el.innerHTML)
  {
    var token := Cookies.GetCookie(documentCookie, Some(Cookies.DefaultCookieName));
    var originalContent := StartLoading(showLoading, el);
    request := FetchRequest(verb, token, FetchBody(verb, data));
    result := CallResult(outcome);
    StopLoading(showLoading, el, originalContent);
  }
}
