// The dashboard's API layer: the request outcome classification and status
// messages of its `ApiClient`, the query-parameter filter of `get`, the
// success-message rewriting of the slot and tag services, the health check
// and the retry loop with exponential backoff.
module DashboardApi {
  import opened Wrappers
  import opened Strings
  import opened Http
  import Config = DashboardConfig

  /** _getErrorMessage: four fixed messages, the status text otherwise. */
  function ErrorMessage(status: nat): (m: string)
    ensures status == 400 ==> m == Config.LoadFailed
    ensures status == 403 ==> m == Config.PermissionDenied
    ensures status == 404 ==> m == Config.NotFound
    ensures status == 500 ==> m == Config.ServerError
    ensures status !in {400, 403, 404, 500} ==> m == StatusMessage(status)
  {
    match status
    case 400 => Config.LoadFailed
    case 403 => Config.PermissionDenied
    case 404 => Config.NotFound
    case 500 => Config.ServerError
    case _ => StatusMessage(status)
  }

  /** The four fixed messages are told apart, and none reads as a status text. */
  lemma FixedMessagesDistinct(a: nat, b: nat)
    requires a in {400, 403, 404, 500} && a != b
    ensures ErrorMessage(a) != ErrorMessage(b)
  {
    var p := "HTTP error! status: ";
    if b !in {400, 403, 404, 500} {
      assert ErrorMessage(b)[..|p|] == p;
      assert ErrorMessage(a)[0] != 'H';
    }
  }

  /** Any message determines the status it came from, except the four fixed ones. */
  lemma ErrorMessageDeterminesStatus(a: nat, b: nat)
    requires a !in {400, 403, 404, 500} && ErrorMessage(a) == ErrorMessage(b)
    ensures a == b
  {
    if b in {400, 403, 404, 500} {
      FixedMessagesDistinct(b, a);
    } else {
      StatusMessageInjective(a, b);
    }
  }

  /** The `catch` of _request for an error that is not an `ApiError`. */
  function Caught(e: JsError): (err: ApiError)
    ensures err.status == (if e.name == "AbortError" then 408 else 0)
    ensures (e.name == "AbortError" || (e.name == "TypeError" && Contains(e.message, "fetch"))) ==>
              err.message == Config.NetworkError
    ensures !(e.name == "AbortError" || (e.name == "TypeError" && Contains(e.message, "fetch"))) ==>
              err.message == e.message
  {
    if e.name == "AbortError" then ApiError(Config.NetworkError, 408)
    else if e.name == "TypeError" && Contains(e.message, "fetch") then ApiError(Config.NetworkError, 0)
    else ApiError(e.message, 0)
  }

  /**
   * _request: the body of a 2xx response unless it declares failure;
   * otherwise the `ApiError` it throws.
   */
  function Request(o: FetchOutcome): (r: Result<Body, ApiError>)
    ensures r.Ok? <==> o.Responded? && IsOk(o.status) && o.json.Ok? && !DeclaresFailure(o.json.value)
    ensures r.Ok? ==> r.value == o.json.value
  {
    match o
    case Threw(e) => Err(Caught(e))
    case Responded(status, json) =>
      if !IsOk(status) then Err(ApiError(ErrorMessage(status), status))
      else
        match json
        case Err(e) => Err(Caught(e))
        case Ok(b) =>
          if DeclaresFailure(b) then Err(ApiError(MessageOr(b, Config.ServerError), status))
          else Ok(b)
  }

  /** A non-2xx response fails with its own status and the mapped message. */
  lemma NonOkResponseFails(status: nat, json: Result<Body, JsError>)
    requires !IsOk(status)
    ensures Request(Responded(status, json)) == Err(ApiError(ErrorMessage(status), status))
  {
  }

  /** A body declaring failure fails with its message, or the server-error text without one. */
  lemma DeclaredFailureFails(status: nat, b: Body)
    requires IsOk(status) && DeclaresFailure(b)
    ensures var r := Request(Responded(status, Ok(b)));
            r.Err? && r.error.status == status &&
            (r.error.message == Config.ServerError <==>
               (b.message.None? || b.message == Some("") || b.message == Some(Config.ServerError)))
  {
  }

  /** Every failure carries 408 (abort), 0 (other exceptions) or the response's status. */
  lemma FailureStatus(o: FetchOutcome)
    requires Request(o).Err?
    ensures var s := Request(o).error.status;
            s == 408 || s == 0 || (o.Responded? && s == o.status)
    ensures o.Threw? ==> (Request(o).error.status == 408 <==> o.error.name == "AbortError")
  {
  }

  // ---------------------------------------------------------------------
  // get: query parameters

  /** The parameters `get` appends: those whose value is neither null nor undefined, in order. */
  function KeptParams(params: seq<(string, Option<string>)>): (q: seq<(string, string)>)
    ensures |q| <= |params|
    ensures forall k, v :: (k, v) in q <==> (k, Some(v)) in params
  {
    if params == [] then []
    else
      var front := KeptParams(params[..|params| - 1]);
      var (key, value) := params[|params| - 1];
      assert forall p :: p in params <==> p in params[..|params| - 1] || p == params[|params| - 1];
      if value.Some? then front + [(key, value.value)] else front
  }

  /** The loop of `get` over `Object.keys(params)`. */
  method Get(params: seq<(string, Option<string>)>) returns (query: seq<(string, string)>)
    ensures query == KeptParams(params)
  {
    query := [];
    var i := 0;
    while i < |params|
      invariant 0 <= i <= |params|
      invariant query == KeptParams(params[..i])
    {
      assert params[..i + 1][..i] == params[..i];
      if params[i].1.Some? {
        query := query + [(params[i].0, params[i].1.value)];
      }
      i := i + 1;
    }
    assert params[..i] == params;
  }

  // ---------------------------------------------------------------------
  // Services

  /** `if (result.success) result.message = message`, after a request that resolved. */
  function WithMessageOnSuccess(r: Result<Body, ApiError>, message: string): (s: Result<Body, ApiError>)
    ensures s.Err? <==> r.Err?
    ensures r.Err? ==> s == r
    ensures r.Ok? ==> s.value == r.value.(message := if r.value.success == Some(true)
                                                      then Some(message) else r.value.message)
  {
    match r
    case Err(_) => r
    case Ok(b) => if b.success == Some(true) then Ok(b.(message := Some(message))) else r
  }

  /** saveTimeBlocks: a successful save reports how many slots were sent. */
  function SaveTimeBlocks(o: FetchOutcome, slotIndexes: Option<seq<int>>): (r: Result<Body, ApiError>)
    ensures r.Err? <==> Request(o).Err?
    ensures r.Ok? && r.value.success == Some(true) && slotIndexes.Some? ==>
              r.value.message == Some(CountMessage(|slotIndexes.value|, Config.SlotSavedSuffix))
    ensures r.Err? ==> r == Request(o)
    ensures r.Ok? ==> r.value.(message := Request(o).value.message) == Request(o).value
    ensures !(Request(o).Ok? && Request(o).value.success == Some(true) && slotIndexes.Some?) ==> r == Request(o)
  {
    if slotIndexes.Some? then
      WithMessageOnSuccess(Request(o), CountMessage(|slotIndexes.value|, Config.SlotSavedSuffix))
    else Request(o)
  }

  /** deleteTimeBlocks: a successful delete reports how many slots were sent. */
  function DeleteTimeBlocks(o: FetchOutcome, slotIndexes: Option<seq<int>>): (r: Result<Body, ApiError>)
    ensures r.Err? <==> Request(o).Err?
    ensures r.Ok? && r.value.success == Some(true) && slotIndexes.Some? ==>
              r.value.message == Some(CountMessage(|slotIndexes.value|, Config.SlotDeletedSuffix))
    ensures r.Err? ==> r == Request(o)
    ensures r.Ok? ==> r.value.(message := Request(o).value.message) == Request(o).value
    ensures !(Request(o).Ok? && Request(o).value.success == Some(true) && slotIndexes.Some?) ==> r == Request(o)
  {
    if slotIndexes.Some? then
      WithMessageOnSuccess(Request(o), CountMessage(|slotIndexes.value|, Config.SlotDeletedSuffix))
    else Request(o)
  }

  /** The count in a save or delete message is the number of slots sent. */
  lemma SavedCountRoundTrip(o: FetchOutcome, slotIndexes: seq<int>)
    requires SaveTimeBlocks(o, Some(slotIndexes)).Ok? &&
             SaveTimeBlocks(o, Some(slotIndexes)).value.success == Some(true)
    ensures var m := SaveTimeBlocks(o, Some(slotIndexes)).value.message.value;
            var n := |m| - |Config.SlotSavedSuffix|;
            0 <= n && AllDigits(m[..n]) && DigitsValue(m[..n]) == |slotIndexes|
  {
  }

  /**
   * createTag, updateTag and deleteTag of the dashboard's tag service: each
   * fails exactly when the request does, with the request's own error, and
   * a body saying `success: true` carries the service's own message instead
   * of the server's, the rest of the body unchanged.
   */
  function CreateTag(o: FetchOutcome): (r: Result<Body, ApiError>)
    ensures r.Err? <==> Request(o).Err?
    ensures Request(o).Ok? && Request(o).value.success == Some(true) ==> r.Ok? && r.value.message == Some(Config.TagCreated)
    ensures r.Err? ==> r == Request(o)
    ensures r.Ok? ==> r.value.(message := Request(o).value.message) == Request(o).value
    ensures Request(o).Ok? && Request(o).value.success != Some(true) ==> r == Request(o)
  {
    WithMessageOnSuccess(Request(o), Config.TagCreated)
  }

  function UpdateTag(o: FetchOutcome): (r: Result<Body, ApiError>)
    ensures r.Err? <==> Request(o).Err?
    ensures Request(o).Ok? && Request(o).value.success == Some(true) ==> r.Ok? && r.value.message == Some(Config.TagUpdated)
    ensures r.Err? ==> r == Request(o)
    ensures r.Ok? ==> r.value.(message := Request(o).value.message) == Request(o).value
    ensures Request(o).Ok? && Request(o).value.success != Some(true) ==> r == Request(o)
  {
    WithMessageOnSuccess(Request(o), Config.TagUpdated)
  }

  function DeleteTag(o: FetchOutcome): (r: Result<Body, ApiError>)
    ensures r.Err? <==> Request(o).Err?
    ensures Request(o).Ok? && Request(o).value.success == Some(true) ==> r.Ok? && r.value.message == Some(Config.TagDeleted)
    ensures r.Err? ==> r == Request(o)
    ensures r.Ok? ==> r.value.(message := Request(o).value.message) == Request(o).value
    ensures Request(o).Ok? && Request(o).value.success != Some(true) ==> r == Request(o)
  {
    WithMessageOnSuccess(Request(o), Config.TagDeleted)
  }

  /** The three services differ only in their success message: they agree on every failure and on every body without `success: true`. */
  lemma TagServicesAgreeOffSuccess(o: FetchOutcome)
    ensures !(Request(o).Ok? && Request(o).value.success == Some(true)) ==>
              CreateTag(o) == UpdateTag(o) == DeleteTag(o)
    ensures CreateTag(o).Ok? ==>
              CreateTag(o).value.(message := None) == UpdateTag(o).value.(message := None) == DeleteTag(o).value.(message := None)
  {
  }

  /** getTimeBlocks: `result.data || []`. */
  function GetTimeBlocks(o: FetchOutcome): (r: Result<seq<Record>, ApiError>)
    ensures r.Ok? <==> Request(o).Ok?
    ensures r.Ok? ==> r.value == Request(o).value.data.GetOr([])
    ensures r.Err? ==> r.error == Request(o).error
  {
    match Request(o)
    case Err(e) => Err(e)
    case Ok(b) => Ok(b.data.GetOr([]))
  }

  /** getTags: `result.tags || []`. */
  function GetTags(o: FetchOutcome): (r: Result<seq<Record>, ApiError>)
    ensures r.Ok? <==> Request(o).Ok?
    ensures r.Ok? ==> r.value == Request(o).value.tags.GetOr([])
    ensures r.Err? ==> r.error == Request(o).error
  {
    match Request(o)
    case Err(e) => Err(e)
    case Ok(b) => Ok(b.tags.GetOr([]))
  }

  /**
   * checkHealth: true exactly when getTags resolves, that is when the tag
   * list came back 2xx, parsed, and not declaring failure.
   */
  predicate CheckHealth(o: FetchOutcome): (r: bool)
    ensures r <==> o.Responded? && IsOk(o.status) && o.json.Ok? && o.json.value.success != Some(false)
  {
    GetTags(o).Ok?
  }

  // ---------------------------------------------------------------------
  // withRetry

  /** How withRetry ends: the first result, or a rethrow of the last error (undefined for no attempt). */
  datatype RetryResult = Returned(value: Body) | Rethrew(error: Option<ApiError>)

  /** The index of the first resolved call among the first `n`. */
  function FirstSuccess(outcomes: seq<Result<Body, ApiError>>, n: nat): (r: Option<nat>)
    requires n <= |outcomes|
    ensures r.Some? ==> r.value < n && outcomes[r.value].Ok? &&
                        forall j :: 0 <= j < r.value ==> outcomes[j].Err?
    ensures r.None? ==> forall j :: 0 <= j < n ==> outcomes[j].Err?
  {
    if n == 0 then None
    else
      match FirstSuccess(outcomes, n - 1)
      case Some(k) => Some(k)
      case None => if outcomes[n - 1].Ok? then Some(n - 1) else None
  }

  /**
   * withRetry over the outcomes its successive calls of `apiCall` would
   * have: at most `maxRetries` calls, the first success returned, the waits
   * doubling from `delay` between attempts and none after the last.
   */
  method WithRetry(outcomes: seq<Result<Body, ApiError>>, maxRetries: nat, delay: nat)
    returns (result: RetryResult, calls: nat, waits: seq<nat>)
    requires maxRetries <= |outcomes|
    ensures calls <= maxRetries
    ensures match FirstSuccess(outcomes, maxRetries)
            case Some(k) => calls == k + 1 && result == Returned(outcomes[k].value)
            case None => calls == maxRetries &&
                         result == Rethrew(if maxRetries == 0 then None
                                           else Some(outcomes[maxRetries - 1].error))
    ensures waits == Backoff(delay, if calls == 0 then 0 else calls - 1)
  {
    var lastError: Option<ApiError> := None;
    var wait := delay;
    waits := [];
    calls := 0;
    var attempt := 1;
    while attempt <= maxRetries
      invariant 1 <= attempt <= maxRetries + 1 && calls == attempt - 1
      invariant FirstSuccess(outcomes, calls).None?
      invariant lastError == if calls == 0 then None else Some(outcomes[calls - 1].error)
      invariant waits == Backoff(delay, if calls == maxRetries && calls > 0 then calls - 1 else calls)
      invariant wait == delay * Pow2(|waits|)
    {
      calls := calls + 1;
      var outcome := outcomes[attempt - 1];
      if outcome.Ok? {
        result := Returned(outcome.value);
        return;
      }
      lastError := Some(outcome.error);
      if attempt < maxRetries {
        assert Backoff(delay, |waits|) + [wait] == Backoff(delay, |waits| + 1);
        waits := waits + [wait];
        assert wait * 2 == delay * Pow2(|waits|) by {
          assert Pow2(|waits|) == 2 * Pow2(|waits| - 1);
        }
        wait := wait * 2;
      }
      attempt := attempt + 1;
    }
    result := Rethrew(lastError);
  }
}
