// What a `fetch` call can end in, as both `ApiClient` classes see it: a
// response with a status and a JSON body (or a body that fails to parse), or
// a thrown error. Also the `ApiError` they throw and the retry arithmetic.
module Http {
  import opened Wrappers
  import opened Strings

  /** A record of the payload, field by field; its contents do not matter here. */
  datatype Record = Record(fields: seq<(string, string)>)

  /**
   * The parsed JSON body: `success` (absent, true or false), `message`,
   * and the `data` and `tags` arrays when present.
   */
  datatype Body = Body(success: Option<bool>, message: Option<string>,
                       data: Option<seq<Record>>, tags: Option<seq<Record>>)

  /** A JavaScript exception: its `name` and `message`. */
  datatype JsError = JsError(name: string, message: string)

  /** How the awaited `fetch(...)` and `response.json()` ended. */
  datatype FetchOutcome =
    | Responded(status: nat, json: Result<Body, JsError>)
    | Threw(error: JsError)

  /** `new ApiError(message, status, ...)`. */
  datatype ApiError = ApiError(message: string, status: nat)

  /** `response.ok`. */
  predicate IsOk(status: nat) { 200 <= status < 300 }

  /** `result.hasOwnProperty('success') && result.success === false`. */
  predicate DeclaresFailure(b: Body) { b.success == Some(false) }

  /** `result.message || fallback`: an absent or empty message falls back. */
  function MessageOr(b: Body, fallback: string): (m: string)
    ensures m == fallback || (b.message == Some(m) && m != "")
  {
    if b.message.Some? && b.message.value != "" then b.message.value else fallback
  }

  const StatusPrefix: string := "HTTP error! status: "

  /** "HTTP error! status: n", the default of both `_getErrorMessage` switches: the prefix, then the status in decimal. */
  function StatusMessage(status: nat): (m: string)
    ensures |StatusPrefix| < |m| && m[..|StatusPrefix|] == StatusPrefix
    ensures AllDigits(m[|StatusPrefix|..]) && DigitsValue(m[|StatusPrefix|..]) == status
  {
    var m := StatusPrefix + NatToString(status);
    assert m[|StatusPrefix|..] == NatToString(status);
    NatToStringRoundTrip(status);
    m
  }

  /** The default message names its status: two statuses give two messages. */
  lemma StatusMessageInjective(a: nat, b: nat)
    requires StatusMessage(a) == StatusMessage(b)
    ensures a == b
  {
    assert StatusMessage(a)[|StatusPrefix|..] == StatusMessage(b)[|StatusPrefix|..];
  }

  /**
   * `${count}${suffix}`: the count message of the slot services. The count
   * can be read back from the front of the message, before the suffix.
   */
  function CountMessage(count: nat, suffix: string): (m: string)
    ensures var n := |NatToString(count)|;
            n <= |m| && AllDigits(m[..n]) && DigitsValue(m[..n]) == count && m[n..] == suffix
  {
    var m := NatToString(count) + suffix;
    assert m[..|NatToString(count)|] == NatToString(count);
    NatToStringRoundTrip(count);
    m
  }

  // ---------------------------------------------------------------------
  // Exponential backoff

  function Pow2(n: nat): (r: nat)
    ensures r >= 1
  {
    if n == 0 then 1 else 2 * Pow2(n - 1)
  }

  /** The waits `d, 2d, 4d, ...` before the retries. */
  function Backoff(delay: nat, n: nat): (w: seq<nat>)
    ensures |w| == n && forall j :: 0 <= j < n ==> w[j] == delay * Pow2(j)
  {
    seq(n, j requires 0 <= j < n => delay * Pow2(j))
  }

  function Total(s: seq<nat>): nat {
    if s == [] then 0 else Total(s[..|s| - 1]) + s[|s| - 1]
  }

  /** Waiting `n` times in all costs `delay * (2^n - 1)`. */
  lemma {:induction false} BackoffTotal(delay: nat, n: nat)
    ensures Total(Backoff(delay, n)) == delay * (Pow2(n) - 1)
  {
    if n > 0 {
      var w := Backoff(delay, n);
      var p := Pow2(n - 1);
      assert w == Backoff(delay, n - 1) + [delay * p];
      assert w[..n - 1] == Backoff(delay, n - 1);
      BackoffTotal(delay, n - 1);
      DoublingStep(delay, p);
    }
  }

  lemma DoublingStep(d: nat, p: nat)
    requires p >= 1
    ensures d * (p - 1) + d * p == d * (2 * p - 1)
  {
    assert d * (p - 1) == d * p - d;
    assert d * (2 * p - 1) == 2 * (d * p) - d;
  }
}
