// The browser-side cookie readers used to fetch the CSRF token.  Two shapes
// exist in the code:
//  * the loop variant (core/static/core/js/utils.js and the legacy
//    dashboard.js): the remainder after `name=` of the first trimmed entry;
//  * the `find`/`split('=')` variant (dashboard/js/utils.js and
//    tags/js/utils.js): the text between the first and the second '=' of
//    that entry, taken from the untrimmed entry.
// `decodeURIComponent` is taken as the identity.
module Cookies {
  import opened Wrappers
  import opened Strings

  const DefaultCookieName: string := "csrftoken"

  /** The entries of `document.cookie`, as `split(';')` gives them. */
  function Entries(documentCookie: string): seq<string> {
    Split(documentCookie, ";")
  }

  /** `cookies[i].trim()` for every entry. */
  function TrimAll(entries: seq<string>): (r: seq<string>)
    ensures |r| == |entries|
    ensures forall k :: 0 <= k < |r| ==> r[k] == Trim(entries[k])
  {
    seq(|entries|, k requires 0 <= k < |entries| => Trim(entries[k]))
  }

  function TrimmedEntries(documentCookie: string): (r: seq<string>)
    ensures |r| == |Entries(documentCookie)|
    ensures forall k :: 0 <= k < |r| ==> r[k] == Trim(Entries(documentCookie)[k])
  {
    TrimAll(Entries(documentCookie))
  }

  /** The first entry at or after `i` that starts with `prefix`. */
  function FirstMatchFrom(entries: seq<string>, prefix: string, i: nat): (r: Option<nat>)
    requires i <= |entries|
    ensures r.Some? ==> i <= r.value < |entries| && StartsWith(entries[r.value], prefix)
    decreases |entries| - i
  {
    if i == |entries| then None
    else if StartsWith(entries[i], prefix) then Some(i)
    else FirstMatchFrom(entries, prefix, i + 1)
  }

  /** No entry before the one found (or before the end, when none is found) matches. */
  lemma {:induction false} FirstMatchFromIsFirst(entries: seq<string>, prefix: string, i: nat, k: nat)
    requires i <= k < |entries|
    requires FirstMatchFrom(entries, prefix, i).None? || k < FirstMatchFrom(entries, prefix, i).value
    ensures !StartsWith(entries[k], prefix)
    decreases k - i
  {
    if k > i {
      FirstMatchFromIsFirst(entries, prefix, i + 1, k);
    }
  }

  function FirstMatch(entries: seq<string>, prefix: string): Option<nat> {
    FirstMatchFrom(entries, prefix, 0)
  }

  /** Specification of the loop variant: the rest of the first trimmed entry starting with `name=`. */
  function CookieRemainder(documentCookie: string, name: string): Option<string> {
    if documentCookie == "" then None
    else
      RemainderIn(TrimmedEntries(documentCookie), name)
  }

  /** The rest of the first of `trimmed` that starts with `name=`. */
  function RemainderIn(trimmed: seq<string>, name: string): Option<string> {
    match FirstMatch(trimmed, name + "=")
    case None => None
    case Some(k) => Some(trimmed[k][|name| + 1..])
  }

  /** One step of the scan: the entry trimmed, and its rest when it starts with `name=`. */
  method MatchEntry(entry: string, n: string) returns (rest: Option<string>)
    ensures rest.Some? <==> StartsWith(Trim(entry), n + "=")
    ensures rest.Some? ==> rest.value == Trim(entry)[|n| + 1..]
  {
    var cookie := Trim(entry);
    rest := None;
    if |cookie| >= |n| + 1 && cookie[..|n| + 1] == n + "=" {
      rest := Some(cookie[|n| + 1..]);
    }
  }

  /** The scan loop of getCookie over the `split(';')` entries. */
  method ScanCookies(cookies: seq<string>, n: string) returns (value: Option<string>)
    ensures value == RemainderIn(TrimAll(cookies), n)
  {
    ghost var trimmed := TrimAll(cookies);
    var i := 0;
    while i < |cookies|
      invariant 0 <= i <= |cookies|
      invariant FirstMatchFrom(trimmed, n + "=", i) == FirstMatch(trimmed, n + "=")
    {
      var rest := MatchEntry(cookies[i], n);
      if rest.Some? {
        MatchesAt(trimmed, n + "=", i);
        return rest;
      }
      SkipsAt(trimmed, n + "=", i);
      i := i + 1;
    }
    NoMatchAtEnd(trimmed, n + "=");
    return None;
  }

  lemma MatchesAt(trimmed: seq<string>, prefix: string, i: nat)
    requires i < |trimmed| && StartsWith(trimmed[i], prefix)
    requires FirstMatchFrom(trimmed, prefix, i) == FirstMatch(trimmed, prefix)
    ensures FirstMatch(trimmed, prefix) == Some(i)
  {
  }

  lemma SkipsAt(trimmed: seq<string>, prefix: string, i: nat)
    requires i < |trimmed| && !StartsWith(trimmed[i], prefix)
    requires FirstMatchFrom(trimmed, prefix, i) == FirstMatch(trimmed, prefix)
    ensures FirstMatchFrom(trimmed, prefix, i + 1) == FirstMatch(trimmed, prefix)
  {
  }

  lemma NoMatchAtEnd(trimmed: seq<string>, prefix: string)
    requires FirstMatchFrom(trimmed, prefix, |trimmed|) == FirstMatch(trimmed, prefix)
    ensures FirstMatch(trimmed, prefix).None?
  {
  }

  /**
   * getCookie (loop variant): scans the entries in order, stops at the first
   * trimmed entry that begins with `name=` and returns the rest of it; the
   * name defaults to `csrftoken`.
   */
  method GetCookie(documentCookie: string, name: Option<string>) returns (value: Option<string>)
    ensures value == CookieRemainder(documentCookie, name.GetOr(DefaultCookieName))
    ensures documentCookie == "" ==> value.None?
  {
    var n := name.GetOr(DefaultCookieName);
    value := None;
    if documentCookie != "" {
      var cookies := Split(documentCookie, ";");
      value := ScanCookies(cookies, n);
    }
  }

  /** The found value is exactly what followed `name=` in the trimmed entry. */
  lemma RemainderReassembles(documentCookie: string, name: string)
    requires CookieRemainder(documentCookie, name).Some?
    ensures exists k :: (0 <= k < |Entries(documentCookie)| &&
      Trim(Entries(documentCookie)[k]) == name + "=" + CookieRemainder(documentCookie, name).value)
  {
    var trimmed := TrimmedEntries(documentCookie);
    var k := FirstMatch(trimmed, name + "=").value;
    PrefixAndRest(trimmed[k], name + "=");
    assert Trim(Entries(documentCookie)[k]) == trimmed[k];
  }

  lemma PrefixAndRest(t: string, prefix: string)
    requires StartsWith(t, prefix)
    ensures t == prefix + t[|prefix|..]
  {
    assert t == t[..|prefix|] + t[|prefix|..];
  }

  // ---------------------------------------------------------------------
  // The find/split variant

  /** A trimmed entry that starts with `name=` contains '=' in the raw entry. */
  lemma EntryHasEquals(e: string, name: string)
    requires StartsWith(Trim(e), name + "=")
    ensures |Split(e, "=")| >= 2
  {
    var l := TrimLeft(e);
    var t := TrimRight(l);
    var off := |e| - |l|;
    assert t[|name|] == '=';
    assert l[|name|] == '=';
    assert e[off + |name|] == '=';
    assert OccursAt(e, "=", off + |name|);
    SplitFirst(e, "=");
  }

  /** `targetCookie.split('=')[1]`: the text between the first and second '='. */
  function SegmentAfterFirstEquals(e: string): (r: string)
    requires |Split(e, "=")| >= 2
    ensures !Contains(r, "=")
  {
    var k := FindFrom(e, "=", 0).value;
    SplitFirst(e, "=");
    SplitFirst(e[k + 1..], "=");
    var r := Split(e, "=")[1];
    assert r == Split(e[k + 1..], "=")[0];
    NoEqualsInFirstPart(e[k + 1..]);
    r
  }

  lemma NoEqualsInFirstPart(s: string)
    ensures !Contains(Split(s, "=")[0], "=")
  {
    SplitFirst(s, "=");
    match FindFrom(s, "=", 0)
    case None =>
    case Some(k) =>
      var p := s[..k];
      if Contains(p, "=") {
        var j := FindFrom(p, "=", 0).value;
        assert p[j..j + 1] == s[j..j + 1];
        assert OccursAt(s, "=", j);
      }
  }

  /**
   * getCookie (split variant): null without a cookie string or a matching
   * entry, else the segment between the first two '=' of the raw entry.
   */
  function GetCookieSegment(documentCookie: string, name: string): (r: Option<string>)
    ensures r.Some? <==> CookieRemainder(documentCookie, name).Some?
    ensures r.Some? ==> !Contains(r.value, "=")
  {
    if documentCookie == "" then None
    else
      var entries := Entries(documentCookie);
      match FirstMatch(TrimmedEntries(documentCookie), name + "=")
      case None => None
      case Some(k) =>
        EntryHasEquals(entries[k], name);
        Some(SegmentAfterFirstEquals(entries[k]))
  }

  /** An entry list without ';' is the whole string. */
  lemma SingleEntry(s: string)
    requires forall k :: 0 <= k < |s| ==> s[k] != ';'
    ensures Entries(s) == [s]
  {
    assert FindFrom(s, ";", 0).None? by {
      forall k | 0 <= k ensures !OccursAt(s, ";", k) {
        if k + 1 <= |s| {
          assert s[k..k + 1] == [s[k]];
        }
      }
    }
  }

  lemma ExampleSplit()
    ensures Split("a=b", "=")[0] == "a"
    ensures Split("t=a=b", "=")[1] == "a"
  {
    var s := "t=a=b";
    assert FindFrom(s, "=", 1) == Some(1) by {
      assert s[1..2] == "=";
    }
    assert FindFrom(s, "=", 0) == Some(1) by {
      assert s[0..1] == "t";
    }
    assert s[2..] == "a=b";
    assert FindFrom("a=b", "=", 1) == Some(1) by {
      assert "a=b"[1..2] == "=";
    }
    assert FindFrom("a=b", "=", 0) == Some(1) by {
      assert "a=b"[0..1] == "a";
    }
  }

  /** The cookie string `t=a=b` is one entry, already trimmed, that matches `t=`. */
  lemma ExampleEntry()
    ensures Entries("t=a=b") == ["t=a=b"]
    ensures TrimmedEntries("t=a=b") == ["t=a=b"]
    ensures FirstMatch(TrimmedEntries("t=a=b"), "t=") == Some(0)
  {
    var s := "t=a=b";
    SingleEntry(s);
    TrimLeftKeeps(s);
    TrimRightKeeps(s);
    assert TrimmedEntries(s)[0] == s;
    assert StartsWith(s, "t=") by {
      assert s[..2] == "t=";
    }
  }

  /** The two variants part ways on a value that itself contains '='. */
  lemma VariantsDifferOnEquals()
    ensures CookieRemainder("t=a=b", "t") == Some("a=b")
    ensures GetCookieSegment("t=a=b", "t") == Some("a")
  {
    ExampleEntry();
    assert "t=a=b"[2..] == "a=b";
    ExampleSplit();
  }
}
