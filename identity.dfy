/**
 * The identity resolver: the external id of a listing is derived from its URL
 * alone, by the first match of the regular expression `/(a|pa)/(\d+)`
 * (scraper.py, `get_mubawab_external_id`).
 */
module Identity {
  import opened Wrappers
  import opened Text

  /** `s` is a non-empty run of decimal digits. */
  predicate IsNumber(s: string) {
    s != [] && AllDigits(s)
  }

  /** The shape of every id the resolver returns: "a" or "pa" followed by digits. */
  predicate IsExternalId(id: string) {
    || (|id| >= 1 && id[0] == 'a' && IsNumber(id[1..]))
    || (|id| >= 2 && id[0] == 'p' && id[1] == 'a' && IsNumber(id[2..]))
  }

  /** The alternative `a` of the pattern matches at `i`: "/a/" then a digit. */
  predicate KindAAt(url: string, i: nat) {
    i + 3 < |url| && url[i] == '/' && url[i + 1] == 'a' && url[i + 2] == '/' && IsDigit(url[i + 3])
  }

  /** The alternative `pa` of the pattern matches at `i`: "/pa/" then a digit. */
  predicate KindPaAt(url: string, i: nat) {
    i + 4 < |url| && url[i] == '/' && url[i + 1] == 'p' && url[i + 2] == 'a' && url[i + 3] == '/'
    && IsDigit(url[i + 4])
  }

  /** The digit run starting at `j`, which `\d+` takes greedily. */
  function NumberAt(url: string, j: nat): (d: string)
    requires j < |url| && IsDigit(url[j])
    ensures IsNumber(d)
  {
    url[j..j + PrefixLength(url[j..], IsDigit)]
  }

  /**
   * What the pattern yields when the search reaches position `i`: the kind
   * followed by the greedy digit run, or None when neither alternative matches.
   * The two alternatives cannot both match at one position.
   */
  function MatchAt(url: string, i: nat): (r: Option<string>)
    ensures r.Some? <==> KindAAt(url, i) || KindPaAt(url, i)
    ensures r.Some? ==> IsExternalId(r.value)
  {
    if KindAAt(url, i) then Some("a" + NumberAt(url, i + 3))
    else if KindPaAt(url, i) then Some("pa" + NumberAt(url, i + 4))
    else None
  }

  /** The leftmost match at or after position `i`. */
  function FirstMatchFrom(url: string, i: nat): (r: Option<string>)
    ensures r.Some? ==> IsExternalId(r.value)
    decreases |url| - i
  {
    if i >= |url| then None
    else if MatchAt(url, i).Some? then MatchAt(url, i)
    else FirstMatchFrom(url, i + 1)
  }

  /** The search from `i` finds the first position at or after `i` where the pattern matches. */
  lemma {:induction false} FirstMatchIsLeftmost(url: string, i: nat)
    ensures var r := FirstMatchFrom(url, i);
      && (r.Some? ==> exists k :: i <= k < |url| && MatchAt(url, k) == r
                         && forall j :: i <= j < k ==> MatchAt(url, j).None?)
      && (r.None? ==> forall j :: i <= j ==> MatchAt(url, j).None?)
    decreases |url| - i
  {
    if i < |url| && MatchAt(url, i).None? {
      FirstMatchIsLeftmost(url, i + 1);
      var r := FirstMatchFrom(url, i);
      if r.Some? {
        var k :| i + 1 <= k < |url| && MatchAt(url, k) == r
                 && forall j :: i + 1 <= j < k ==> MatchAt(url, j).None?;
        assert forall j :: i <= j < k ==> MatchAt(url, j).None?;
      }
    }
  }

  /**
   * `get_mubawab_external_id(url)`: the kind and digits of the leftmost
   * `/a/<digits>` or `/pa/<digits>` in the URL, or None.
   */
  function GetMubawabExternalId(url: string): (r: Option<string>)
    ensures r.Some? ==> IsExternalId(r.value)
    ensures r.Some? <==> exists k :: 0 <= k < |url| && MatchAt(url, k).Some?
    ensures r.Some? ==> exists k :: 0 <= k < |url| && MatchAt(url, k) == r
                          && forall j :: 0 <= j < k ==> MatchAt(url, j).None?
  {
    FirstMatchIsLeftmost(url, 0);
    FirstMatchFrom(url, 0)
  }

  /**
   * The canonical listing path: whatever precedes it, as long as that prefix
   * holds no match of its own, `<prefix>/<kind>/<digits><rest>` resolves to
   * `<kind><digits>` when `rest` does not continue the digits.
   */
  lemma CanonicalPath(prefix: string, kind: string, digits: string, rest: string)
    requires GetMubawabExternalId(prefix).None?
    requires kind == "a" || kind == "pa"
    requires IsNumber(digits)
    requires rest == [] || !IsDigit(rest[0])
    ensures GetMubawabExternalId(prefix + "/" + kind + "/" + digits + rest) == Some(kind + digits)
  {
    var tail := "/" + kind + "/" + digits + rest;
    var url := prefix + tail;
    assert url == prefix + "/" + kind + "/" + digits + rest;
    forall j | 0 <= j < |prefix|
      ensures MatchAt(url, j).None?
    {
      NoMatchAcrossBoundary(prefix, tail, j);
    }
    MatchAtPathStart(prefix, kind, digits, rest);
    SkipNoMatch(url, 0, |prefix|);
  }

  /** A position inside `prefix` that does not match cannot match once `/` and a non-digit follow. */
  lemma NoMatchAcrossBoundary(prefix: string, tail: string, j: nat)
    requires j < |prefix| && MatchAt(prefix, j).None?
    requires |tail| >= 2 && tail[0] == '/' && !IsDigit(tail[1])
    ensures MatchAt(prefix + tail, j).None?
  {
    var url := prefix + tail;
    assert forall k :: 0 <= k < |prefix| ==> url[k] == prefix[k];
    assert url[|prefix|] == '/' && url[|prefix| + 1] == tail[1];
  }

  lemma MatchAtPathStart(prefix: string, kind: string, digits: string, rest: string)
    requires kind == "a" || kind == "pa"
    requires IsNumber(digits)
    requires rest == [] || !IsDigit(rest[0])
    ensures FirstMatchFrom(prefix + "/" + kind + "/" + digits + rest, |prefix|) == Some(kind + digits)
  {
    var url := prefix + "/" + kind + "/" + digits + rest;
    var p := |prefix|;
    var j0 := p + |kind| + 2;
    var lead := prefix + "/" + kind + "/";
    assert url == lead + (digits + rest);
    assert |lead| == j0;
    KindAtPathStart(prefix, kind, digits + rest);
    DigitsAfter(lead, digits, rest);
    assert MatchAt(url, p) == Some(kind + digits);
  }

  lemma KindAtPathStart(prefix: string, kind: string, more: string)
    requires kind == "a" || kind == "pa"
    requires more != [] && IsDigit(more[0])
    ensures var url := prefix + "/" + kind + "/" + more;
      if kind == "a" then KindAAt(url, |prefix|) else KindPaAt(url, |prefix|) && !KindAAt(url, |prefix|)
  {
    var url := prefix + "/" + kind + "/" + more;
    var p := |prefix|;
    assert url[p] == '/';
    assert url[p + 1] == kind[0];
    if kind == "a" {
      assert url[p + 2] == '/' && url[p + 3] == more[0];
    } else {
      assert url[p + 2] == 'a' && url[p + 3] == '/' && url[p + 4] == more[0];
    }
  }

  lemma DigitsAfter(lead: string, digits: string, rest: string)
    requires IsNumber(digits)
    requires rest == [] || !IsDigit(rest[0])
    ensures NumberAt(lead + (digits + rest), |lead|) == digits
  {
    var url := lead + (digits + rest);
    var j0 := |lead|;
    assert forall k :: 0 <= k < |digits| ==> url[j0 + k] == digits[k];
    assert j0 + |digits| < |url| ==> url[j0 + |digits|] == rest[0];
    NumberAtWhole(url, j0, |digits|);
    assert url[j0..j0 + |digits|] == digits;
  }

  /** The digit run at `j` is exactly `n` long when `n` digits are followed by a non-digit or the end. */
  lemma NumberAtWhole(url: string, j: nat, n: nat)
    requires 0 < n && j + n <= |url|
    requires forall k :: j <= k < j + n ==> IsDigit(url[k])
    requires j + n == |url| || !IsDigit(url[j + n])
    ensures NumberAt(url, j) == url[j..j + n]
  {
    assert forall k :: 0 <= k < |url| - j ==> url[j..][k] == url[j + k];
  }

  /** When no match starts before `k`, the search from `i` ends where the search from `k` does. */
  lemma {:induction false} SkipNoMatch(url: string, i: nat, k: nat)
    requires i <= k <= |url|
    requires forall j :: i <= j < k ==> MatchAt(url, j).None?
    ensures FirstMatchFrom(url, i) == FirstMatchFrom(url, k)
    decreases k - i
  {
    if i < k {
      SkipNoMatch(url, i + 1, k);
    }
  }

  /**
   * Appending a query string, a fragment or a trailing path (anything that does
   * not begin with a digit) never changes a URL's id.
   */
  lemma StableUnderSuffix(url: string, suffix: string)
    requires GetMubawabExternalId(url).Some?
    requires suffix == [] || !IsDigit(suffix[0])
    ensures GetMubawabExternalId(url + suffix) == GetMubawabExternalId(url)
  {
    var r := GetMubawabExternalId(url);
    var k :| 0 <= k < |url| && MatchAt(url, k) == r && forall j :: 0 <= j < k ==> MatchAt(url, j).None?;
    var u := url + suffix;
    forall j | 0 <= j < k
      ensures MatchAt(u, j).None?
    {
      EarlierPositionUnchanged(url, suffix, j, k);
    }
    MatchSurvivesSuffix(url, suffix, k);
    SkipNoMatch(u, 0, k);
  }

  lemma EarlierPositionUnchanged(url: string, suffix: string, j: nat, k: nat)
    requires j < k && MatchAt(url, k).Some? && MatchAt(url, j).None?
    ensures MatchAt(url + suffix, j).None?
  {
    var u := url + suffix;
    assert forall m :: 0 <= m < |url| ==> u[m] == url[m];
  }

  lemma MatchSurvivesSuffix(url: string, suffix: string, k: nat)
    requires MatchAt(url, k).Some?
    requires suffix == [] || !IsDigit(suffix[0])
    ensures MatchAt(url + suffix, k) == MatchAt(url, k) && FirstMatchFrom(url + suffix, k) == MatchAt(url, k)
  {
    var u := url + suffix;
    assert forall m :: 0 <= m < |url| ==> u[m] == url[m];
    var j0 := if KindAAt(url, k) then k + 3 else k + 4;
    var n := PrefixLength(url[j0..], IsDigit);
    assert forall m :: 0 <= m < n ==> url[j0..][m] == url[j0 + m];
    assert j0 + n < |url| ==> url[j0..][n] == url[j0 + n];
    assert j0 + n == |url| && suffix != [] ==> u[j0 + n] == suffix[0];
    NumberAtWhole(u, j0, n);
    NumberAtWhole(url, j0, n);
    assert u[j0..j0 + n] == url[j0..j0 + n];
  }
}
