/**
 * Character classes and string operations shared by the field cleaners, the
 * identity resolver and the repair scripts, with the meaning Python gives them.
 *
 * `IsSpace` is the exact set of characters for which Python's `str.isspace()`
 * holds, which is also what `str.split()`, `str.strip()` and the regular
 * expression class `\s` use on `str` patterns. `IsDigit` (`\d`), `IsWord` (`\w`)
 * and `LowerChar` (`str.lower`) are restricted to ASCII.
 */
module Text {

  predicate IsDigit(c: char) {
    '0' <= c <= '9'
  }

  predicate IsSpace(c: char) {
    || c == ' '
    || '\t' <= c <= '\r'
    || '\U{1C}' <= c <= '\U{1F}'
    || c == '\U{85}'
    || c == '\U{A0}'
    || c == '\U{1680}'
    || '\U{2000}' <= c <= '\U{200A}'
    || c == '\U{2028}'
    || c == '\U{2029}'
    || c == '\U{202F}'
    || c == '\U{205F}'
    || c == '\U{3000}'
  }

  predicate NotSpace(c: char) {
    !IsSpace(c)
  }

  /** The regular expression class `\w`: letters, digits and the underscore. */
  predicate IsWord(c: char) {
    IsDigit(c) || 'a' <= c <= 'z' || 'A' <= c <= 'Z' || c == '_'
  }

  function LowerChar(c: char): char {
    if 'A' <= c <= 'Z' then (c as int + 32) as char else c
  }

  /** `s.lower()` */
  function Lower(s: string): (r: string)
    ensures |r| == |s|
    ensures forall i :: 0 <= i < |s| ==> r[i] == LowerChar(s[i])
  {
    seq(|s|, i requires 0 <= i < |s| => LowerChar(s[i]))
  }

  predicate AllDigits(s: string) {
    forall i :: 0 <= i < |s| ==> IsDigit(s[i])
  }

  /** Python's `t in s` for strings. */
  predicate Contains(s: string, t: string) {
    t <= s || (s != [] && Contains(s[1..], t))
  }

  lemma {:induction false} ContainsAt(s: string, t: string, i: nat)
    requires i + |t| <= |s| && s[i..i + |t|] == t
    ensures Contains(s, t)
  {
    if i > 0 {
      ContainsAt(s[1..], t, i - 1);
      assert s[1..][i - 1..i - 1 + |t|] == s[i..i + |t|];
    } else {
      assert s[..|t|] == t;
    }
  }

  /** Containing a string means containing each of its prefixes. */
  lemma {:induction false} ContainsLonger(s: string, t: string, u: string)
    ensures Contains(s, t + u) ==> Contains(s, t)
  {
    if Contains(s, t + u) && !(t + u <= s) {
      ContainsLonger(s[1..], t, u);
    } else if t + u <= s {
      assert s[..|t|] == (t + u)[..|t|] == t;
    }
  }

  /** Number of leading characters of `s` satisfying `keep`. */
  function PrefixLength(s: string, keep: char -> bool): (n: nat)
    ensures n <= |s|
    ensures forall k :: 0 <= k < n ==> keep(s[k])
    ensures n < |s| ==> !keep(s[n])
  {
    if s != [] && keep(s[0]) then 1 + PrefixLength(s[1..], keep) else 0
  }

  lemma PrefixLengthIs(s: string, keep: char -> bool, n: nat)
    requires n <= |s| && forall k :: 0 <= k < n ==> keep(s[k])
    requires n == |s| || !keep(s[n])
    ensures PrefixLength(s, keep) == n
  {
  }

  /** The end of the run of characters satisfying `keep` that starts at `i`. */
  function RunEnd(s: string, i: nat, keep: char -> bool): (e: nat)
    requires i <= |s|
    ensures i <= e <= |s|
    ensures forall k :: i <= k < e ==> keep(s[k])
    ensures e < |s| ==> !keep(s[e])
    decreases |s| - i
  {
    if i < |s| && keep(s[i]) then RunEnd(s, i + 1, keep) else i
  }

  lemma RunEndIs(s: string, i: nat, keep: char -> bool, e: nat)
    requires i <= e <= |s| && forall k :: i <= k < e ==> keep(s[k])
    requires e == |s| || !keep(s[e])
    ensures RunEnd(s, i, keep) == e
  {
  }

  /** The left half of `str.strip()`. */
  function TrimLeft(s: string): (r: string)
    ensures |r| <= |s| && r == s[|s| - |r|..]
    ensures r == [] || !IsSpace(r[0])
    ensures forall k :: 0 <= k < |s| - |r| ==> IsSpace(s[k])
  {
    s[RunEnd(s, 0, IsSpace)..]
  }

  /** One past the last non-whitespace character of `s[..hi]`, or 0 when there is none. */
  function ContentEnd(s: string, hi: nat): (e: nat)
    requires hi <= |s|
    ensures e <= hi
    ensures forall k :: e <= k < hi ==> IsSpace(s[k])
    ensures e > 0 ==> !IsSpace(s[e - 1])
  {
    if hi > 0 && IsSpace(s[hi - 1]) then ContentEnd(s, hi - 1) else hi
  }

  /** The right half of `str.strip()`. */
  function TrimRight(s: string): (r: string)
    ensures |r| <= |s| && r == s[..|r|]
    ensures r == [] || !IsSpace(r[|r| - 1])
    ensures forall k :: |r| <= k < |s| ==> IsSpace(s[k])
  {
    s[..ContentEnd(s, |s|)]
  }

  /** Every character of `s` outside `[i, j)` is whitespace. */
  predicate SpaceOutside(s: string, i: nat, j: nat)
    requires i <= j <= |s|
  {
    (forall k :: 0 <= k < i ==> IsSpace(s[k])) && (forall k :: j <= k < |s| ==> IsSpace(s[k]))
  }

  /**
   * `s.strip()`: `s` without its leading and trailing whitespace. The result
   * is a slice of `s`, so the whitespace inside it is kept as it is.
   */
  function Strip(s: string): (r: string)
    ensures |r| <= |s|
    ensures r == [] || (!IsSpace(r[0]) && !IsSpace(r[|r| - 1]))
    ensures exists i: nat, j: nat :: i <= j <= |s| && SpaceOutside(s, i, j) && r == s[i..j]
  {
    var l := TrimLeft(s);
    var r := TrimRight(l);
    var i := |s| - |l|;
    assert r == s[i..i + |r|];
    assert SpaceOutside(s, i, i + |r|) by {
      forall k | i + |r| <= k < |s| ensures IsSpace(s[k]) {
        assert s[k] == l[k - i];
      }
    }
    r
  }

  lemma StripUnchanged(s: string)
    requires s == [] || (!IsSpace(s[0]) && !IsSpace(s[|s| - 1]))
    ensures Strip(s) == s
  {
  }

  lemma StripAllSpace(s: string)
    requires forall k :: 0 <= k < |s| ==> IsSpace(s[k])
    ensures Strip(s) == []
  {
  }

  /**
   * The maximal runs of characters satisfying `keep`, left to right, where
   * `cur` is the part of a run already read.
   */
  function Runs(s: string, cur: string, keep: char -> bool): seq<string>
    decreases |s|
  {
    if s == [] then (if cur == [] then [] else [cur])
    else if keep(s[0]) then Runs(s[1..], cur + [s[0]], keep)
    else if cur == [] then Runs(s[1..], [], keep)
    else [cur] + Runs(s[1..], [], keep)
  }

  /** Every run is non-empty and made of characters satisfying `keep`. */
  predicate RunsShaped(rs: seq<string>, keep: char -> bool) {
    forall i :: 0 <= i < |rs| ==> rs[i] != [] && forall k :: 0 <= k < |rs[i]| ==> keep(rs[i][k])
  }

  lemma {:induction false} RunsShape(s: string, cur: string, keep: char -> bool)
    requires forall k :: 0 <= k < |cur| ==> keep(cur[k])
    ensures RunsShaped(Runs(s, cur, keep), keep)
    decreases |s|
  {
    if s == [] {
    } else if keep(s[0]) {
      RunsShape(s[1..], cur + [s[0]], keep);
    } else {
      RunsShape(s[1..], [], keep);
    }
  }

  /** `s.split()`: the whitespace-separated words of `s`. */
  function Words(s: string): (ws: seq<string>)
    ensures RunsShaped(ws, NotSpace)
  {
    RunsShape(s, [], NotSpace);
    Runs(s, [], NotSpace)
  }

  /** `re.findall(r'\d+', s)`: the maximal digit runs of `s`, left to right. */
  function DigitRuns(s: string): (rs: seq<string>)
    ensures RunsShaped(rs, IsDigit)
  {
    RunsShape(s, [], IsDigit);
    Runs(s, [], IsDigit)
  }

  /** `sep.join(ws)` */
  function Join(ws: seq<string>, sep: string): string {
    if ws == [] then []
    else if |ws| == 1 then ws[0]
    else ws[0] + sep + Join(ws[1..], sep)
  }

  lemma {:induction false} RunsOfKeptPrefix(w: string, t: string, cur: string, keep: char -> bool)
    requires forall k :: 0 <= k < |w| ==> keep(w[k])
    ensures Runs(w + t, cur, keep) == Runs(t, cur + w, keep)
    decreases |w|
  {
    if w != [] {
      assert (w + t)[1..] == w[1..] + t;
      assert cur + [w[0]] + w[1..] == cur + w;
      RunsOfKeptPrefix(w[1..], t, cur + [w[0]], keep);
    } else {
      assert w + t == t;
      assert cur + w == cur;
    }
  }

  /** Splitting a single-space join of words gives the words back. */
  lemma {:induction false} WordsOfJoin(ws: seq<string>)
    requires RunsShaped(ws, NotSpace)
    ensures Words(Join(ws, " ")) == ws
  {
    JoinWordsSplit(ws);
  }

  lemma {:induction false} JoinWordsSplit(ws: seq<string>)
    requires RunsShaped(ws, NotSpace)
    ensures Runs(Join(ws, " "), [], NotSpace) == ws
  {
    if ws == [] {
    } else if |ws| == 1 {
      RunsOfKeptPrefix(ws[0], [], [], NotSpace);
      assert ws[0] + [] == ws[0];
      assert [] + ws[0] == ws[0];
    } else {
      var rest := Join(ws[1..], " ");
      assert Join(ws, " ") == ws[0] + (" " + rest);
      RunsOfKeptPrefix(ws[0], " " + rest, [], NotSpace);
      assert [] + ws[0] == ws[0];
      assert (" " + rest)[1..] == rest;
      JoinWordsSplit(ws[1..]);
      assert ws == [ws[0]] + ws[1..];
    }
  }

  /**
   * Every whitespace character of `s` is a plain space standing between two
   * other characters, neither of them whitespace: no run of whitespace, and
   * none at either end.
   */
  predicate SingleSpaced(s: string) {
    forall i :: 0 <= i < |s| && IsSpace(s[i]) ==> s[i] == ' ' && 0 < i < |s| - 1 && !IsSpace(s[i - 1]) && !IsSpace(s[i + 1])
  }

  /** Joining words by single spaces gives single-spaced text. */
  lemma {:induction false} JoinWordsSingleSpaced(ws: seq<string>)
    requires RunsShaped(ws, NotSpace)
    ensures SingleSpaced(Join(ws, " "))
  {
    if |ws| > 1 {
      var w, rest := ws[0], Join(ws[1..], " ");
      JoinWordsSingleSpaced(ws[1..]);
      JoinWordsEnds(ws[1..]);
      JoinWordsNonEmpty(ws[1..]);
      var j := Join(ws, " ");
      assert j == w + " " + rest;
      forall i | 0 <= i < |j| && IsSpace(j[i])
        ensures j[i] == ' ' && 0 < i < |j| - 1 && !IsSpace(j[i - 1]) && !IsSpace(j[i + 1])
      {
        if i == |w| {
          assert j[i - 1] == w[|w| - 1] && NotSpace(w[|w| - 1]);
          assert j[i + 1] == rest[0];
        } else if i > |w| {
          assert j[i] == rest[i - |w| - 1];
          assert j[i + 1] == rest[i - |w|];
          if i - |w| - 1 > 0 {
            assert j[i - 1] == rest[i - |w| - 2];
          }
        }
      }
    } else if |ws| == 1 {
      assert forall i :: 0 <= i < |ws[0]| ==> NotSpace(ws[0][i]);
    }
  }

  /** A single-space join of words neither starts nor ends with whitespace. */
  lemma {:induction false} JoinWordsEnds(ws: seq<string>)
    requires RunsShaped(ws, NotSpace)
    ensures var j := Join(ws, " "); j == [] || (!IsSpace(j[0]) && !IsSpace(j[|j| - 1]))
  {
    if |ws| > 1 {
      JoinWordsEnds(ws[1..]);
      var rest := Join(ws[1..], " ");
      assert rest != [] by { assert ws[1] != []; JoinWordsNonEmpty(ws[1..]); }
      assert Join(ws, " ") == ws[0] + " " + rest;
    }
  }

  lemma {:induction false} JoinWordsNonEmpty(ws: seq<string>)
    requires RunsShaped(ws, NotSpace) && ws != []
    ensures Join(ws, " ") != []
  {
    if |ws| > 1 {
      assert |Join(ws, " ")| >= |ws[0]|;
    }
  }

  /** `[c for c in s if c.isdigit()]`, i.e. `re.sub(r'[^\d]', '', s)`. */
  function Digits(s: string): (d: string)
    ensures AllDigits(d)
    ensures |d| <= |s|
  {
    if s == [] then []
    else if IsDigit(s[0]) then [s[0]] + Digits(s[1..])
    else Digits(s[1..])
  }

  lemma {:induction false} DigitsOfDigits(s: string)
    requires AllDigits(s)
    ensures Digits(s) == s
  {
    if s != [] {
      DigitsOfDigits(s[1..]);
      assert s == [s[0]] + s[1..];
    }
  }

  lemma {:induction false} DigitsEmpty(s: string)
    ensures Digits(s) == [] <==> forall k :: 0 <= k < |s| ==> !IsDigit(s[k])
  {
    if s != [] {
      DigitsEmpty(s[1..]);
      if !IsDigit(s[0]) {
        assert forall k :: 1 <= k < |s| ==> s[k] == s[1..][k - 1];
      }
    }
  }

  function DigitValue(c: char): (v: nat)
    requires IsDigit(c)
    ensures v < 10
  {
    c as int - '0' as int
  }

  function DigitChar(v: nat): (c: char)
    requires v < 10
    ensures IsDigit(c) && DigitValue(c) == v
  {
    ('0' as int + v) as char
  }

  /** `int(d)` for a string of decimal digits: leading zeros are allowed. */
  function Value(d: string): nat
    requires AllDigits(d)
  {
    if d == [] then 0 else 10 * Value(d[..|d| - 1]) + DigitValue(d[|d| - 1])
  }

  /** `str(n)` for a non-negative integer: decimal, no leading zero. */
  function NatToString(n: nat): (s: string)
    ensures s != [] && AllDigits(s)
    ensures s[0] == '0' ==> n == 0
  {
    if n < 10 then [DigitChar(n)] else NatToString(n / 10) + [DigitChar(n % 10)]
  }

  lemma {:induction false} ValueOfNatToString(n: nat)
    ensures Value(NatToString(n)) == n
  {
    if n >= 10 {
      ValueOfNatToString(n / 10);
      var s := NatToString(n);
      assert s[..|s| - 1] == NatToString(n / 10);
    }
  }

  /** Python's `a < b` on `str`: lexicographic by code point, a proper prefix first. */
  predicate Below(a: string, b: string) {
    if a == [] then b != []
    else if b == [] then false
    else if a[0] != b[0] then a[0] < b[0]
    else Below(a[1..], b[1..])
  }

  lemma {:induction false} BelowIrreflexive(a: string)
    ensures !Below(a, a)
  {
    if a != [] {
      BelowIrreflexive(a[1..]);
    }
  }

  lemma {:induction false} BelowTransitive(a: string, b: string, c: string)
    requires Below(a, b) && Below(b, c)
    ensures Below(a, c)
  {
    if a != [] && b != [] && c != [] && a[0] == b[0] && b[0] == c[0] {
      BelowTransitive(a[1..], b[1..], c[1..]);
    }
  }

  lemma {:induction false} BelowTotal(a: string, b: string)
    ensures a == b || Below(a, b) || Below(b, a)
  {
    if a != [] && b != [] && a[0] == b[0] {
      BelowTotal(a[1..], b[1..]);
      if a[1..] == b[1..] {
        assert a == [a[0]] + a[1..] && b == [b[0]] + b[1..];
      }
    }
  }

  lemma {:induction false} BelowAsymmetric(a: string, b: string)
    requires Below(a, b)
    ensures !Below(b, a)
  {
    if a != [] && b != [] && a[0] == b[0] {
      BelowAsymmetric(a[1..], b[1..]);
    }
  }
}
