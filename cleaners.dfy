/**
 * The field cleaners of scraper.py: pure functions from raw text fragments of a
 * listing page to typed, possibly absent, values.
 */
module Cleaners {
  import opened Wrappers
  import opened Text

  // ---------------------------------------------------------------- integers

  /**
   * `clean_integer(number_str)`: None for None or "", otherwise the decimal
   * value of the string's digits read in order, or None when it has no digit.
   */
  function CleanInteger(s: Option<string>): (r: Option<nat>)
    ensures r.None? <==> s.None? || forall k :: 0 <= k < |s.value| ==> !IsDigit(s.value[k])
    ensures r.Some? ==> r.value == Value(Digits(s.value))
  {
    DigitsEmpty(s.GetOr([]));
    if s.None? || s.value == "" then None
    else
      var cleaned := Digits(s.value);
      if cleaned == [] then None else Some(Value(cleaned))
  }

  /**
   * `clean_integer` applied to a value that is already an int, as the record
   * assembly does for the number of floors: 0 is falsy and gives None, and on
   * any other int `re.sub` raises TypeError, which the function's own
   * `except (ValueError, TypeError)` turns into None.
   */
  function CleanIntegerOfInt(n: Option<nat>): Option<nat> {
    if n.None? || n.value == 0 then None
    else None
  }

  /** Cleaning the decimal rendering of a number gives the number back. */
  lemma CleanIntegerRoundTrip(n: nat)
    ensures CleanInteger(Some(NatToString(n))) == Some(n)
  {
    DigitsOfDigits(NatToString(n));
    ValueOfNatToString(n);
  }

  /** Separators, currency symbols and units around the digits are ignored. */
  lemma CleanIntegerIgnoresDecoration(pre: string, n: nat, post: string)
    requires forall k :: 0 <= k < |pre| ==> !IsDigit(pre[k])
    requires forall k :: 0 <= k < |post| ==> !IsDigit(post[k])
    ensures CleanInteger(Some(pre + NatToString(n) + post)) == Some(n)
  {
    var d := NatToString(n);
    DigitsOfConcat(pre, d + post);
    DigitsOfConcat(d, post);
    DigitsEmpty(pre);
    DigitsEmpty(post);
    DigitsOfDigits(d);
    ValueOfNatToString(n);
    assert pre + d + post == pre + (d + post);
    assert d + [] == d;
  }

  lemma {:induction false} DigitsOfConcat(a: string, b: string)
    ensures Digits(a + b) == Digits(a) + Digits(b)
  {
    if a != [] {
      assert (a + b)[1..] == a[1..] + b;
      DigitsOfConcat(a[1..], b);
    } else {
      assert a + b == b;
    }
  }

  // ---------------------------------------------------------------- text

  /** `clean_text(text)`: None for None or "", otherwise the text stripped (possibly ""). */
  function CleanText(t: Option<string>): (r: Option<string>)
    ensures r.None? <==> t.None? || t.value == ""
    ensures r.Some? ==> r.value == [] || (!IsSpace(r.value[0]) && !IsSpace(r.value[|r.value| - 1]))
    ensures r.Some? ==> Words(r.value) == Words(t.value)
    ensures r.Some? ==> exists i: nat, j: nat :: i <= j <= |t.value| && SpaceOutside(t.value, i, j) && r.value == t.value[i..j]
  {
    if t.None? || t.value == "" then None
    else
      StripKeepsWords(t.value);
      Some(Strip(t.value))
  }

  lemma StripKeepsWords(s: string)
    ensures Words(Strip(s)) == Words(s)
  {
    TrimLeftKeepsRuns(s);
    var l := TrimLeft(s);
    var r := TrimRight(l);
    assert l == r + l[|r|..];
    TrimmedSpacesAddNoRun(r, l[|r|..], []);
  }

  lemma TrimLeftKeepsRuns(s: string)
    ensures Runs(TrimLeft(s), [], NotSpace) == Runs(s, [], NotSpace)
  {
    LeadingSpacesAddNoRun(s, RunEnd(s, 0, IsSpace));
  }

  lemma {:induction false} LeadingSpacesAddNoRun(s: string, n: nat)
    requires n <= |s| && forall k :: 0 <= k < n ==> IsSpace(s[k])
    ensures Runs(s[n..], [], NotSpace) == Runs(s, [], NotSpace)
    decreases n
  {
    if n > 0 {
      assert s[1..][n - 1..] == s[n..];
      LeadingSpacesAddNoRun(s[1..], n - 1);
    }
  }

  lemma {:induction false} TrimmedSpacesAddNoRun(w: string, sp: string, cur: string)
    requires forall k :: 0 <= k < |sp| ==> IsSpace(sp[k])
    ensures Runs(w + sp, cur, NotSpace) == Runs(w, cur, NotSpace)
    decreases |w|
  {
    if w == [] {
      assert w + sp == sp;
      SpacesCloseRun(sp, cur);
    } else {
      assert (w + sp)[1..] == w[1..] + sp;
      if NotSpace(w[0]) {
        TrimmedSpacesAddNoRun(w[1..], sp, cur + [w[0]]);
      } else {
        TrimmedSpacesAddNoRun(w[1..], sp, []);
      }
    }
  }

  lemma {:induction false} SpacesCloseRun(sp: string, cur: string)
    requires forall k :: 0 <= k < |sp| ==> IsSpace(sp[k])
    ensures Runs(sp, cur, NotSpace) == Runs([], cur, NotSpace)
  {
    if sp != [] {
      SpacesCloseRun(sp[1..], []);
    }
  }

  /** `clean_att(s)`: the words of `s` joined by single spaces, then stripped. */
  function CleanAtt(s: string): (r: string)
    ensures Words(r) == Words(s)
    ensures r == [] || (!IsSpace(r[0]) && !IsSpace(r[|r| - 1]))
    ensures SingleSpaced(r)
  {
    var joined := Join(Words(s), " ");
    JoinWordsEnds(Words(s));
    JoinWordsSingleSpaced(Words(s));
    StripUnchanged(joined);
    WordsOfJoin(Words(s));
    Strip(joined)
  }

  /** Cleaning a cleaned label or value changes nothing. */
  lemma CleanAttIdempotent(s: string)
    ensures CleanAtt(CleanAtt(s)) == CleanAtt(s)
  {
  }

  // ---------------------------------------------------------------- age

  /** The age text is accepted: it mentions "years" (any case) and holds exactly two numbers. */
  predicate AgeAccepted(s: string) {
    Contains(Lower(s), "years") && |DigitRuns(s)| == 2
  }

  /**
   * `clean_age(age_str)`: "<min>-<max>" when the text mentions "years" and
   * holds exactly two maximal digit runs, each rendered without leading zeros;
   * None otherwise.
   */
  function CleanAge(a: Option<string>): (r: Option<string>)
    ensures r.Some? <==> a.Some? && AgeAccepted(a.value)
    ensures r.Some? ==> var ins := DigitRuns(a.value); var outs := DigitRuns(r.value);
      |outs| == 2 && Value(outs[0]) == Value(ins[0]) && Value(outs[1]) == Value(ins[1])
    ensures r.Some? ==> var ins := DigitRuns(a.value);
      r.value == NatToString(Value(ins[0])) + "-" + NatToString(Value(ins[1]))
  {
    if a.None? || a.value == "" then None
    else if !Contains(Lower(a.value), "years") then None
    else
      var numbers := DigitRuns(a.value);
      if |numbers| == 2 then
        var lo, hi := Value(numbers[0]), Value(numbers[1]);
        AgeRangeReadsBack(lo, hi);
        Some(NatToString(lo) + "-" + NatToString(hi))
      else None
  }

  /** Reading the numbers back out of a rendered range gives the two bounds. */
  lemma AgeRangeReadsBack(lo: nat, hi: nat)
    ensures var outs := DigitRuns(NatToString(lo) + "-" + NatToString(hi));
      |outs| == 2 && Value(outs[0]) == lo && Value(outs[1]) == hi
  {
    var x, y := NatToString(lo), NatToString(hi);
    assert x + "-" + y == x + ("-" + y);
    RunsOfKeptPrefix(x, "-" + y, [], IsDigit);
    assert [] + x == x;
    assert ("-" + y)[1..] == y;
    RunsOfKeptPrefix(y, [], [], IsDigit);
    assert y + [] == y && [] + y == y;
    ValueOfNatToString(lo);
    ValueOfNatToString(hi);
  }

  // ---------------------------------------------------------------- rooms

  /** `rooms?\b`, ignoring case, at position `p` of `s`. */
  predicate RoomWordAt(s: string, p: nat) {
    && p + 4 <= |s|
    && (s[p] == 'r' || s[p] == 'R') && (s[p + 1] == 'o' || s[p + 1] == 'O')
    && (s[p + 2] == 'o' || s[p + 2] == 'O') && (s[p + 3] == 'm' || s[p + 3] == 'M')
    && (|| p + 4 == |s|
        || !IsWord(s[p + 4])
        || ((s[p + 4] == 's' || s[p + 4] == 'S') && (p + 5 == |s| || !IsWord(s[p + 5]))))
  }

  /**
   * `(?:\w+\s)?rooms?\b` at position `p`. When the optional group is used,
   * its `\w+` must stop where a whitespace character follows, so it is the
   * whole word run starting at `p`.
   */
  predicate WordThenRoomAt(s: string, p: nat)
    requires p <= |s|
  {
    || RoomWordAt(s, p)
    || var w := RunEnd(s, p, IsWord); p < w < |s| && IsSpace(s[w]) && RoomWordAt(s, w + 1)
  }

  /**
   * `(\d+)\s*(?:\w+\s)?rooms?\b` matches with its digits starting at `i`.
   * Neither alternative after `\s*` can begin with whitespace, so `\s*`
   * succeeds only by taking the whole whitespace run. A match starting inside a
   * digit run also matches from the start of that run with the same
   * continuation, and the greedy `\d+` succeeds whenever a shorter run does, so
   * the leftmost match always takes a whole digit run.
   */
  predicate RoomsMatchAt(s: string, i: nat) {
    && i < |s| && IsDigit(s[i]) && (i == 0 || !IsDigit(s[i - 1]))
    && WordThenRoomAt(s, RunEnd(s, RunEnd(s, i, IsDigit), IsSpace))
  }

  /** The value of the digit run starting at `i`. */
  function RunValueAt(s: string, i: nat): nat
    requires i <= |s|
  {
    var e := RunEnd(s, i, IsDigit);
    assert AllDigits(s[i..e]) by {
      assert forall k :: 0 <= k < e - i ==> s[i..e][k] == s[i + k];
    }
    Value(s[i..e])
  }

  /** The leftmost position at or after `i` where the pattern matches. */
  function FirstRoomsMatch(s: string, i: nat): (r: Option<nat>)
    ensures r.Some? ==> i <= r.value < |s| && RoomsMatchAt(s, r.value)
    ensures r.Some? ==> forall j: nat :: i <= j < r.value ==> !RoomsMatchAt(s, j)
    ensures r.None? ==> forall j: nat :: i <= j ==> !RoomsMatchAt(s, j)
    decreases |s| - i
  {
    if i >= |s| then None
    else if RoomsMatchAt(s, i) then Some(i)
    else
      var r := FirstRoomsMatch(s, i + 1);
      NoMatchAtExtends(s, i, r);
      r
  }

  /** A position that does not match extends the "no match before" range of the next search by one. */
  lemma NoMatchAtExtends(s: string, i: nat, r: Option<nat>)
    requires i < |s| && !RoomsMatchAt(s, i)
    requires r.Some? ==> i + 1 <= r.value < |s| && RoomsMatchAt(s, r.value)
    requires r.Some? ==> forall j: nat :: i + 1 <= j < r.value ==> !RoomsMatchAt(s, j)
    requires r.None? ==> forall j: nat :: i + 1 <= j ==> !RoomsMatchAt(s, j)
    ensures r.Some? ==> forall j: nat :: i <= j < r.value ==> !RoomsMatchAt(s, j)
    ensures r.None? ==> forall j: nat :: i <= j ==> !RoomsMatchAt(s, j)
  {
  }

  /**
   * `clean_rooms(description)`: the number in the leftmost match of
   * `(\d+)\s*(?:\w+\s)?rooms?\b` (ignoring case), or None.
   */
  function CleanRooms(d: Option<string>): (r: Option<nat>)
    ensures r.None? <==> d.None? || forall j: nat :: !RoomsMatchAt(d.value, j)
    ensures r.Some? ==> exists k: nat :: k < |d.value| && RoomsMatchAt(d.value, k) && r.value == RunValueAt(d.value, k)
                           && forall j: nat :: j < k ==> !RoomsMatchAt(d.value, j)
  {
    if d.None? || d.value == "" then None
    else
      match FirstRoomsMatch(d.value, 0)
      case None => None
      case Some(k) => Some(RunValueAt(d.value, k))
  }

  /** A description that never says "room" (in any case) yields no room count. */
  lemma NoRoomWordNoRooms(d: string)
    requires !Contains(Lower(d), "room")
    ensures CleanRooms(Some(d)).None?
  {
    forall i: nat
      ensures !RoomsMatchAt(d, i)
    {
      NoRoomWordNoMatchAt(d, i);
    }
  }

  lemma NoRoomWordNoMatchAt(d: string, i: nat)
    requires !Contains(Lower(d), "room")
    ensures !RoomsMatchAt(d, i)
  {
    if RoomsMatchAt(d, i) {
      MatchContainsRoom(d, i);
    }
  }

  lemma MatchContainsRoom(d: string, i: nat)
    requires RoomsMatchAt(d, i)
    ensures Contains(Lower(d), "room")
  {
    var p := RunEnd(d, RunEnd(d, i, IsDigit), IsSpace);
    if RoomWordAt(d, p) {
      RoomWordContains(d, p);
    } else {
      RoomWordContains(d, RunEnd(d, p, IsWord) + 1);
    }
  }

  lemma RoomWordContains(d: string, at: nat)
    requires RoomWordAt(d, at)
    ensures Contains(Lower(d), "room")
  {
    var l := Lower(d);
    assert l[at] == 'r' && l[at + 1] == 'o' && l[at + 2] == 'o' && l[at + 3] == 'm';
    assert l[at..at + 4] == "room";
    ContainsAt(Lower(d), "room", at);
  }

  // ---------------------------------------------------------------- condition

  /**
   * `clean_condition(cond_str)` as written: "Good condition" gives "Good" and
   * "New" gives "New", but the `==` at scraper.py:309 compares instead of
   * assigning, so "Due for reform" comes back unchanged; anything else is None.
   */
  function CleanCondition(c: Option<string>): (r: Option<string>)
    ensures r == Some("Good") <==> c == Some("Good condition")
    ensures r == Some("New") <==> c == Some("New")
    ensures r == Some("Due for reform") <==> c == Some("Due for reform")
    ensures r.Some? ==> r.value in {"Good", "New", "Due for reform"}
  {
    if c.None? || c.value == "" then None
    else if c.value == "Good condition" then Some("Good")
    else if c.value == "Due for reform" then Some(c.value)
    else if c.value == "New" then Some(c.value)
    else None
  }

  /** The one input for which the written function leaves the closed set {Good, Old, New}. */
  lemma DueForReformEscapesConditionSet()
    ensures CleanCondition(Some("Due for reform")) == Some("Due for reform")
    ensures CleanCondition(Some("Due for reform")).value !in {"Good", "Old", "New"}
  {
  }

  /** `clean_condition` with the assignment line 309 evidently intends: "Due for reform" becomes "Old". */
  function CleanConditionIntended(c: Option<string>): (r: Option<string>)
    ensures r.Some? ==> r.value in {"Good", "Old", "New"}
    ensures r == Some("Old") <==> c == Some("Due for reform")
    ensures c.Some? && c.value !in {"Good condition", "Due for reform", "New"} ==> r.None?
    ensures c != Some("Due for reform") ==> r == CleanCondition(c)
  {
    if c.None? || c.value == "" then None
    else if c.value == "Good condition" then Some("Good")
    else if c.value == "Due for reform" then Some("Old")
    else if c.value == "New" then Some(c.value)
    else None
  }

  // ---------------------------------------------------------------- area and city

  predicate NoNewline(s: string) {
    forall k :: 0 <= k < |s| ==> s[k] != '\n'
  }

  predicate NoNewlineIn(t: string, lo: nat, hi: nat)
    requires lo <= hi <= |t|
  {
    forall k :: lo <= k < hi ==> t[k] != '\n'
  }

  /** The word "in", in any case, at position `b` of `t`. */
  predicate InAt(t: string, b: nat) {
    b + 1 < |t| && (t[b] == 'i' || t[b] == 'I') && (t[b + 1] == 'n' || t[b + 1] == 'N')
  }

  /**
   * Group 1 of `^(.*)\s+in\s+(.*)$` (ignoring case) can end at `a` in the
   * stripped text `t`: `.` stops at a newline, the greedy `\s+` must take the
   * whole whitespace run after `a` for the literal "in" to follow, and group 2
   * starts after the whole whitespace run that follows "in" and reaches the end.
   */
  predicate SplitAt(t: string, a: nat) {
    && a < |t| && IsSpace(t[a]) && NoNewlineIn(t, 0, a)
    && var b := RunEnd(t, a, IsSpace);
       && b + 2 < |t| && InAt(t, b) && IsSpace(t[b + 2])
       && NoNewlineIn(t, RunEnd(t, b + 2, IsSpace), |t|)
  }

  /** Where group 2 starts when group 1 ends at `a`: past "in" and the whitespace run after it. */
  function CityStart(t: string, a: nat): (c: nat)
    requires SplitAt(t, a)
    ensures a < c <= |t|
  {
    RunEnd(t, RunEnd(t, a, IsSpace) + 2, IsSpace)
  }

  /** `a` is the split point the greedy `(.*)` settles on: no split point lies after it. */
  predicate LastSplit(t: string, a: nat) {
    SplitAt(t, a) && forall a': nat :: a < a' < |t| ==> !SplitAt(t, a')
  }

  /** The largest split point below `n`: greedy `(.*)` tries the longest group 1 first. */
  function LastSplitBelow(t: string, n: nat): (r: Option<nat>)
    ensures r.Some? ==> r.value < n && SplitAt(t, r.value)
    ensures forall a: nat :: (r.None? || r.value < a) && a < n ==> !SplitAt(t, a)
  {
    if n == 0 then None
    else if SplitAt(t, n - 1) then Some(n - 1)
    else LastSplitBelow(t, n - 1)
  }

  /** `m` is whitespace, "in" in any case, whitespace. */
  predicate InSeparator(m: string) {
    var s := PrefixLength(m, IsSpace);
    && 0 < s && s + 2 < |m| && InAt(m, s)
    && forall k :: s + 2 <= k < |m| ==> IsSpace(m[k])
  }

  /** `area` and `city` are the pieces of the stripped text `t` around an "in" separator. */
  predicate SplitPieces(t: string, area: string, city: string) {
    && area != [] && city != [] && NoNewline(area) && NoNewline(city)
    && !IsSpace(area[0]) && !IsSpace(area[|area| - 1])
    && !IsSpace(city[0]) && !IsSpace(city[|city| - 1])
    && |area| + |city| < |t| && t[..|area|] == area && t[|t| - |city|..] == city
    && InSeparator(t[|area|..|t| - |city|])
  }

  /**
   * `parse_area_and_city(raw_area_text)`: (None, None) for None or "";
   * otherwise the stripped text is split at its last whitespace-"in"-whitespace
   * separator into an area and a city, and without a separator the whole
   * stripped text is the city.
   */
  function ParseAreaAndCity(raw: Option<string>): (r: (Option<string>, Option<string>))
    ensures r == (None, None) <==> raw.None? || raw.value == ""
    ensures raw.Some? && raw.value != "" ==> r.1.Some?
    ensures r.0.None? && r.1.Some? ==>
      r.1.value == Strip(raw.value) && forall a: nat :: !SplitAt(Strip(raw.value), a)
    ensures r.0.Some? ==> SplitPieces(Strip(raw.value), r.0.value, r.1.value)
    ensures r.0.Some? ==> var t := Strip(raw.value);
      exists a: nat :: LastSplit(t, a) && r.0.value == Strip(t[..a]) && r.1.value == Strip(t[CityStart(t, a)..])
  {
    if raw.None? || raw.value == "" then (None, None)
    else
      var t := Strip(raw.value);
      match LastSplitBelow(t, |t|)
      case None =>
        StripUnchanged(t);
        NoSplitAnywhere(t);
        (None, Some(Strip(t)))
      case Some(a) =>
        var (area, city) := PiecesAt(t, a);
        (Some(area), Some(city))
  }

  lemma NoSplitAnywhere(t: string)
    requires LastSplitBelow(t, |t|).None?
    ensures forall a: nat :: !SplitAt(t, a)
  {
  }

  /** Groups 1 and 2, each stripped, when group 1 ends at `a`. */
  function PiecesAt(t: string, a: nat): (r: (string, string))
    requires t != [] && !IsSpace(t[0]) && !IsSpace(t[|t| - 1]) && SplitAt(t, a)
    ensures SplitPieces(t, r.0, r.1)
    ensures r.0 == Strip(t[..a]) && r.1 == Strip(t[CityStart(t, a)..])
  {
    SplitShape(t, a);
    var b := RunEnd(t, a, IsSpace);
    var c := CityStart(t, a);
    assert c == RunEnd(t, b + 2, IsSpace);
    var area, city := Strip(t[..a]), Strip(t[c..]);
    assert 0 < a < b && b + 2 < c < |t|;
    assert !IsSpace(t[0]) && !IsSpace(t[|t| - 1]);
    assert NoNewlineIn(t, 0, a);
    assert NoNewlineIn(t, c, |t|);
    assert !IsSpace(t[c]);
    assert forall k :: a <= k < b ==> IsSpace(t[k]);
    assert !IsSpace(t[b]) && InAt(t, b);
    assert forall k :: b + 2 <= k < c ==> IsSpace(t[k]);
    PiecesAtSplit(t, a, b, c, area, city);
    (area, city)
  }

  /** What a split point says about the characters of `t` around it. */
  lemma SplitShape(t: string, a: nat)
    requires t != [] && !IsSpace(t[0]) && !IsSpace(t[|t| - 1]) && SplitAt(t, a)
    ensures var b := RunEnd(t, a, IsSpace); var c := RunEnd(t, b + 2, IsSpace);
      && 0 < a < b && b + 2 < c < |t|
      && NoNewlineIn(t, 0, a) && NoNewlineIn(t, c, |t|) && !IsSpace(t[c])
      && (forall k :: a <= k < b ==> IsSpace(t[k]))
      && !IsSpace(t[b]) && InAt(t, b)
      && (forall k :: b + 2 <= k < c ==> IsSpace(t[k]))
  {
    var b := RunEnd(t, a, IsSpace);
  }

  /** The pieces around a split point of a stripped text. */
  lemma PiecesAtSplit(t: string, a: nat, b: nat, c: nat, area: string, city: string)
    requires 0 < a < b && b + 2 < c < |t|
    requires !IsSpace(t[0]) && !IsSpace(t[|t| - 1])
    requires NoNewlineIn(t, 0, a) && NoNewlineIn(t, c, |t|) && !IsSpace(t[c])
    requires forall k :: a <= k < b ==> IsSpace(t[k])
    requires !IsSpace(t[b]) && InAt(t, b)
    requires forall k :: b + 2 <= k < c ==> IsSpace(t[k])
    requires area == Strip(t[..a]) && city == Strip(t[c..])
    ensures SplitPieces(t, area, city)
  {
    var area' := AreaPiece(t, a);
    CityPiece(t, c);
    AssemblePieces(t, area, city, b, c);
  }

  lemma AssemblePieces(t: string, area: string, city: string, b: nat, c: nat)
    requires area != [] && NoNewline(area) && !IsSpace(area[0]) && !IsSpace(area[|area| - 1])
    requires |area| < b && b + 2 < c < |t| && t[..|area|] == area
    requires forall k :: |area| <= k < b ==> IsSpace(t[k])
    requires !IsSpace(t[b]) && InAt(t, b)
    requires forall k :: b + 2 <= k < c ==> IsSpace(t[k])
    requires city == t[c..] && NoNewline(city) && !IsSpace(city[0]) && !IsSpace(city[|city| - 1])
    ensures SplitPieces(t, area, city)
  {
    assert |t| - |city| == c;
    SeparatorShape(t, |area|, b, c);
  }

  /** Group 1 stripped: `t[..a]` starts with a non-space, so only trailing whitespace goes. */
  lemma AreaPiece(t: string, a: nat) returns (area: string)
    requires 0 < a <= |t| && !IsSpace(t[0]) && NoNewlineIn(t, 0, a)
    ensures area == Strip(t[..a]) && area != [] && |area| <= a && t[..|area|] == area
    ensures NoNewline(area)
    ensures !IsSpace(area[0]) && !IsSpace(area[|area| - 1])
    ensures forall k :: |area| <= k < a ==> IsSpace(t[k])
  {
    var head := t[..a];
    assert RunEnd(head, 0, IsSpace) == 0;
    assert TrimLeft(head) == head;
    area := TrimRight(head);
    assert head[..|area|] == t[..|area|];
    assert forall k :: |area| <= k < a ==> head[k] == t[k];
    assert forall k :: 0 <= k < |area| ==> area[k] == t[k];
  }

  /** Group 2 stripped: it starts at a non-space and ends with `t`'s last character. */
  lemma CityPiece(t: string, c: nat)
    requires c < |t| && !IsSpace(t[c]) && !IsSpace(t[|t| - 1]) && NoNewlineIn(t, c, |t|)
    ensures Strip(t[c..]) == t[c..] && NoNewline(t[c..])
  {
    var city := t[c..];
    StripUnchanged(city);
    assert forall k :: 0 <= k < |city| ==> city[k] == t[c + k];
  }

  lemma SeparatorShape(t: string, lo: nat, b: nat, c: nat)
    requires lo < b && b + 2 < c <= |t|
    requires forall k :: lo <= k < b ==> IsSpace(t[k])
    requires !IsSpace(t[b]) && InAt(t, b)
    requires forall k :: b + 2 <= k < c ==> IsSpace(t[k])
    ensures InSeparator(t[lo..c])
  {
    var m := t[lo..c];
    assert forall k :: 0 <= k < |m| ==> m[k] == t[lo + k];
    PrefixLengthIs(m, IsSpace, b - lo);
  }

  /** "Maarif in Casablanca" splits into its area and its city. */
  lemma AreaAndCityExample(t: string)
    requires t == "Maarif in Casablanca"
    ensures ParseAreaAndCity(Some(t)) == (Some("Maarif"), Some("Casablanca"))
  {
    ExampleStrips(t);
    ExampleSplitPoint(t);
  }

  lemma ExampleStrips(t: string)
    requires t == "Maarif in Casablanca"
    ensures t != [] && Strip(t) == t && Strip(t[..6]) == "Maarif" && Strip(t[10..]) == "Casablanca"
  {
    ExamplePieces(t);
    assert !IsSpace(t[0]) && !IsSpace(t[|t| - 1]);
    StripUnchanged(t);
    var area, city := t[..6], t[10..];
    assert !IsSpace(area[0]) && !IsSpace(area[5]);
    StripUnchanged(area);
    assert city[0] == t[10] && city[|city| - 1] == t[|t| - 1];
    assert !IsSpace(t[10]);
    StripUnchanged(city);
  }

  lemma ExamplePieces(t: string)
    requires t == "Maarif in Casablanca"
    ensures t[..6] == "Maarif" && t[10..] == "Casablanca"
  {
  }

  lemma ExampleSplitPoint(t: string)
    requires t == "Maarif in Casablanca"
    ensures RunEnd(t, 6, IsSpace) == 7
    ensures RunEnd(t, 9, IsSpace) == 10
    ensures LastSplitBelow(t, |t|) == Some(6)
  {
    ExampleSplitAtSix(t);
    ExampleNoLaterSplit(t);
  }

  lemma ExampleSplitAtSix(t: string)
    requires t == "Maarif in Casablanca"
    ensures RunEnd(t, 6, IsSpace) == 7
    ensures RunEnd(t, 9, IsSpace) == 10
    ensures SplitAt(t, 6)
  {
    ExampleRuns(t);
    ExampleNoNewlines(t);
  }

  /** The whitespace runs around "in" in the example. */
  lemma ExampleRuns(t: string)
    requires t == "Maarif in Casablanca"
    ensures IsSpace(t[6]) && InAt(t, 7) && IsSpace(t[9])
    ensures RunEnd(t, 6, IsSpace) == 7
    ensures RunEnd(t, 9, IsSpace) == 10
  {
    assert t[6] == ' ' && t[7] == 'i' && t[8] == 'n' && t[9] == ' ' && t[10] == 'C';
    RunEndIs(t, 6, IsSpace, 7);
    RunEndIs(t, 9, IsSpace, 10);
  }

  /** Neither the area nor the city of the example holds a newline. */
  lemma ExampleNoNewlines(t: string)
    requires t == "Maarif in Casablanca"
    ensures NoNewlineIn(t, 0, 6) && NoNewlineIn(t, 10, |t|)
  {
    forall k | 0 <= k < 6 ensures t[k] != '\n' { assert t[k] in "Maarif"; }
    forall k | 10 <= k < |t| ensures t[k] != '\n' { assert t[k] in "Casablanca"; }
  }

  lemma ExampleNoLaterSplit(t: string)
    requires t == "Maarif in Casablanca"
    ensures forall a: nat :: 6 < a < |t| ==> !SplitAt(t, a)
  {
    forall a: nat | 6 < a < |t|
      ensures !SplitAt(t, a)
    {
      if a == 9 {
        assert !IsSpace(t[10]);
        RunEndIs(t, 9, IsSpace, 10);
      } else {
        assert !IsSpace(t[a]);
      }
    }
  }
}
