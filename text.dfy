/**
 * The string operations the backend borrows from Python (`str.strip`,
 * `str.lower`, `str.upper`, `str.split`, `re.sub(r"\s+", " ", ...)`,
 * `re.findall`, the `in` operator on strings), restricted to ASCII
 * character classes. Non-ASCII characters are never whitespace, never
 * letters and never change case here.
 */
module Text {

  // ---------------------------------------------------------------------
  // Character classes
  // ---------------------------------------------------------------------

  /** `str.isspace()` and the regex class `\s` on ASCII: tab, line feed,
      vertical tab, form feed, carriage return, the four information
      separators 0x1C-0x1F and the space. */
  predicate IsSpace(c: char) {
    9 <= c as int <= 13 || 28 <= c as int <= 32
  }

  predicate NonSpace(c: char) {
    !IsSpace(c)
  }

  predicate IsUpper(c: char) {
    'A' <= c <= 'Z'
  }

  predicate IsLower(c: char) {
    'a' <= c <= 'z'
  }

  predicate IsDigit(c: char) {
    '0' <= c <= '9'
  }

  /** The regex class `[a-z0-9]`. */
  predicate IsLowerAlnum(c: char) {
    IsLower(c) || IsDigit(c)
  }

  function LowerChar(c: char): (d: char)
    ensures !IsUpper(d)
    ensures IsSpace(d) <==> IsSpace(c)
    ensures !IsUpper(c) ==> d == c
  {
    if IsUpper(c) then (c as int + 32) as char else c
  }

  function UpperChar(c: char): (d: char)
    ensures !IsLower(d)
    ensures IsSpace(d) <==> IsSpace(c)
    ensures !IsLower(c) ==> d == c
  {
    if IsLower(c) then (c as int - 32) as char else c
  }

  /** The typographic clean-up both normalisers apply before comparing:
      curly single quotes become `'`, curly double quotes become `"`,
      en and em dashes become `-`. */
  function StraightenChar(c: char): (d: char)
    ensures IsSpace(d) <==> IsSpace(c)
    ensures d as int < 128 ==> d == c || d == '\'' || d == '"' || d == '-'
  {
    if c == '\U{2018}' || c == '\U{2019}' then '\''
    else if c == '\U{201C}' || c == '\U{201D}' then '"'
    else if c == '\U{2013}' || c == '\U{2014}' then '-'
    else c
  }

  // ---------------------------------------------------------------------
  // Character-wise maps and filters
  // ---------------------------------------------------------------------

  function MapChars(f: char -> char, s: string): (r: string)
    ensures |r| == |s|
    ensures forall i :: 0 <= i < |s| ==> r[i] == f(s[i])
  {
    if s == [] then [] else [f(s[0])] + MapChars(f, s[1..])
  }

  /** `re.sub("[^...]", "", s)`: keep exactly the characters satisfying `p`, in order. */
  function Filter(p: char -> bool, s: string): (r: string)
    ensures |r| <= |s|
    ensures forall i :: 0 <= i < |r| ==> p(r[i])
    ensures forall i :: 0 <= i < |r| ==> r[i] in s
    ensures (forall i :: 0 <= i < |s| ==> p(s[i])) ==> r == s
  {
    if s == [] then []
    else if p(s[0]) then [s[0]] + Filter(p, s[1..])
    else Filter(p, s[1..])
  }

  function Lower(s: string): (r: string)
    ensures |r| == |s|
    ensures forall i :: 0 <= i < |s| ==> r[i] == LowerChar(s[i])
  {
    MapChars(LowerChar, s)
  }

  function Upper(s: string): (r: string)
    ensures |r| == |s|
    ensures forall i :: 0 <= i < |s| ==> r[i] == UpperChar(s[i])
  {
    MapChars(UpperChar, s)
  }

  function Straighten(s: string): (r: string)
    ensures |r| == |s|
    ensures forall i :: 0 <= i < |s| ==> r[i] == StraightenChar(s[i])
  {
    MapChars(StraightenChar, s)
  }

  lemma {:induction false} FilterAppend(p: char -> bool, a: string, b: string)
    ensures Filter(p, a + b) == Filter(p, a) + Filter(p, b)
  {
    if a == [] {
      assert a + b == b;
    } else {
      assert (a + b)[1..] == a[1..] + b;
      FilterAppend(p, a[1..], b);
    }
  }

  lemma {:induction false} MapCharsAppend(f: char -> char, a: string, b: string)
    ensures MapChars(f, a + b) == MapChars(f, a) + MapChars(f, b)
  {
  }

  lemma MapCharsIdentity(f: char -> char, s: string)
    requires forall i :: 0 <= i < |s| ==> f(s[i]) == s[i]
    ensures MapChars(f, s) == s
  {
  }

  // ---------------------------------------------------------------------
  // Whitespace: strip and collapse
  // ---------------------------------------------------------------------

  /** No whitespace at either end. */
  predicate NoEdgeSpace(s: string) {
    s == [] || (!IsSpace(s[0]) && !IsSpace(s[|s| - 1]))
  }

  /** Every whitespace character is a plain space and no two are adjacent. */
  ghost predicate SingleSpaced(s: string) {
    && (forall i :: 0 <= i < |s| && IsSpace(s[i]) ==> s[i] == ' ')
    && (forall i, j :: 0 <= i < j < |s| && j == i + 1 ==> !IsSpace(s[i]) || !IsSpace(s[j]))
  }

  /** `str.lstrip()`. */
  function TrimStart(s: string): (r: string)
    ensures |r| <= |s|
    ensures r == [] || !IsSpace(r[0])
  {
    if s != [] && IsSpace(s[0]) then TrimStart(s[1..]) else s
  }

  /** `str.rstrip()`. */
  function TrimEnd(s: string): (r: string)
    ensures |r| <= |s|
    ensures r == [] || !IsSpace(r[|r| - 1])
  {
    if s != [] && IsSpace(s[|s| - 1]) then TrimEnd(s[..|s| - 1]) else s
  }

  /** `lstrip` removes a prefix made only of whitespace. */
  lemma {:induction false} TrimStartSlice(s: string)
    ensures TrimStart(s) == s[|s| - |TrimStart(s)|..]
    ensures forall i :: 0 <= i < |s| - |TrimStart(s)| ==> IsSpace(s[i])
  {
    if s != [] && IsSpace(s[0]) {
      TrimStartSlice(s[1..]);
    }
  }

  /** `rstrip` removes a suffix made only of whitespace. */
  lemma {:induction false} TrimEndSlice(s: string)
    ensures TrimEnd(s) == s[..|TrimEnd(s)|]
    ensures forall i :: |TrimEnd(s)| <= i < |s| ==> IsSpace(s[i])
  {
    if s != [] && IsSpace(s[|s| - 1]) {
      TrimEndSlice(s[..|s| - 1]);
    }
  }

  /** `str.strip()`: the longest slice without whitespace at its ends. */
  function Strip(s: string): (r: string)
    ensures NoEdgeSpace(r)
    ensures |r| <= |s|
  {
    TrimEndSlice(TrimStart(s));
    TrimEnd(TrimStart(s))
  }

  /** `re.sub(r"\s+", " ", s)`: every maximal run of whitespace becomes one space. */
  function CollapseSpaces(s: string): (r: string)
    ensures SingleSpaced(r)
    ensures |r| <= |s|
    ensures r == [] <==> s == []
    ensures s != [] ==> (IsSpace(r[0]) <==> IsSpace(s[0]))
    decreases |s|
  {
    if s == [] then []
    else if IsSpace(s[0]) then
      var rest := TrimStart(s);
      SingleSpacedCons(' ', CollapseSpaces(rest));
      " " + CollapseSpaces(rest)
    else
      SingleSpacedCons(s[0], CollapseSpaces(s[1..]));
      [s[0]] + CollapseSpaces(s[1..])
  }

  lemma SingleSpacedCons(c: char, s: string)
    requires SingleSpaced(s)
    requires IsSpace(c) ==> c == ' ' && (s == [] || !IsSpace(s[0]))
    ensures SingleSpaced([c] + s)
  {
    var t := [c] + s;
    forall i | 0 <= i < |t| && IsSpace(t[i]) ensures t[i] == ' ' {
      if i > 0 { assert t[i] == s[i - 1]; }
    }
    forall i, j | 0 <= i < j < |t| && j == i + 1 ensures !IsSpace(t[i]) || !IsSpace(t[j]) {
      assert t[j] == s[i];
      if i > 0 { assert t[i] == s[i - 1]; }
    }
  }

  lemma SingleSpacedSlice(s: string, lo: nat, hi: nat)
    requires SingleSpaced(s) && lo <= hi <= |s|
    ensures SingleSpaced(s[lo..hi])
  {
    var t := s[lo..hi];
    forall i | 0 <= i < |t| && IsSpace(t[i]) ensures t[i] == ' ' {
      assert t[i] == s[lo + i];
    }
    forall i, j | 0 <= i < j < |t| && j == i + 1 ensures !IsSpace(t[i]) || !IsSpace(t[j]) {
      assert t[i] == s[lo + i] && t[j] == s[lo + j];
    }
  }

  /** The last character of the collapsed string is whitespace exactly when the input's is. */
  lemma {:induction false} CollapseLast(s: string)
    requires s != []
    ensures IsSpace(CollapseSpaces(s)[|CollapseSpaces(s)| - 1]) <==> IsSpace(s[|s| - 1])
    decreases |s|
  {
    if IsSpace(s[0]) {
      var rest := TrimStart(s);
      TrimStartSlice(s);
      if rest != [] {
        CollapseLast(rest);
        assert s[|s| - 1] == rest[|rest| - 1];
      }
    } else if |s| > 1 {
      CollapseLast(s[1..]);
    }
  }

  /** Every character of the collapsed string is a space or a character of the input. */
  lemma {:induction false} CollapseChars(s: string)
    ensures forall i :: 0 <= i < |CollapseSpaces(s)| ==> CollapseSpaces(s)[i] == ' ' || CollapseSpaces(s)[i] in s
    decreases |s|
  {
    if s != [] {
      if IsSpace(s[0]) {
        var rest := TrimStart(s);
        TrimStartSlice(s);
        CollapseChars(rest);
        assert forall c :: c in rest ==> c in s;
      } else {
        CollapseChars(s[1..]);
        assert forall c :: c in s[1..] ==> c in s;
      }
    }
  }

  lemma StripKeepsChars(s: string, p: char -> bool)
    requires forall i :: 0 <= i < |s| ==> p(s[i])
    ensures forall i :: 0 <= i < |Strip(s)| ==> p(Strip(s)[i])
  {
    var t := TrimStart(s);
    TrimStartSlice(s);
    var u := TrimEnd(t);
    TrimEndSlice(t);
    forall i | 0 <= i < |u| ensures p(u[i]) {
      assert u[i] == t[i];
      assert t[i] == s[|s| - |t| + i];
    }
    assert forall i :: 0 <= i < |u| ==> u[i] == t[i];
  }

  lemma StripKeepsSingleSpaced(s: string)
    requires SingleSpaced(s)
    ensures SingleSpaced(Strip(s))
  {
    var t := TrimStart(s);
    TrimStartSlice(s);
    TrimEndSlice(t);
    SingleSpacedSlice(s, |s| - |t|, |s|);
    SingleSpacedSlice(t, 0, |TrimEnd(t)|);
  }

  lemma {:induction false} TrimStartIdentity(s: string)
    requires s == [] || !IsSpace(s[0])
    ensures TrimStart(s) == s
  {
  }

  lemma StripIdentity(s: string)
    requires NoEdgeSpace(s)
    ensures Strip(s) == s
  {
  }

  lemma {:induction false} CollapseIdentity(s: string)
    requires SingleSpaced(s)
    ensures CollapseSpaces(s) == s
    decreases |s|
  {
    if s != [] {
      SingleSpacedSlice(s, 1, |s|);
      CollapseIdentity(s[1..]);
      if IsSpace(s[0]) {
        assert s[0] == ' ';
        assert |s| > 1 ==> !IsSpace(s[1]);
        TrimStartIdentity(s[1..]);
        assert TrimStart(s) == TrimStart(s[1..]);
        assert CollapseSpaces(s) == " " + CollapseSpaces(s[1..]);
      } else {
        assert CollapseSpaces(s) == [s[0]] + CollapseSpaces(s[1..]);
      }
      assert s == [s[0]] + s[1..];
    }
  }

  /** Collapsing whitespace runs neither creates nor removes whitespace at the ends. */
  lemma CollapseKeepsNoEdgeSpace(s: string)
    requires NoEdgeSpace(s)
    ensures NoEdgeSpace(CollapseSpaces(s))
  {
    if s != [] { CollapseLast(s); }
  }

  // ---------------------------------------------------------------------
  // Character maps that leave whitespace alone commute with strip/collapse
  // ---------------------------------------------------------------------

  /** `f` fixes every whitespace character and sends non-whitespace to non-whitespace. */
  ghost predicate KeepsSpaces(f: char -> char) {
    forall c :: (IsSpace(c) ==> f(c) == c) && (IsSpace(f(c)) ==> IsSpace(c))
  }

  lemma {:induction false} MapTrimStart(f: char -> char, s: string)
    requires KeepsSpaces(f)
    ensures MapChars(f, TrimStart(s)) == TrimStart(MapChars(f, s))
  {
    if s != [] {
      assert MapChars(f, s)[1..] == MapChars(f, s[1..]);
      if IsSpace(s[0]) {
        MapTrimStart(f, s[1..]);
      }
    }
  }

  lemma {:induction false} MapTrimEnd(f: char -> char, s: string)
    requires KeepsSpaces(f)
    ensures MapChars(f, TrimEnd(s)) == TrimEnd(MapChars(f, s))
  {
    if s != [] {
      var m := MapChars(f, s);
      assert m[..|m| - 1] == MapChars(f, s[..|s| - 1]);
      if IsSpace(s[|s| - 1]) {
        MapTrimEnd(f, s[..|s| - 1]);
      }
    }
  }

  lemma MapStrip(f: char -> char, s: string)
    requires KeepsSpaces(f)
    ensures MapChars(f, Strip(s)) == Strip(MapChars(f, s))
  {
    MapTrimStart(f, s);
    MapTrimEnd(f, TrimStart(s));
  }

  lemma {:induction false} MapCollapse(f: char -> char, s: string)
    requires KeepsSpaces(f)
    ensures MapChars(f, CollapseSpaces(s)) == CollapseSpaces(MapChars(f, s))
    decreases |s|
  {
    if s != [] {
      var m := MapChars(f, s);
      assert m[1..] == MapChars(f, s[1..]);
      if IsSpace(s[0]) {
        MapTrimStart(f, s);
        MapCollapse(f, TrimStart(s));
        MapCharsAppend(f, " ", CollapseSpaces(TrimStart(s)));
      } else {
        MapCollapse(f, s[1..]);
        MapCharsAppend(f, [s[0]], CollapseSpaces(s[1..]));
      }
    }
  }

  lemma {:induction false} MapCharsCommute(f: char -> char, g: char -> char, s: string)
    requires forall c :: f(g(c)) == g(f(c))
    ensures MapChars(f, MapChars(g, s)) == MapChars(g, MapChars(f, s))
  {
    var a := MapChars(f, MapChars(g, s));
    var b := MapChars(g, MapChars(f, s));
    assert forall i :: 0 <= i < |s| ==> a[i] == f(g(s[i])) && b[i] == g(f(s[i]));
  }

  // ---------------------------------------------------------------------
  // Substrings: Python's `needle in haystack`
  // ---------------------------------------------------------------------

  predicate IsPrefix(p: string, s: string) {
    |p| <= |s| && s[..|p|] == p
  }

  predicate Contains(haystack: string, needle: string)
    decreases |haystack|
  {
    IsPrefix(needle, haystack) || (|haystack| > 0 && Contains(haystack[1..], needle))
  }

  /** The needle occurs in the haystack at offset `i`. */
  predicate OccursAt(haystack: string, needle: string, i: nat) {
    i + |needle| <= |haystack| && haystack[i..i + |needle|] == needle
  }

  /** `Contains` holds exactly when the needle occurs at some offset. */
  lemma {:induction false} ContainsIff(h: string, n: string)
    ensures Contains(h, n) <==> exists i: nat :: OccursAt(h, n, i)
    decreases |h|
  {
    if exists i: nat :: OccursAt(h, n, i) {
      var i: nat :| OccursAt(h, n, i);
      if i == 0 {
        assert IsPrefix(n, h);
      } else {
        assert OccursAt(h[1..], n, i - 1) by {
          assert h[1..][i - 1..i - 1 + |n|] == h[i..i + |n|];
        }
        ContainsIff(h[1..], n);
      }
    }
    if Contains(h, n) {
      if IsPrefix(n, h) {
        assert OccursAt(h, n, 0);
      } else {
        ContainsIff(h[1..], n);
        var i: nat :| OccursAt(h[1..], n, i);
        assert h[1..][i..i + |n|] == h[i + 1..i + 1 + |n|];
        assert OccursAt(h, n, i + 1);
      }
    }
  }

  lemma {:induction false} ContainsAfter(a: string, b: string, n: string)
    requires Contains(b, n)
    ensures Contains(a + b, n)
    decreases |a|
  {
    if a == [] {
      assert a + b == b;
    } else {
      assert (a + b)[1..] == a[1..] + b;
      ContainsAfter(a[1..], b, n);
    }
  }

  lemma ContainsBefore(a: string, b: string, n: string)
    requires Contains(a, n)
    ensures Contains(a + b, n)
  {
    ContainsIff(a, n);
    var i: nat :| OccursAt(a, n, i);
    assert (a + b)[i..i + |n|] == a[i..i + |n|];
    assert OccursAt(a + b, n, i);
    ContainsIff(a + b, n);
  }

  lemma ContainsSelf(s: string)
    ensures Contains(s, s)
  {
    assert IsPrefix(s, s);
  }

  // ---------------------------------------------------------------------
  // Tokens: maximal runs of characters of one class
  // ---------------------------------------------------------------------

  function RunLength(p: char -> bool, s: string): (n: nat)
    ensures n <= |s|
    ensures forall i :: 0 <= i < n ==> p(s[i])
    ensures n < |s| ==> !p(s[n])
  {
    if s == [] || !p(s[0]) then 0 else 1 + RunLength(p, s[1..])
  }

  /** The maximal non-empty runs of characters satisfying `p`, left to right:
      `re.findall("[...]+", s)`, and with `p` = NonSpace, `s.split()`. */
  function Runs(p: char -> bool, s: string): (r: seq<string>)
    ensures forall i :: 0 <= i < |r| ==> r[i] != []
    ensures forall i, j :: 0 <= i < |r| && 0 <= j < |r[i]| ==> p(r[i][j])
    decreases |s|
  {
    if s == [] then []
    else if !p(s[0]) then Runs(p, s[1..])
    else
      var n := RunLength(p, s);
      [s[..n]] + Runs(p, s[n..])
  }

  function RunSet(p: char -> bool, s: string): (r: set<string>)
    ensures forall w :: w in r ==> w != [] && forall j :: 0 <= j < |w| ==> p(w[j])
  {
    set w | w in Runs(p, s)
  }

  /** A subset of a set of words is no larger than the set. */
  lemma SubsetCardinality(a: set<string>, b: set<string>)
    requires a <= b
    ensures |a| <= |b|
  {
    assert b == a + (b - a);
  }

  // ---------------------------------------------------------------------
  // Decimal rendering of a natural number, as Python's `str(n)`
  // ---------------------------------------------------------------------

  function DigitChar(d: nat): (c: char)
    requires d < 10
    ensures IsDigit(c)
  {
    ('0' as int + d) as char
  }

  function Decimal(n: nat): (r: string)
    ensures r != []
    ensures forall i :: 0 <= i < |r| ==> IsDigit(r[i])
  {
    if n < 10 then [DigitChar(n)] else Decimal(n / 10) + [DigitChar(n % 10)]
  }
}
