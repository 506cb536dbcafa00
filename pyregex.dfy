/**
 * The part of Python's `re.search` and `int()` that the benchmark's option
 * parsing relies on.  Every pattern it uses has the shape
 * `prefix (C+)`: a literal prefix followed by one capturing group that
 * holds one or more characters of a class C, which is `\d` or `\s`.
 * `re.search` returns the leftmost match; since nothing follows the group,
 * the greedy `+` captures the longest run of class characters.
 */
module PyRegex {

  datatype Option<T> = None | Some(value: T)

  /** The two character classes the patterns use. */
  datatype CharClass = Digit | Space

  /** `\d`, restricted to the ASCII digits. */
  predicate IsAsciiDigit(c: char) {
    '0' <= c <= '9'
  }

  /** `\s` in a Python 3 str pattern: exactly the characters for which `str.isspace()` holds. */
  predicate IsUnicodeSpace(c: char) {
    var n := c as int;
    (0x09 <= n <= 0x0D) || (0x1C <= n <= 0x20) || n == 0x85 || n == 0xA0 || n == 0x1680
    || (0x2000 <= n <= 0x200A) || n == 0x2028 || n == 0x2029 || n == 0x202F || n == 0x205F
    || n == 0x3000
  }

  predicate InClass(cls: CharClass, c: char) {
    match cls
    case Digit => IsAsciiDigit(c)
    case Space => IsUnicodeSpace(c)
  }

  predicate AllInClass(cls: CharClass, s: string) {
    forall t :: 0 <= t < |s| ==> InClass(cls, s[t])
  }

  /** The pattern `prefix (cls+)`. */
  datatype Pattern = Pattern(prefix: string, cls: CharClass)

  /** A match object: where the match starts, and `group(1)`. */
  datatype Match = Match(start: nat, group: string)

  /** A match of `p` can begin at index `i` of `s`: the prefix is there and a class character follows it. */
  predicate MatchesAt(s: string, p: Pattern, i: int) {
    0 <= i && i + |p.prefix| < |s| && s[i..i + |p.prefix|] == p.prefix
    && InClass(p.cls, s[i + |p.prefix|])
  }

  /** Some index of `s` begins a match of `p`. */
  predicate Present(s: string, p: Pattern) {
    exists i :: 0 <= i <= |s| && MatchesAt(s, p, i)
  }

  /** `m.group` is the greedy capture of a match of `p` that begins at `m.start`. */
  predicate Captures(s: string, p: Pattern, m: Match) {
    var g := m.start + |p.prefix|;
    g + |m.group| <= |s| && m.group == s[g..g + |m.group|]
    && |m.group| > 0 && AllInClass(p.cls, m.group)
    && (g + |m.group| == |s| || !InClass(p.cls, s[g + |m.group|]))
  }

  /** What `re.search(p, s)` returns, described without computing it: the leftmost match with its greedy capture. */
  predicate IsSearchResult(s: string, p: Pattern, m: Match) {
    MatchesAt(s, p, m.start)
    && (forall i :: 0 <= i < m.start ==> !MatchesAt(s, p, i))
    && Captures(s, p, m)
  }

  /** Length of the longest run of class characters of `s` from index `j`. */
  function RunLength(s: string, cls: CharClass, j: nat): (n: nat)
    requires j <= |s|
    ensures j + n <= |s|
    ensures forall t :: j <= t < j + n ==> InClass(cls, s[t])
    ensures j + n == |s| || !InClass(cls, s[j + n])
    decreases |s| - j
  {
    if j < |s| && InClass(cls, s[j]) then 1 + RunLength(s, cls, j + 1) else 0
  }

  /** The scan of `re.search` from index `i` onwards. */
  function SearchFrom(s: string, p: Pattern, i: nat): (r: Option<Match>)
    requires i <= |s|
    ensures r.None? ==> forall j :: i <= j ==> !MatchesAt(s, p, j)
    ensures r.Some? ==>
      i <= r.value.start && MatchesAt(s, p, r.value.start) && Captures(s, p, r.value)
      && forall j :: i <= j < r.value.start ==> !MatchesAt(s, p, j)
    decreases |s| - i
  {
    if MatchesAt(s, p, i) then
      var g := i + |p.prefix|;
      var n := RunLength(s, p.cls, g);
      var m := Match(i, s[g..g + n]);
      assert forall t :: 0 <= t < n ==> m.group[t] == s[g + t];
      Some(m)
    else if i == |s| then
      None
    else
      SearchFrom(s, p, i + 1)
  }

  /** `re.search(p, s)`: the leftmost match of `p` in `s`, or `None`. */
  function Search(s: string, p: Pattern): (r: Option<Match>)
    ensures r.None? <==> !Present(s, p)
    ensures r.Some? ==> IsSearchResult(s, p, r.value)
  {
    SearchFrom(s, p, 0)
  }

  /** The description of `re.search` determines its result: `Search` returns the one match it admits. */
  lemma SearchUnique(s: string, p: Pattern, m: Match)
    requires IsSearchResult(s, p, m)
    ensures Search(s, p) == Some(m)
  {
    var r := Search(s, p);
    assert r.Some?;
    var x := r.value;
    assert x.start < m.start ==> !MatchesAt(s, p, x.start);
    assert m.start < x.start ==> !MatchesAt(s, p, m.start);
    CapturesUnique(s, p, x, m);
  }

  /** Two greedy captures that begin at the same place are the same string. */
  lemma CapturesUnique(s: string, p: Pattern, x: Match, y: Match)
    requires x.start == y.start && Captures(s, p, x) && Captures(s, p, y)
    ensures x.group == y.group
  {
    if |x.group| < |y.group| {
      assert false;
    } else if |y.group| < |x.group| {
      assert false;
    }
  }

  /** Character by character, the prefix sits at `i` and a class character follows it. */
  lemma MatchesAtByChars(s: string, p: Pattern, i: nat)
    requires i + |p.prefix| < |s|
    requires forall t :: 0 <= t < |p.prefix| ==> s[i + t] == p.prefix[t]
    requires InClass(p.cls, s[i + |p.prefix|])
    ensures MatchesAt(s, p, i)
  {
    assert s[i..i + |p.prefix|] == p.prefix;
  }

  /** Character by character, `m.group` is the run of class characters after the prefix, and the run ends there. */
  lemma CapturesByChars(s: string, p: Pattern, m: Match)
    requires m.start + |p.prefix| + |m.group| <= |s| && |m.group| > 0
    requires forall t :: 0 <= t < |m.group| ==> s[m.start + |p.prefix| + t] == m.group[t]
    requires AllInClass(p.cls, m.group)
    requires m.start + |p.prefix| + |m.group| == |s| || !InClass(p.cls, s[m.start + |p.prefix| + |m.group|])
    ensures Captures(s, p, m)
  {
    var g := m.start + |p.prefix|;
    assert m.group == s[g..g + |m.group|];
  }

  /** A match at `i` puts the prefix's first three characters at `i`, `i + 1` and `i + 2`. */
  lemma PrefixStart(s: string, p: Pattern, i: int)
    requires MatchesAt(s, p, i) && |p.prefix| >= 3
    ensures s[i] == p.prefix[0] && s[i + 1] == p.prefix[1] && s[i + 2] == p.prefix[2]
  {
    var w := s[i..i + |p.prefix|];
    assert w[0] == s[i] && w[1] == s[i + 1] && w[2] == s[i + 2];
  }

  /**
   * Index `i` cannot begin a match: the string ends too soon, one of the
   * prefix's first three characters is not there, or what follows the
   * prefix is outside the class.
   */
  predicate RuledOut(s: string, p: Pattern, i: int) {
    |p.prefix| < 3 || i < 0 || i + |p.prefix| >= |s|
    || s[i] != p.prefix[0] || s[i + 1] != p.prefix[1] || s[i + 2] != p.prefix[2]
    || !InClass(p.cls, s[i + |p.prefix|])
  }

  /** Indices below `n` that are ruled out do not begin matches. */
  lemma NoMatchBelow(s: string, p: Pattern, n: int)
    requires |p.prefix| >= 3
    requires forall i :: 0 <= i < n ==> RuledOut(s, p, i)
    ensures forall i :: 0 <= i < n ==> !MatchesAt(s, p, i)
  {
    forall i | 0 <= i < n
      ensures !MatchesAt(s, p, i)
    {
      assert RuledOut(s, p, i);
      if MatchesAt(s, p, i) {
        PrefixStart(s, p, i);
      }
    }
  }

  /** A string whose every index is ruled out holds no match. */
  lemma AbsentWhenRuledOut(s: string, p: Pattern)
    requires |p.prefix| >= 3
    requires forall i :: 0 <= i < |s| ==> RuledOut(s, p, i)
    ensures !Present(s, p)
  {
    NoMatchBelow(s, p, |s|);
  }

  predicate AllDigits(ds: string) {
    AllInClass(Digit, ds)
  }

  function DigitValue(c: char): (d: nat)
    requires IsAsciiDigit(c)
    ensures d < 10
  {
    c as int - '0' as int
  }

  function Pow10(n: nat): (r: nat)
    ensures r >= 1
  {
    if n == 0 then 1 else 10 * Pow10(n - 1)
  }

  /** Python's `int()` applied to a run of ASCII digits. */
  function IntOfDigits(ds: string): (r: int)
    requires AllDigits(ds)
    ensures r < Pow10(|ds|)
    decreases |ds|
  {
    if ds == [] then 0
    else
      assert AllDigits(ds[..|ds| - 1]);
      10 * IntOfDigits(ds[..|ds| - 1]) + DigitValue(ds[|ds| - 1])
  }

  /** `int()` of a digit run is never negative, and has at most as many digits as the run. */
  lemma {:induction false} IntOfDigitsBounds(ds: string)
    requires AllDigits(ds)
    ensures 0 <= IntOfDigits(ds) < Pow10(|ds|)
    decreases |ds|
  {
    if ds != [] {
      var init := ds[..|ds| - 1];
      assert AllDigits(init);
      IntOfDigitsBounds(init);
    }
  }

  /**
   * The defining equation of IntOfDigits unfolded at `ds + [c]`: appending a
   * digit multiplies the value by ten and adds the digit. A step for working
   * out concrete values, not a further property of `int()`.
   */
  lemma IntOfDigitsSnoc(ds: string, c: char)
    requires AllDigits(ds) && IsAsciiDigit(c)
    ensures AllDigits(ds + [c]) && IntOfDigits(ds + [c]) == 10 * IntOfDigits(ds) + DigitValue(c)
  {
    assert (ds + [c])[..|ds|] == ds;
  }

  function DigitChar(d: nat): (c: char)
    requires d < 10
    ensures IsAsciiDigit(c) && DigitValue(c) == d
  {
    ('0' as int + d) as char
  }

  /** Python's `str()` of a non-negative integer: its decimal digits without leading zeros. */
  function Decimal(n: nat): (ds: string)
    ensures |ds| > 0 && AllDigits(ds)
    ensures n > 0 ==> ds[0] != '0'
  {
    if n < 10 then [DigitChar(n)]
    else
      var ds := Decimal(n / 10) + [DigitChar(n % 10)];
      assert forall t :: 0 <= t < |ds| - 1 ==> ds[t] == Decimal(n / 10)[t];
      ds
  }

  /** `int(str(n)) == n`. */
  lemma {:induction false} IntOfDecimal(n: nat)
    ensures IntOfDigits(Decimal(n)) == n
  {
    if n >= 10 {
      var ds := Decimal(n);
      assert ds[..|ds| - 1] == Decimal(n / 10);
      IntOfDecimal(n / 10);
    }
  }

  /** `int()` ignores leading zeros: `int("0" + ds) == int(ds)`. */
  lemma {:induction false} IntOfLeadingZero(ds: string)
    requires AllDigits(ds)
    ensures AllDigits("0" + ds) && IntOfDigits("0" + ds) == IntOfDigits(ds)
    decreases |ds|
  {
    var zs := "0" + ds;
    assert forall t :: 1 <= t < |zs| ==> zs[t] == ds[t - 1];
    if ds != [] {
      var init := ds[..|ds| - 1];
      assert AllDigits(init);
      IntOfLeadingZero(init);
      assert zs[..|zs| - 1] == "0" + init;
    }
  }
}
