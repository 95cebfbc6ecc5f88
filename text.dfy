/**
 * The pieces of Python's string handling that the relay relies on:
 * the whitespace set of `str.isspace` (also what `\s` matches in a `str`
 * pattern), `str.strip`, ASCII lower-casing, `str.split` on one separator,
 * `str.startswith`, substring search, `str(int)` and `int(str)`.
 */
module Text {
  import opened Wrappers

  // ---------------------------------------------------------------------
  // Character classes
  // ---------------------------------------------------------------------

  /** The characters for which Python's `str.isspace()` holds. */
  predicate IsSpace(c: char) {
    || ('\t' <= c <= '\r')
    || ('\U{1C}' <= c <= ' ')
    || c == '\U{85}' || c == '\U{A0}' || c == '\U{1680}'
    || ('\U{2000}' <= c <= '\U{200A}')
    || c == '\U{2028}' || c == '\U{2029}' || c == '\U{202F}' || c == '\U{205F}'
    || c == '\U{3000}'
  }

  predicate IsDigit(c: char) {
    '0' <= c <= '9'
  }

  predicate IsAsciiLetter(c: char) {
    ('a' <= c <= 'z') || ('A' <= c <= 'Z')
  }

  /** The characters `\w` matches, restricted to ASCII. */
  predicate IsWordChar(c: char) {
    IsAsciiLetter(c) || IsDigit(c) || c == '_'
  }

  predicate AllDigits(s: string) {
    forall i :: 0 <= i < |s| ==> IsDigit(s[i])
  }

  predicate NoSpace(s: string) {
    forall i :: 0 <= i < |s| ==> !IsSpace(s[i])
  }

  function DigitValue(c: char): (d: nat)
    requires IsDigit(c)
    ensures d < 10
  {
    (c as int) - ('0' as int)
  }

  function DigitChar(d: nat): (c: char)
    requires d < 10
    ensures IsDigit(c) && DigitValue(c) == d
  {
    (('0' as int) + d) as char
  }

  /** `str.startswith`. */
  predicate StartsWith(s: string, prefix: string) {
    |prefix| <= |s| && s[..|prefix|] == prefix
  }

  /** `pat` occurs in `s` starting at index `i`. */
  predicate OccursAt(s: string, pat: string, i: nat) {
    i + |pat| <= |s| && s[i..i + |pat|] == pat
  }

  /**
   * The end of the run of characters of one class that starts at `from`:
   * what a greedy `[...]*` consumes there.
   */
  function RunEnd(s: string, from: nat, inClass: char -> bool): (e: nat)
    requires from <= |s|
    ensures from <= e <= |s|
    ensures forall k :: from <= k < e ==> inClass(s[k])
    ensures e == |s| || !inClass(s[e])
    decreases |s| - from
  {
    if from < |s| && inClass(s[from]) then RunEnd(s, from + 1, inClass) else from
  }

  /** A run is determined by where it starts. */
  lemma RunEndIs(s: string, from: nat, inClass: char -> bool, e: nat)
    requires from <= e <= |s|
    requires forall k :: from <= k < e ==> inClass(s[k])
    requires e == |s| || !inClass(s[e])
    ensures RunEnd(s, from, inClass) == e
  {
  }

  /** Where the text from `p` on is `piece + rest`, a run of `piece`'s class stops where `rest` begins. */
  lemma RunOfPiece(text: string, p: nat, piece: string, rest: string, inClass: char -> bool)
    requires p <= |text| && text[p..] == piece + rest
    requires forall k :: 0 <= k < |piece| ==> inClass(piece[k])
    requires rest == [] || !inClass(rest[0])
    ensures p + |piece| <= |text|
    ensures RunEnd(text, p, inClass) == p + |piece|
    ensures text[p..p + |piece|] == piece && text[p + |piece|..] == rest
    ensures rest != [] ==> text[p + |piece|] == rest[0]
  {
    forall k | p <= k < p + |piece|
      ensures inClass(text[k])
    {
      assert text[k] == text[p..][k - p] == piece[k - p];
    }
    if rest != [] {
      assert text[p + |piece|] == text[p..][|piece|] == rest[0];
    }
    RunEndIs(text, p, inClass, p + |piece|);
    assert text[p..p + |piece|] == text[p..][..|piece|];
    assert text[p + |piece|..] == text[p..][|piece|..];
  }

  /** Where the text from `p` on is `a + b`, `a` occurs at `p` and `b` follows it. */
  lemma SplitAt(text: string, p: nat, a: string, b: string)
    requires p <= |text| && text[p..] == a + b
    ensures OccursAt(text, a, p) && text[p + |a|..] == b
  {
    assert text[p..p + |a|] == text[p..][..|a|];
    assert text[p + |a|..] == text[p..][|a|..];
  }

  // ---------------------------------------------------------------------
  // str.strip() and str.lower()
  // ---------------------------------------------------------------------

  /** The number of leading whitespace characters of `s`. */
  function LeadingSpaces(s: string): (n: nat)
    ensures n <= |s|
    ensures forall k :: 0 <= k < n ==> IsSpace(s[k])
    ensures n == |s| || !IsSpace(s[n])
  {
    if s != [] && IsSpace(s[0]) then 1 + LeadingSpaces(s[1..]) else 0
  }

  /** The index from which `s` holds only whitespace. */
  function TrailingStart(s: string): (n: nat)
    ensures n <= |s|
    ensures forall k :: n <= k < |s| ==> IsSpace(s[k])
    ensures n == 0 || !IsSpace(s[n - 1])
  {
    if s != [] && IsSpace(s[|s| - 1]) then TrailingStart(s[..|s| - 1]) else |s|
  }

  /**
   * `str.strip()`: `s` without its leading and trailing whitespace. The
   * result is a slice of `s`, everything dropped around it is whitespace and
   * it neither starts nor ends with whitespace.
   */
  function Strip(s: string): (r: string)
    ensures |r| <= |s|
    ensures r == [] || (!IsSpace(r[0]) && !IsSpace(r[|r| - 1]))
    ensures LeadingSpaces(s) + |r| <= |s|
    ensures r == s[LeadingSpaces(s)..LeadingSpaces(s) + |r|]
    ensures forall k :: LeadingSpaces(s) + |r| <= k < |s| ==> IsSpace(s[k])
  {
    var i := LeadingSpaces(s);
    if i == |s| then [] else s[i..TrailingStart(s)]
  }

  lemma StripNoEdgeSpace(s: string)
    requires s == [] || (!IsSpace(s[0]) && !IsSpace(s[|s| - 1]))
    ensures Strip(s) == s
  {
    if s != [] {
      assert LeadingSpaces(s) == 0;
      assert TrailingStart(s) == |s|;
    }
  }

  predicate AllSpace(s: string) {
    forall k :: 0 <= k < |s| ==> IsSpace(s[k])
  }

  /** Neither the first nor the last character is whitespace. */
  predicate EdgeClean(s: string) {
    s == [] || (!IsSpace(s[0]) && !IsSpace(s[|s| - 1]))
  }

  /** Stripping whitespace padding off a value that has none of its own at its edges gives the value. */
  lemma StripPadded(a: string, w: string, b: string)
    requires AllSpace(a) && AllSpace(b) && EdgeClean(w)
    ensures Strip(a + w + b) == w
  {
    var s := a + w + b;
    var n := LeadingSpaces(s);
    if w == [] {
      assert s == a + b;
    } else {
      assert s[|a|] == w[0];
      assert n == |a|;
      var t := TrailingStart(s);
      assert s[|a| + |w| - 1] == w[|w| - 1];
      assert t == |a| + |w|;
      assert s[n..t] == w;
    }
  }

  /** Lower-cases the ASCII letters; every other character is kept. */
  function LowerChar(c: char): (r: char)
    ensures IsAsciiLetter(c) ==> 'a' <= r <= 'z'
    ensures !('A' <= c <= 'Z') ==> r == c
  {
    if 'A' <= c <= 'Z' then ((c as int) + 32) as char else c
  }

  /** `str.lower()` on ASCII letters. */
  function Lower(s: string): (r: string)
    ensures |r| == |s|
    ensures forall i :: 0 <= i < |s| ==> r[i] == LowerChar(s[i])
  {
    seq(|s|, i requires 0 <= i < |s| => LowerChar(s[i]))
  }

  // ---------------------------------------------------------------------
  // str.split(sep) and its inverse
  // ---------------------------------------------------------------------

  /**
   * `s.split(sep)` for a one-character separator: the pieces between the
   * occurrences of `sep`, empty ones included; there is always one piece
   * more than there are separators.
   */
  function Split(s: string, sep: char): (parts: seq<string>)
    ensures |parts| >= 1
    ensures forall k :: 0 <= k < |parts| ==> sep !in parts[k]
    decreases |s|
  {
    if s == [] then [""]
    else
      var rest := Split(s[1..], sep);
      if s[0] == sep then [""] + rest
      else [[s[0]] + rest[0]] + rest[1..]
  }

  /** `sep.join(parts)`. */
  function Join(parts: seq<string>, sep: char): string
    requires |parts| >= 1
    decreases |parts|
  {
    if |parts| == 1 then parts[0] else parts[0] + [sep] + Join(parts[1..], sep)
  }

  /** Joining the pieces of a split with the same separator gives the text back. */
  lemma {:induction false} SplitJoin(s: string, sep: char)
    ensures Join(Split(s, sep), sep) == s
    decreases |s|
  {
    if s != [] {
      var rest := Split(s[1..], sep);
      SplitJoin(s[1..], sep);
      if s[0] == sep {
        assert Split(s, sep) == [""] + rest;
        assert ([""] + rest)[1..] == rest;
      } else {
        var parts := [[s[0]] + rest[0]] + rest[1..];
        assert Split(s, sep) == parts;
        if |rest| == 1 {
          assert parts == [[s[0]] + rest[0]];
        } else {
          assert parts[1..] == rest[1..];
          assert Join(rest, sep) == rest[0] + [sep] + Join(rest[1..], sep);
        }
      }
    }
  }

  /** A piece without the separator splits to itself. */
  lemma {:induction false} SplitNoSep(p: string, sep: char)
    requires sep !in p
    ensures Split(p, sep) == [p]
    decreases |p|
  {
    if p != [] {
      SplitNoSep(p[1..], sep);
      assert [p[0]] + p[1..] == p;
    }
  }

  /** A separator after a piece without one splits that piece off. */
  lemma {:induction false} SplitAtSep(p: string, sep: char, t: string)
    requires sep !in p
    ensures Split(p + [sep] + t, sep) == [p] + Split(t, sep)
    decreases |p|
  {
    if p == [] {
      assert p + [sep] + t == [sep] + t;
      assert ([sep] + t)[1..] == t;
    } else {
      var s := p + [sep] + t;
      assert s[1..] == p[1..] + [sep] + t;
      SplitAtSep(p[1..], sep, t);
      assert [p[0]] + p[1..] == p;
    }
  }

  /** Splitting a join of separator-free pieces gives the pieces back. */
  lemma {:induction false} JoinSplit(parts: seq<string>, sep: char)
    requires |parts| >= 1
    requires forall k :: 0 <= k < |parts| ==> sep !in parts[k]
    ensures Split(Join(parts, sep), sep) == parts
    decreases |parts|
  {
    if |parts| == 1 {
      SplitNoSep(parts[0], sep);
    } else {
      JoinSplit(parts[1..], sep);
      SplitAtSep(parts[0], sep, Join(parts[1..], sep));
      assert [parts[0]] + parts[1..] == parts;
    }
  }

  // ---------------------------------------------------------------------
  // Substring search
  // ---------------------------------------------------------------------

  /** The first index at or after `from` where `pat` occurs in `s`. */
  function FindFrom(s: string, pat: string, from: nat): (r: Option<nat>)
    ensures r.Some? ==> from <= r.value && OccursAt(s, pat, r.value)
    ensures r.Some? ==> forall j :: from <= j < r.value ==> !OccursAt(s, pat, j)
    ensures r.None? ==> forall j :: from <= j ==> !OccursAt(s, pat, j)
    decreases |s| - from
  {
    if from + |pat| > |s| then None
    else if OccursAt(s, pat, from) then Some(from)
    else FindFrom(s, pat, from + 1)
  }

  /** `s.find(pat)`, as an option: the first occurrence of `pat` in `s`. */
  function Find(s: string, pat: string): (r: Option<nat>)
    ensures r.Some? ==> OccursAt(s, pat, r.value)
    ensures r.Some? ==> forall j :: 0 <= j < r.value ==> !OccursAt(s, pat, j)
    ensures r.None? <==> forall j :: 0 <= j ==> !OccursAt(s, pat, j)
  {
    FindFrom(s, pat, 0)
  }

  // ---------------------------------------------------------------------
  // str(int) and int(str)
  // ---------------------------------------------------------------------

  /** The value of a string of decimal digits, most significant first. */
  function DigitsValue(s: string): nat
    requires AllDigits(s)
  {
    if s == [] then 0 else DigitsValue(s[..|s| - 1]) * 10 + DigitValue(s[|s| - 1])
  }

  /** Appending a digit multiplies the value by ten and adds the digit. */
  lemma DigitsValueSnoc(s: string, c: char)
    requires AllDigits(s) && IsDigit(c)
    ensures AllDigits(s + [c]) && DigitsValue(s + [c]) == DigitsValue(s) * 10 + DigitValue(c)
  {
    assert (s + [c])[..|s|] == s;
  }

  /** `str(n)` for `n >= 0`: decimal digits without leading zeros. */
  function DecimalString(n: nat): (s: string)
    ensures |s| > 0 && AllDigits(s)
    ensures DigitsValue(s) == n
    ensures s[0] == '0' ==> n == 0 && |s| == 1
  {
    if n < 10 then [DigitChar(n)]
    else
      var front := DecimalString(n / 10);
      var s := front + [DigitChar(n % 10)];
      assert s[..|s| - 1] == front;
      s
  }

  /** `str(i)`: a minus sign for negative numbers, then the decimal digits. */
  function IntToString(i: int): (s: string)
    ensures |s| > 0 && !IsSpace(s[0]) && !IsSpace(s[|s| - 1])
    ensures i >= 0 ==> IsDigit(s[0])
    ensures i < 0 ==> s[0] == '-'
    ensures ':' !in s
  {
    if i < 0 then "-" + DecimalString(-i) else DecimalString(i)
  }

  /**
   * The digit part `int()` accepts in base 10: digits, where an underscore
   * may stand between two digits.
   */
  predicate IsDigitGroups(s: string) {
    && |s| > 0
    && IsDigit(s[0])
    && forall i :: 0 <= i < |s| ==> GroupCharOk(s, i)
  }

  /** A digit, or an underscore that a digit follows. */
  predicate GroupCharOk(s: string, i: nat)
    requires i < |s|
  {
    IsDigit(s[i]) || (s[i] == '_' && i + 1 < |s| && IsDigit(s[i + 1]))
  }

  function DropUnderscores(s: string): (r: string)
    ensures (forall i :: 0 <= i < |s| ==> (IsDigit(s[i]) || s[i] == '_')) ==> AllDigits(r)
    ensures AllDigits(s) ==> r == s
  {
    if s == [] then []
    else if s[0] == '_' then DropUnderscores(s[1..])
    else [s[0]] + DropUnderscores(s[1..])
  }

  function DigitGroupsValue(s: string): Option<int> {
    if IsDigitGroups(s) then
      assert forall i :: 0 <= i < |s| ==> (IsDigit(s[i]) || s[i] == '_') by {
        forall i | 0 <= i < |s| ensures IsDigit(s[i]) || s[i] == '_' {
          assert GroupCharOk(s, i);
        }
      }
      Some(DigitsValue(DropUnderscores(s)))
    else None
  }

  /**
   * Python's `int(s)` in base 10: surrounding whitespace is ignored, one
   * optional sign, then digit groups; `None` where `int` raises
   * `ValueError`.
   */
  function ParseInt(s: string): (r: Option<int>)
    ensures r.Some? ==> Strip(s) != []
  {
    var t := Strip(s);
    if t == [] then None
    else if t[0] == '-' then
      match DigitGroupsValue(t[1..])
      case Some(v) => Some(-v)
      case None => None
    else if t[0] == '+' then DigitGroupsValue(t[1..])
    else DigitGroupsValue(t)
  }

  lemma AllDigitsConcat(a: string, b: string)
    requires AllDigits(a) && AllDigits(b)
    ensures AllDigits(a + b)
  {
    forall i | 0 <= i < |a + b| ensures IsDigit((a + b)[i]) {
      if i >= |a| {
        assert (a + b)[i] == b[i - |a|];
      }
    }
  }

  /** A minus sign followed by plain digits reads as the negated digits. */
  lemma ParseNegativeDigits(lit: string, body: string)
    requires |body| > 0 && AllDigits(body) && lit == "-" + body
    ensures ParseInt(lit) == Some(-(DigitsValue(body) as int))
  {
    assert lit[|lit| - 1] == body[|body| - 1];
    StripNoEdgeSpace(lit);
    assert lit[1..] == body;
    assert IsDigitGroups(body) by {
      forall i | 0 <= i < |body| ensures GroupCharOk(body, i) {
      }
    }
  }

  lemma DecimalStringIsDigitGroups(n: nat)
    ensures IsDigitGroups(DecimalString(n))
    ensures DigitGroupsValue(DecimalString(n)) == Some(n)
  {
  }

  /** `int(str(i)) == i`. */
  lemma ParseIntToString(i: int)
    ensures ParseInt(IntToString(i)) == Some(i)
  {
    var s := IntToString(i);
    StripNoEdgeSpace(s);
    DecimalStringIsDigitGroups(if i < 0 then -i else i);
    if i < 0 {
      assert s[1..] == DecimalString(-i);
    }
  }

  /** `str` is injective on integers. */
  lemma IntToStringInjective(i: int, j: int)
    requires IntToString(i) == IntToString(j)
    ensures i == j
  {
    ParseIntToString(i);
    ParseIntToString(j);
  }
}
