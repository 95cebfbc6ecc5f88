/**
 * Keyword matching (app/forwarder.py).
 *
 * Each keyword becomes the regular expression `\b<keyword>\b` with the
 * keyword escaped, so it matches literally, compiled with `IGNORECASE`
 * unless matching is case-sensitive. A `Pattern` is that compiled
 * expression: the literal and whether case is ignored. `\b` holds at a
 * position where exactly one of the characters on either side is a word
 * character (a position outside the text counts as a non-word character).
 */
module Forwarder {
  import opened Wrappers
  import opened Text

  datatype Pattern = Pattern(literal: string, ignoreCase: bool)

  /** `re.compile(rf"\b{re.escape(keyword)}\b", 0 if case_sensitive else re.IGNORECASE)`. */
  function PatternFor(keyword: string, caseSensitive: bool): (p: Pattern)
    ensures p.literal == keyword && p.ignoreCase == !caseSensitive
  {
    Pattern(keyword, !caseSensitive)
  }

  predicate WordBefore(text: string, i: nat)
    requires i <= |text|
  {
    i > 0 && IsWordChar(text[i - 1])
  }

  predicate WordAt(text: string, i: nat)
    requires i <= |text|
  {
    i < |text| && IsWordChar(text[i])
  }

  /** `\b` at position `i`. */
  predicate Boundary(text: string, i: nat)
    requires i <= |text|
  {
    WordBefore(text, i) != WordAt(text, i)
  }

  /** The escaped literal against a piece of text, ignoring case when asked. */
  predicate SameText(piece: string, literal: string, ignoreCase: bool) {
    if ignoreCase then Lower(piece) == Lower(literal) else piece == literal
  }

  /** The pattern matches the text starting at position `i`. */
  predicate MatchesAt(text: string, p: Pattern, i: nat) {
    && i + |p.literal| <= |text|
    && SameText(text[i..i + |p.literal|], p.literal, p.ignoreCase)
    && Boundary(text, i)
    && Boundary(text, i + |p.literal|)
  }

  /** `pattern.search(text)` from position `from` on: the leftmost match, if any. */
  function FirstMatch(text: string, p: Pattern, from: nat): (r: Option<nat>)
    ensures r.Some? ==> from <= r.value && MatchesAt(text, p, r.value)
    ensures r.Some? ==> forall j :: from <= j < r.value ==> !MatchesAt(text, p, j)
    ensures r.None? ==> forall j :: from <= j ==> !MatchesAt(text, p, j)
    decreases |text| + 1 - from
  {
    if from > |text| then None
    else if MatchesAt(text, p, from) then Some(from)
    else FirstMatch(text, p, from + 1)
  }

  /** Whether `pattern.search(text)` finds a match. */
  predicate Found(text: string, p: Pattern) {
    FirstMatch(text, p, 0).Some?
  }

  /** A search succeeds exactly when the pattern matches somewhere. */
  lemma FoundIff(text: string, p: Pattern)
    ensures Found(text, p) <==> exists i :: MatchesAt(text, p, i)
  {
    if exists i :: MatchesAt(text, p, i) {
      var i :| MatchesAt(text, p, i);
      assert FirstMatch(text, p, 0).Some?;
    }
  }

  /** A keyword standing alone between non-word characters is found. */
  lemma WholeWordFound(a: string, keyword: string, b: string, ignoreCase: bool)
    requires |keyword| > 0 && IsWordChar(keyword[0]) && IsWordChar(keyword[|keyword| - 1])
    requires a == [] || !IsWordChar(a[|a| - 1])
    requires b == [] || !IsWordChar(b[0])
    ensures Found(a + keyword + b, Pattern(keyword, ignoreCase))
  {
    var text := a + keyword + b;
    var p := Pattern(keyword, ignoreCase);
    assert text[|a|..|a| + |keyword|] == keyword;
    assert text[|a|] == keyword[0];
    assert text[|a| + |keyword| - 1] == keyword[|keyword| - 1];
    if b != [] {
      assert text[|a| + |keyword|] == b[0];
    }
    if a != [] {
      assert text[|a| - 1] == a[|a| - 1];
    }
    assert MatchesAt(text, p, |a|);
    FoundIff(text, p);
  }

  /** A keyword that starts with a word character does not match inside a longer word. */
  lemma NoMatchInsideWord(text: string, p: Pattern, i: nat)
    requires |p.literal| > 0 && IsWordChar(p.literal[0])
    requires 0 < i < |text| && IsWordChar(text[i - 1])
    ensures !MatchesAt(text, p, i)
  {
  }

  /**
   * A keyword that ends with a non-word character (`c++`, say) needs a word
   * character right after it: it is never found at the end of the text or
   * before a space, because `\b` after a non-word character needs a word
   * character next.
   */
  lemma SymbolEndNeedsWordAfter(text: string, p: Pattern, i: nat)
    requires |p.literal| > 0 && !IsWordChar(p.literal[|p.literal| - 1])
    requires MatchesAt(text, p, i)
    ensures i + |p.literal| < |text| && IsWordChar(text[i + |p.literal|])
  {
    var n := |p.literal|;
    assert text[i + n - 1] == text[i..i + n][n - 1];
    if p.ignoreCase {
      assert Lower(text[i..i + n])[n - 1] == Lower(p.literal)[n - 1];
      LowerCharIdempotent(text[i + n - 1]);
      LowerCharIdempotent(p.literal[n - 1]);
    }
  }

  lemma LowerCharIdempotent(c: char)
    ensures LowerChar(LowerChar(c)) == LowerChar(c)
    ensures IsWordChar(LowerChar(c)) == IsWordChar(c)
  {
  }

  /** A case-sensitive match is also a case-insensitive one. */
  lemma SensitiveImpliesInsensitive(text: string, keyword: string, i: nat)
    requires MatchesAt(text, Pattern(keyword, false), i)
    ensures MatchesAt(text, Pattern(keyword, true), i)
  {
  }

  /** Ignoring case, where a keyword matches depends only on the lower-cased text. */
  lemma InsensitiveSeesLowerCase(text: string, keyword: string, i: nat)
    ensures MatchesAt(text, Pattern(keyword, true), i) <==> MatchesAt(Lower(text), Pattern(keyword, true), i)
  {
    var lt := Lower(text);
    forall k | 0 <= k < |text|
      ensures IsWordChar(lt[k]) == IsWordChar(text[k])
    {
      LowerCharIdempotent(text[k]);
    }
    if i + |keyword| <= |text| {
      var piece := text[i..i + |keyword|];
      var lpiece := lt[i..i + |keyword|];
      forall k | 0 <= k < |keyword|
        ensures Lower(lpiece)[k] == Lower(piece)[k]
      {
        assert lpiece[k] == lt[i + k] == LowerChar(text[i + k]);
        assert piece[k] == text[i + k];
        LowerCharIdempotent(text[i + k]);
      }
      assert Lower(lpiece) == Lower(piece);
      if i > 0 {
        assert WordBefore(lt, i) == WordBefore(text, i);
      }
      if i + |keyword| > 0 {
        assert WordBefore(lt, i + |keyword|) == WordBefore(text, i + |keyword|);
      }
      if i < |text| {
        assert WordAt(lt, i) == WordAt(text, i);
      }
      if i + |keyword| < |text| {
        assert WordAt(lt, i + |keyword|) == WordAt(text, i + |keyword|);
      }
    }
  }

  // ---------------------------------------------------------------------
  // The keywords a text matches
  // ---------------------------------------------------------------------

  /** The keywords, in order, whose paired pattern is found in the text. */
  function Selected(text: string, keywords: seq<string>, patterns: seq<Pattern>): (r: seq<string>)
    requires |keywords| == |patterns|
    ensures |r| <= |keywords|
    decreases |patterns|
  {
    if patterns == [] then []
    else
      var n := |patterns| - 1;
      Selected(text, keywords[..n], patterns[..n]) + (if Found(text, patterns[n]) then [keywords[n]] else [])
  }

  /** The positions, in increasing order, of the patterns found in the text. */
  function FoundIndices(text: string, patterns: seq<Pattern>): (idx: seq<nat>)
    ensures forall j :: 0 <= j < |idx| ==> idx[j] < |patterns| && Found(text, patterns[idx[j]])
    ensures forall j, k :: 0 <= j < k < |idx| ==> idx[j] < idx[k]
    decreases |patterns|
  {
    if patterns == [] then []
    else
      var n := |patterns| - 1;
      var before := FoundIndices(text, patterns[..n]);
      assert forall j :: 0 <= j < |before| ==> patterns[..n][before[j]] == patterns[before[j]];
      if Found(text, patterns[n]) then before + [n] else before
  }

  /** No pattern that is found is missing from `FoundIndices`. */
  lemma {:induction false} FoundIndicesComplete(text: string, patterns: seq<Pattern>, i: nat)
    requires i < |patterns| && Found(text, patterns[i])
    ensures i in FoundIndices(text, patterns)
    decreases |patterns|
  {
    var n := |patterns| - 1;
    if i < n {
      assert patterns[..n][i] == patterns[i];
      FoundIndicesComplete(text, patterns[..n], i);
    }
  }

  /**
   * The matched keywords are exactly the keywords at the positions whose
   * pattern is found, in keyword order: a subsequence of the keywords that
   * misses none that matches.
   */
  lemma {:induction false} SelectedAtFoundIndices(text: string, keywords: seq<string>, patterns: seq<Pattern>)
    requires |keywords| == |patterns|
    ensures |Selected(text, keywords, patterns)| == |FoundIndices(text, patterns)|
    ensures forall j :: 0 <= j < |FoundIndices(text, patterns)| ==>
              Selected(text, keywords, patterns)[j] == keywords[FoundIndices(text, patterns)[j]]
    decreases |patterns|
  {
    if patterns != [] {
      var n := |patterns| - 1;
      SelectedAtFoundIndices(text, keywords[..n], patterns[..n]);
    }
  }

  /** Some keyword is matched exactly when some pattern is found. */
  lemma {:induction false} SelectedNonEmptyIff(text: string, keywords: seq<string>, patterns: seq<Pattern>)
    requires |keywords| == |patterns|
    ensures Selected(text, keywords, patterns) != [] <==> exists i :: 0 <= i < |patterns| && Found(text, patterns[i])
  {
    SelectedAtFoundIndices(text, keywords, patterns);
    var idx := FoundIndices(text, patterns);
    if idx != [] {
      assert Found(text, patterns[idx[0]]);
    }
    if exists i :: 0 <= i < |patterns| && Found(text, patterns[i]) {
      var i :| 0 <= i < |patterns| && Found(text, patterns[i]);
      FoundIndicesComplete(text, patterns, i);
    }
  }

  /** A keyword is in the matched list exactly when a keyword equal to it has its pattern found. */
  lemma SelectedMembership(text: string, keywords: seq<string>, patterns: seq<Pattern>, k: string)
    requires |keywords| == |patterns|
    ensures k in Selected(text, keywords, patterns) <==>
            exists i :: 0 <= i < |keywords| && keywords[i] == k && Found(text, patterns[i])
  {
    SelectedAtFoundIndices(text, keywords, patterns);
    var r := Selected(text, keywords, patterns);
    var idx := FoundIndices(text, patterns);
    if k in r {
      var j :| 0 <= j < |r| && r[j] == k;
      assert keywords[idx[j]] == k && Found(text, patterns[idx[j]]);
    }
    if exists i :: 0 <= i < |keywords| && keywords[i] == k && Found(text, patterns[i]) {
      var i :| 0 <= i < |keywords| && keywords[i] == k && Found(text, patterns[i]);
      FoundIndicesComplete(text, patterns, i);
      var j :| 0 <= j < |idx| && idx[j] == i;
      assert r[j] == k;
    }
  }

  /** Whether any pattern in the list is found; stops at the first that is. */
  function AnyFound(text: string, patterns: seq<Pattern>): (r: bool)
    ensures r <==> exists i :: 0 <= i < |patterns| && Found(text, patterns[i])
    decreases |patterns|
  {
    if patterns == [] then false
    else if Found(text, patterns[0]) then true
    else
      var rest := AnyFound(text, patterns[1..]);
      assert forall i :: 1 <= i < |patterns| ==> patterns[1..][i - 1] == patterns[i];
      rest
  }

  class KeywordForwarder {
    const keywords: seq<string>
    const caseSensitive: bool
    const forwardingEnabled: bool
    var patterns: seq<Pattern>

    /** One pattern per keyword, built from it, in keyword order. */
    ghost predicate Valid()
      reads this
    {
      && |patterns| == |keywords|
      && forall i :: 0 <= i < |keywords| ==> patterns[i] == PatternFor(keywords[i], caseSensitive)
    }

    /** `__init__`: stores the settings and compiles one pattern per keyword. */
    constructor(keywords: seq<string>, caseSensitive: bool, forwardingEnabled: bool)
      ensures this.keywords == keywords && this.caseSensitive == caseSensitive
      ensures this.forwardingEnabled == forwardingEnabled
      ensures Valid()
    {
      this.keywords := keywords;
      this.caseSensitive := caseSensitive;
      this.forwardingEnabled := forwardingEnabled;
      patterns := [];
      new;
      var i := 0;
      while i < |keywords|
        invariant 0 <= i <= |keywords|
        invariant |patterns| == i
        invariant forall k :: 0 <= k < i ==> patterns[k] == PatternFor(keywords[k], caseSensitive)
      {
        patterns := patterns + [PatternFor(keywords[i], caseSensitive)];
        i := i + 1;
      }
    }

    /** `contains_keywords`: false for empty text, otherwise whether any pattern is found. */
    function ContainsKeywords(text: string): (r: bool)
      reads this
      ensures text == "" ==> !r
      ensures r <==> text != "" && exists i :: 0 <= i < |patterns| && Found(text, patterns[i])
    {
      text != "" && AnyFound(text, patterns)
    }

    /**
     * `get_matched_keywords`: empty for empty text, otherwise the keywords
     * whose pattern is found, in keyword order; non-empty exactly when
     * `contains_keywords` holds.
     */
    method GetMatchedKeywords(text: string) returns (matched: seq<string>)
      requires Valid()
      ensures text == "" ==> matched == []
      ensures text != "" ==> matched == Selected(text, keywords, patterns)
      ensures matched != [] <==> ContainsKeywords(text)
    {
      if text == "" {
        return [];
      }
      matched := [];
      var i := 0;
      while i < |patterns|
        invariant 0 <= i <= |patterns|
        invariant matched == Selected(text, keywords[..i], patterns[..i])
      {
        assert keywords[..i + 1][..i] == keywords[..i];
        assert patterns[..i + 1][..i] == patterns[..i];
        if FirstMatch(text, patterns[i], 0).Some? {
          matched := matched + [keywords[i]];
        }
        i := i + 1;
      }
      assert keywords[..i] == keywords && patterns[..i] == patterns;
      SelectedNonEmptyIff(text, keywords, patterns);
    }
  }

  /** `contains_keywords` agrees with whether `get_matched_keywords` returns anything. */
  lemma ContainsIffMatched(f: KeywordForwarder, text: string)
    requires f.Valid()
    ensures f.ContainsKeywords(text) <==> text != "" && Selected(text, f.keywords, f.patterns) != []
  {
    SelectedNonEmptyIff(text, f.keywords, f.patterns);
  }
}
