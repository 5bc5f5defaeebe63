/**
 * The four per-row extraction rules of the cleaning pass
 * (EDA/eda_mobile_data.py, lines 15-40).
 *
 * `Series.str.extract` returns, per row, the text of the first match of a
 * regular expression, found the way Python's `re.search` finds it: try each
 * start position from the left, and at the first one where the pattern
 * matches take the match the backtracking search reaches first. For the
 * three patterns used here that match is the longest one at that start (the
 * leading `\d+` can only stop at the end of its digit run, and the trailing
 * `\d+` or literal `GB` is taken greedily), so each pattern is given here as
 * a reference language `Matches` and the scanner `Search` is proved to
 * return its leftmost-longest match.
 */
module Extract {
  import opened Wrappers
  import opened Text

  /** The three regular expressions of the cleaning pass. */
  datatype Pattern =
    | PriceDigits    // (\d+)          line 18
    | RatingNumber   // (\d+\.\d+)     line 27
    | RamSize        // (\d+\s?GB)     line 39

  /** Reference semantics: s[i..k] is a word of the language of p. */
  ghost predicate Matches(p: Pattern, s: string, i: nat, k: nat) {
    i <= k <= |s| &&
    match p
    case PriceDigits =>
      i < k && Span(s, i, k, IsDigit)
    case RatingNumber =>
      exists j :: i < j && j + 1 < k && Span(s, i, j, IsDigit) && s[j] == '.' && Span(s, j + 1, k, IsDigit)
    case RamSize =>
      exists j :: i < j <= k && Span(s, i, j, IsDigit) &&
        ((k == j + 2 && GBAt(s, j)) || (k == j + 3 && IsSpace(s[j]) && GBAt(s, j + 1)))
  }

  /** The literal, case-sensitive `GB` stands at position j of s. */
  predicate GBAt(s: string, j: nat) {
    j + 2 <= |s| && s[j] == 'G' && s[j + 1] == 'B'
  }

  /** s[i..k] is the match `re.search` reports: no match starts earlier, none at i is longer. */
  ghost predicate LeftmostLongest(p: Pattern, s: string, i: nat, k: nat) {
    && Matches(p, s, i, k)
    && (forall i': nat, k': nat :: i' < i ==> !Matches(p, s, i', k'))
    && (forall k': nat :: Matches(p, s, i, k') ==> k' <= k)
  }

  /** The end of the match of p that the backtracking search finds at start i, if any. */
  function MatchAt(p: Pattern, s: string, i: nat): (e: Option<nat>)
    requires i <= |s|
    ensures e.Some? ==> i < e.value <= |s|
  {
    if i == |s| || !IsDigit(s[i]) then None
    else
      var j := RunEnd(s, i, IsDigit);
      match p
      case PriceDigits => Some(j)
      case RatingNumber =>
        if j + 1 < |s| && s[j] == '.' && IsDigit(s[j + 1]) then Some(RunEnd(s, j + 1, IsDigit)) else None
      case RamSize =>
        if j < |s| && IsSpace(s[j]) && GBAt(s, j + 1) then Some(j + 3)
        else if GBAt(s, j) then Some(j + 2)
        else None
  }

  /** MatchAt finds a match at i exactly when there is one, and the longest one. */
  lemma MatchAtIsLongest(p: Pattern, s: string, i: nat)
    requires i <= |s|
    ensures MatchAt(p, s, i).Some? ==> Matches(p, s, i, MatchAt(p, s, i).value)
    ensures forall k: nat :: Matches(p, s, i, k) ==> MatchAt(p, s, i).Some? && k <= MatchAt(p, s, i).value
  {
    match p
    case PriceDigits => DigitsAtIsLongest(s, i);
    case RatingNumber => RatingAtIsLongest(s, i);
    case RamSize => RamAtIsLongest(s, i);
  }

  lemma DigitsAtIsLongest(s: string, i: nat)
    requires i <= |s|
    ensures MatchAt(PriceDigits, s, i).Some? ==> Matches(PriceDigits, s, i, MatchAt(PriceDigits, s, i).value)
    ensures forall k: nat :: Matches(PriceDigits, s, i, k) ==>
      MatchAt(PriceDigits, s, i).Some? && k <= MatchAt(PriceDigits, s, i).value
  {
    forall k: nat | Matches(PriceDigits, s, i, k)
      ensures MatchAt(PriceDigits, s, i).Some? && k <= MatchAt(PriceDigits, s, i).value
    {
      assert IsDigit(s[i]);
      RunEndUnique(s, i, k, IsDigit);
    }
  }

  lemma RatingAtIsLongest(s: string, i: nat)
    requires i <= |s|
    ensures MatchAt(RatingNumber, s, i).Some? ==> Matches(RatingNumber, s, i, MatchAt(RatingNumber, s, i).value)
    ensures forall k: nat :: Matches(RatingNumber, s, i, k) ==>
      MatchAt(RatingNumber, s, i).Some? && k <= MatchAt(RatingNumber, s, i).value
  {
    if MatchAt(RatingNumber, s, i).Some? {
      var j := RunEnd(s, i, IsDigit);
      var e := RunEnd(s, j + 1, IsDigit);
      assert Span(s, i, j, IsDigit) && s[j] == '.' && Span(s, j + 1, e, IsDigit);
    }
    forall k: nat | Matches(RatingNumber, s, i, k)
      ensures MatchAt(RatingNumber, s, i).Some? && k <= MatchAt(RatingNumber, s, i).value
    {
      var j' :| i < j' && j' + 1 < k && Span(s, i, j', IsDigit) && s[j'] == '.' && Span(s, j' + 1, k, IsDigit);
      assert IsDigit(s[i]);
      RunEndUnique(s, i, j', IsDigit);
      assert IsDigit(s[j' + 1]);
      RunEndUnique(s, j' + 1, k, IsDigit);
    }
  }

  lemma RamAtIsLongest(s: string, i: nat)
    requires i <= |s|
    ensures MatchAt(RamSize, s, i).Some? ==> Matches(RamSize, s, i, MatchAt(RamSize, s, i).value)
    ensures forall k: nat :: Matches(RamSize, s, i, k) ==>
      MatchAt(RamSize, s, i).Some? && k <= MatchAt(RamSize, s, i).value
  {
    if MatchAt(RamSize, s, i).Some? {
      var j := RunEnd(s, i, IsDigit);
      assert Span(s, i, j, IsDigit);
    }
    forall k: nat | Matches(RamSize, s, i, k)
      ensures MatchAt(RamSize, s, i).Some? && k <= MatchAt(RamSize, s, i).value
    {
      var j' :| i < j' <= k && Span(s, i, j', IsDigit) &&
        ((k == j' + 2 && GBAt(s, j')) || (k == j' + 3 && IsSpace(s[j']) && GBAt(s, j' + 1)));
      assert IsDigit(s[i]);
      if k == j' + 2 && GBAt(s, j') {
        assert s[j'] == 'G';
      } else {
        assert IsSpace(s[j']);
      }
      assert !IsDigit(s[j']);
      RunEndUnique(s, i, j', IsDigit);
      assert j' == RunEnd(s, i, IsDigit);
    }
  }

  /** `re.search` from position `from`: the first start with a match, and that match's end. */
  function Search(p: Pattern, s: string, from: nat): (m: Option<(nat, nat)>)
    requires from <= |s|
    ensures m.Some? ==> from <= m.value.0 <= |s| && MatchAt(p, s, m.value.0) == Some(m.value.1)
    ensures m.Some? ==> forall i :: from <= i < m.value.0 ==> MatchAt(p, s, i).None?
    ensures m.None? ==> forall i :: from <= i <= |s| ==> MatchAt(p, s, i).None?
    decreases |s| - from
  {
    match MatchAt(p, s, from)
    case Some(e) => Some((from, e))
    case None => if from == |s| then None else Search(p, s, from + 1)
  }

  /** The scanner agrees with the reference: it reports the leftmost-longest match, or none when there is none. */
  lemma SearchIsLeftmostLongest(p: Pattern, s: string)
    ensures Search(p, s, 0).None? <==> forall i: nat, k: nat :: !Matches(p, s, i, k)
    ensures Search(p, s, 0).Some? ==> LeftmostLongest(p, s, Search(p, s, 0).value.0, Search(p, s, 0).value.1)
  {
    forall i: nat, k: nat | Matches(p, s, i, k)
      ensures MatchAt(p, s, i).Some? && k <= MatchAt(p, s, i).value
    {
      MatchAtIsLongest(p, s, i);
    }
    if Search(p, s, 0).Some? {
      MatchAtIsLongest(p, s, Search(p, s, 0).value.0);
    }
  }

  /** Once the first start with a match is known, Search reports it. */
  lemma {:induction false} SearchFinds(p: Pattern, s: string, from: nat, i: nat, k: nat)
    requires from <= i <= |s|
    requires forall i' :: from <= i' < i ==> MatchAt(p, s, i').None?
    requires MatchAt(p, s, i) == Some(k)
    ensures Search(p, s, from) == Some((i, k))
    decreases i - from
  {
    if from < i {
      SearchFinds(p, s, from + 1, i, k);
    }
  }

  /** `str.extract(pattern, expand=False)`: the text of the first match, or missing. */
  function ExtractFirst(p: Pattern, s: string): (r: Option<string>)
  {
    match Search(p, s, 0)
    case Some((i, k)) => Some(s[i..k])
    case None => None
  }

  /** The extracted text is missing exactly when the pattern matches nowhere, and is otherwise the leftmost-longest match. */
  lemma ExtractFirstSpec(p: Pattern, s: string)
    ensures ExtractFirst(p, s).None? <==> forall i: nat, k: nat :: !Matches(p, s, i, k)
    ensures ExtractFirst(p, s).Some? ==>
      exists i: nat, k: nat :: LeftmostLongest(p, s, i, k) && ExtractFirst(p, s).value == s[i..k]
  {
    SearchIsLeftmostLongest(p, s);
    if Search(p, s, 0).Some? {
      var (i, k) := Search(p, s, 0).value;
      assert LeftmostLongest(p, s, i, k) && ExtractFirst(p, s).value == s[i..k];
    }
  }
}
