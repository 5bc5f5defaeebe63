/**
 * The four per-row cleaning rules (EDA/eda_mobile_data.py, lines 15-40),
 * each a function from the cell's `astype(str)` text to a possibly missing
 * value, with the properties that pin them down.
 */
module Rules {
  import opened Wrappers
  import opened Text
  import opened Extract

  // ---------------------------------------------------------------- Price

  /**
   * Lines 15-20: delete every ',', extract the first `\d+`, and read it
   * as a number; no digit gives a missing price.
   */
  function CleanPrice(text: string): (price: Option<nat>)
    ensures price.None? <==> forall k :: 0 <= k < |text| ==> !IsDigit(text[k])
  {
    var t := RemoveAll(text, ',');
    SearchIsLeftmostLongest(PriceDigits, t);
    match Search(PriceDigits, t, 0)
    case Some((i, k)) =>
      assert Span(t, i, k, IsDigit);
      assert IsDigit(t[i]) && t[i] in text;
      var m :| 0 <= m < |text| && text[m] == t[i];
      Some(DigitsValue(t[i..k]))
    case None =>
      assert forall k :: 0 <= k < |t| ==> !IsDigit(t[k]) by {
        forall k | 0 <= k < |t| ensures !IsDigit(t[k]) {
          assert MatchAt(PriceDigits, t, k).None?;
        }
      }
      assert forall k :: 0 <= k < |text| ==> !IsDigit(text[k]) by {
        forall k | 0 <= k < |text| ensures !IsDigit(text[k]) {
          if text[k] != ',' {
            assert text[k] in t;
          }
        }
      }
      None
  }

  /** The price is the value of the leftmost-longest digit run once the commas are gone. */
  lemma PriceIsFirstDigitRun(text: string, i: nat, k: nat)
    requires LeftmostLongest(PriceDigits, RemoveAll(text, ','), i, k)
    ensures forall n :: i <= n < k ==> IsDigit(RemoveAll(text, ',')[n])
    ensures CleanPrice(text) == Some(DigitsValue(RemoveAll(text, ',')[i..k]))
  {
    SearchIsLeftmostLongest(PriceDigits, RemoveAll(text, ','));
  }

  /** A digit run after text without digits, and not followed by a digit, is the first match of `\d+`. */
  lemma FirstDigitRun(a: string, d: string, z: string)
    requires forall n :: 0 <= n < |a| ==> !IsDigit(a[n])
    requires d != [] && forall n :: 0 <= n < |d| ==> IsDigit(d[n])
    requires z == [] || !IsDigit(z[0])
    ensures Search(PriceDigits, a + d + z, 0) == Some((|a|, |a| + |d|))
    ensures (a + d + z)[|a|..|a| + |d|] == d
  {
    var t := a + d + z;
    forall n | 0 <= n < |a| ensures MatchAt(PriceDigits, t, n).None? {
      assert t[n] == a[n];
    }
    var e := |a| + |d|;
    assert Span(t, |a|, e, IsDigit) by {
      forall n | |a| <= n < e ensures IsDigit(t[n]) {
        assert t[n] == d[n - |a|];
      }
    }
    assert e == |t| || !IsDigit(t[e]) by {
      if e < |t| {
        assert t[e] == z[0];
      }
    }
    RunEndUnique(t, |a|, e, IsDigit);
    SearchFinds(PriceDigits, t, 0, |a|, e);
  }

  /** Deleting c keeps a first character other than c. */
  lemma RemoveAllKeepsHead(s: string, c: char)
    requires s != [] && s[0] != c
    ensures RemoveAll(s, c) != [] && RemoveAll(s, c)[0] == s[0]
  {
  }

  /**
   * A price written as a numeral with any digit grouping (`24,999`,
   * `1,00,000`), after text without digits and before text that does not
   * go on with a digit or a comma, is read as that numeral without its commas.
   */
  lemma PriceOfGroupedNumeral(prefix: string, g: string, suffix: string)
    requires forall n :: 0 <= n < |prefix| ==> !IsDigit(prefix[n])
    requires g != [] && IsDigit(g[0])
    requires forall n :: 0 <= n < |g| ==> IsDigit(g[n]) || g[n] == ','
    requires suffix == [] || (!IsDigit(suffix[0]) && suffix[0] != ',')
    ensures forall n :: 0 <= n < |RemoveAll(g, ',')| ==> IsDigit(RemoveAll(g, ',')[n])
    ensures CleanPrice(prefix + g + suffix) == Some(DigitsValue(RemoveAll(g, ',')))
  {
    var a, d, z := RemoveAll(prefix, ','), RemoveAll(g, ','), RemoveAll(suffix, ',');
    RemoveAllAppend(prefix + g, suffix, ',');
    RemoveAllAppend(prefix, g, ',');
    assert RemoveAll(prefix + g + suffix, ',') == a + d + z;
    RemoveAllKeepsHead(g, ',');
    if suffix != [] {
      RemoveAllKeepsHead(suffix, ',');
    }
    assert forall n :: 0 <= n < |d| ==> IsDigit(d[n]) by {
      forall n | 0 <= n < |d| ensures IsDigit(d[n]) {
        assert d[n] in g;
      }
    }
    assert forall n :: 0 <= n < |a| ==> !IsDigit(a[n]) by {
      forall n | 0 <= n < |a| ensures !IsDigit(a[n]) {
        assert a[n] in prefix;
      }
    }
    FirstDigitRun(a, d, z);
  }

  /** Reading a price written as a plain numeral gives back the number. */
  lemma PriceOfNumeral(n: nat)
    ensures CleanPrice(Decimal(n)) == Some(n)
  {
    var t := Decimal(n);
    PriceOfGroupedNumeral([], t, []);
    assert [] + t + [] == t;
    RemoveAllAbsent(t, ',');
    DecimalRoundTrip(n);
  }

  // ---------------------------------------------------------------- Rating

  /** The number `to_numeric` reads from a text of the form digits '.' digits. */
  function DecimalValue(d: string): real
  {
    var j := RunEnd(d, 0, IsDigit);
    assert forall n :: 0 <= n < j ==> IsDigit(d[..j][n]);
    var whole := DigitsValue(d[..j]);
    if j < |d| && d[j] == '.' then
      var e := RunEnd(d, j + 1, IsDigit);
      var frac := d[j + 1..e];
      assert forall n :: 0 <= n < |frac| ==> IsDigit(frac[n]);
      DecimalOf(whole, DigitsValue(frac), |frac|)
    else
      whole as real
  }

  /** The number whole.frac where frac is written with `scale` digits. */
  function DecimalOf(whole: nat, frac: nat, scale: nat): real {
    whole as real + frac as real / Pow10(scale) as real
  }

  /** Lines 25-29: extract the first `\d+\.\d+` and read it as a number; no match gives a missing rating. */
  function CleanRating(text: string): (rating: Option<real>)
  {
    match ExtractFirst(RatingNumber, text)
    case Some(d) => Some(DecimalValue(d))
    case None => None
  }

  /** The rating is the value of the leftmost-longest decimal, and missing exactly when there is none. */
  lemma RatingIsFirstDecimal(text: string)
    ensures CleanRating(text).None? <==> forall i: nat, k: nat :: !Matches(RatingNumber, text, i, k)
    ensures forall i: nat, k: nat :: LeftmostLongest(RatingNumber, text, i, k) ==>
      CleanRating(text) == Some(DecimalValue(text[i..k]))
  {
    SearchIsLeftmostLongest(RatingNumber, text);
  }

  /**
   * A decimal `w.f` after text without digits, and not followed by a digit,
   * is read as the number w + f / 10^|f|: the whole substring, not a prefix of it.
   */
  lemma RatingOfDecimal(a: string, w: string, f: string, z: string)
    requires forall n :: 0 <= n < |a| ==> !IsDigit(a[n])
    requires w != [] && forall n :: 0 <= n < |w| ==> IsDigit(w[n])
    requires f != [] && forall n :: 0 <= n < |f| ==> IsDigit(f[n])
    requires z == [] || !IsDigit(z[0])
    ensures CleanRating(a + w + "." + f + z)
      == Some(DecimalOf(DigitsValue(w), DigitsValue(f), |f|))
  {
    var t := a + w + "." + f + z;
    FirstDecimal(a, w, f, z);
    DecimalValueOf(w, f);
    assert CleanRating(t) == Some(DecimalValue(w + "." + f));
  }

  /** The first match of `\d+\.\d+` in such a text is the whole decimal. */
  lemma FirstDecimal(a: string, w: string, f: string, z: string)
    requires forall n :: 0 <= n < |a| ==> !IsDigit(a[n])
    requires w != [] && forall n :: 0 <= n < |w| ==> IsDigit(w[n])
    requires f != [] && forall n :: 0 <= n < |f| ==> IsDigit(f[n])
    requires z == [] || !IsDigit(z[0])
    ensures ExtractFirst(RatingNumber, a + w + "." + f + z) == Some(w + "." + f)
  {
    var t := a + w + "." + f + z;
    var j, e := |a| + |w|, |a| + |w| + 1 + |f|;
    DecimalLayout(a, w, f, z);
    forall n | 0 <= n < |a| ensures MatchAt(RatingNumber, t, n).None? {
      assert !IsDigit(t[n]);
    }
    RunEndUnique(t, |a|, j, IsDigit);
    RunEndUnique(t, j + 1, e, IsDigit);
    assert IsDigit(t[j + 1]);
    assert MatchAt(RatingNumber, t, |a|) == Some(e);
    SearchFinds(RatingNumber, t, 0, |a|, e);
  }

  /** Where the parts of `a + w + "." + f + z` sit. */
  lemma DecimalLayout(a: string, w: string, f: string, z: string)
    requires forall n :: 0 <= n < |a| ==> !IsDigit(a[n])
    requires w != [] && forall n :: 0 <= n < |w| ==> IsDigit(w[n])
    requires f != [] && forall n :: 0 <= n < |f| ==> IsDigit(f[n])
    requires z == [] || !IsDigit(z[0])
    ensures var t, j, e := a + w + "." + f + z, |a| + |w|, |a| + |w| + 1 + |f|;
      && e <= |t|
      && (forall n :: 0 <= n < |a| ==> !IsDigit(t[n]))
      && Span(t, |a|, j, IsDigit) && t[j] == '.' && Span(t, j + 1, e, IsDigit)
      && (e == |t| || !IsDigit(t[e]))
      && t[|a|..e] == w + "." + f
  {
    var t := a + w + "." + f + z;
    var j, e := |a| + |w|, |a| + |w| + 1 + |f|;
    forall n | 0 <= n < |a| ensures !IsDigit(t[n]) {
      assert t[n] == a[n];
    }
    forall n | |a| <= n < j ensures IsDigit(t[n]) {
      assert t[n] == w[n - |a|];
    }
    assert t[j] == '.';
    forall n | j + 1 <= n < e ensures IsDigit(t[n]) {
      assert t[n] == f[n - j - 1];
    }
    if e < |t| {
      assert t[e] == z[0];
    }
    assert t[|a|..e] == w + "." + f;
  }

  /** `to_numeric` of `w.f`. */
  lemma DecimalValueOf(w: string, f: string)
    requires w != [] && forall n :: 0 <= n < |w| ==> IsDigit(w[n])
    requires f != [] && forall n :: 0 <= n < |f| ==> IsDigit(f[n])
    ensures DecimalValue(w + "." + f)
      == DecimalOf(DigitsValue(w), DigitsValue(f), |f|)
  {
    var d := w + "." + f;
    DecimalTextLayout(w, f);
    RunEndUnique(d, 0, |w|, IsDigit);
    RunEndUnique(d, |w| + 1, |d|, IsDigit);
  }

  /** Where the parts of `w + "." + f` sit. */
  lemma DecimalTextLayout(w: string, f: string)
    requires forall n :: 0 <= n < |w| ==> IsDigit(w[n])
    requires forall n :: 0 <= n < |f| ==> IsDigit(f[n])
    ensures var d := w + "." + f;
      && |d| == |w| + 1 + |f| && Span(d, 0, |w|, IsDigit) && d[|w|] == '.'
      && Span(d, |w| + 1, |d|, IsDigit) && d[..|w|] == w && d[|w| + 1..|d|] == f
  {
    var d := w + "." + f;
    forall n | 0 <= n < |w| ensures IsDigit(d[n]) {
      assert d[n] == w[n];
    }
    forall n | |w| + 1 <= n < |d| ensures IsDigit(d[n]) {
      assert d[n] == f[n - |w| - 1];
    }
    assert d[..|w|] == w && d[|w| + 1..|d|] == f;
  }

  // ---------------------------------------------------------------- Brand

  /** A token of `str.split()`: non-empty and without whitespace. */
  predicate IsToken(t: string) {
    |t| > 0 && forall n :: 0 <= n < |t| ==> !IsSpace(t[n])
  }

  /** The tokens of s[i..] as `str.split()` with no argument cuts them. */
  function SplitFrom(s: string, i: nat): (tokens: seq<string>)
    requires i <= |s|
    ensures forall n :: 0 <= n < |tokens| ==> IsToken(tokens[n])
    ensures tokens == [] <==> Span(s, i, |s|, IsSpace)
    decreases |s| - i
  {
    var p := RunEnd(s, i, IsSpace);
    if p == |s| then []
    else
      var e := RunEnd(s, p, NotSpace);
      [s[p..e]] + SplitFrom(s, e)
  }

  /** `str.split()`: the whitespace-separated tokens, ignoring leading and trailing whitespace. */
  function Split(s: string): seq<string> {
    SplitFrom(s, 0)
  }

  /** Line 34: the first token of `str.split()`, missing when there is none. */
  function Brand(name: string): (brand: Option<string>)
    ensures brand.Some? ==> IsToken(brand.value)
    ensures brand.None? <==> forall n :: 0 <= n < |name| ==> IsSpace(name[n])
  {
    var tokens := Split(name);
    if tokens == [] then None else Some(tokens[0])
  }

  /**
   * The brand is the piece of the name that starts after the leading
   * whitespace and stops before the next whitespace or at the end.
   */
  lemma BrandIsFirstToken(name: string)
    requires Brand(name).Some?
    ensures var p, b := RunEnd(name, 0, IsSpace), Brand(name).value;
      && (forall n :: 0 <= n < p ==> IsSpace(name[n]))
      && p + |b| <= |name| && name[p..p + |b|] == b
      && (p + |b| == |name| || IsSpace(name[p + |b|]))
  {
  }

  /** A name that starts with a token followed by whitespace or nothing has that token as its brand. */
  lemma BrandOfFirstWord(w: string, rest: string)
    requires IsToken(w)
    requires rest == [] || IsSpace(rest[0])
    ensures Brand(w + rest) == Some(w)
  {
    var s := w + rest;
    assert RunEnd(s, 0, IsSpace) == 0;
    assert Span(s, 0, |w|, NotSpace) by {
      forall n | 0 <= n < |w| ensures NotSpace(s[n]) {
        assert s[n] == w[n];
      }
    }
    RunEndUnique(s, 0, |w|, NotSpace);
    assert s[0..|w|] == w;
  }

  /** Taking the brand of a brand changes nothing. */
  lemma BrandIdempotent(name: string)
    requires Brand(name).Some?
    ensures Brand(Brand(name).value) == Brand(name)
  {
    var b := Brand(name).value;
    assert RunEnd(b, 0, IsSpace) == 0;
    RunEndUnique(b, 0, |b|, NotSpace);
    assert b[0..|b|] == b;
  }

  // ---------------------------------------------------------------- RAM

  /** Lines 39-40: extract the first `\d+\s?GB`, then delete every ' ' in it; no match gives a missing RAM. */
  function CleanRam(name: string): (ram: Option<string>)
  {
    match ExtractFirst(RamSize, name)
    case Some(m) => Some(RemoveAll(m, ' '))
    case None => None
  }

  /** RAM is the leftmost match with its spaces deleted, and missing exactly when nothing matches. */
  lemma RamIsFirstCapacity(name: string)
    ensures CleanRam(name).None? <==> forall i: nat, k: nat :: !Matches(RamSize, name, i, k)
    ensures forall i: nat, k: nat :: LeftmostLongest(RamSize, name, i, k) ==>
      CleanRam(name) == Some(RemoveAll(name[i..k], ' '))
  {
    SearchIsLeftmostLongest(RamSize, name);
  }

  /**
   * A RAM value is digits, then at most one whitespace character other
   * than ' ' (a tab survives line 40), then `GB`.
   */
  lemma RamShape(name: string)
    requires CleanRam(name).Some?
    ensures var r := CleanRam(name).value;
      && |r| >= 3 && IsDigit(r[0]) && r[|r| - 2..] == "GB" && ' ' !in r
      && (forall n :: 0 <= n < |r| - 3 ==> IsDigit(r[n]))
      && (IsDigit(r[|r| - 3]) || IsSpace(r[|r| - 3]))
  {
    var (i, k) := Search(RamSize, name, 0).value;
    var j := RunEnd(name, i, IsDigit);
    CapacityMatch(name, i, k);
    CapacityText(name[i..j], name[j..k - 2]);
  }

  /** A match of `\d+\s?GB` at i is the digit run at i, at most one whitespace character, and `GB`. */
  lemma CapacityMatch(name: string, i: nat, k: nat)
    requires i <= |name| && MatchAt(RamSize, name, i) == Some(k)
    ensures var j := RunEnd(name, i, IsDigit);
      && i < j <= k - 2 && k - 2 - j <= 1
      && (forall n :: i <= n < j ==> IsDigit(name[n]))
      && (forall n :: j <= n < k - 2 ==> IsSpace(name[n]))
      && name[i..k] == name[i..j] + name[j..k - 2] + "GB"
  {
    var j := RunEnd(name, i, IsDigit);
    assert i < |name| && IsDigit(name[i]);
    if j < |name| && IsSpace(name[j]) && GBAt(name, j + 1) {
      assert k == j + 3;
    } else {
      assert GBAt(name, j) && k == j + 2;
    }
    assert name[k - 2] == 'G' && name[k - 1] == 'B';
    assert name[k - 2..k] == "GB" by {
      assert |name[k - 2..k]| == 2 && name[k - 2..k][0] == 'G' && name[k - 2..k][1] == 'B';
    }
    assert name[i..k] == name[i..j] + name[j..k];
    assert name[j..k] == name[j..k - 2] + name[k - 2..k];
  }

  /** Deleting the spaces of digits, an optional whitespace character and `GB`. */
  lemma CapacityText(ds: string, sep: string)
    requires ds != [] && forall n :: 0 <= n < |ds| ==> IsDigit(ds[n])
    requires |sep| <= 1 && forall n :: 0 <= n < |sep| ==> IsSpace(sep[n])
    ensures var r := RemoveAll(ds + sep + "GB", ' ');
      && |r| >= 3 && IsDigit(r[0]) && r[|r| - 2..] == "GB" && ' ' !in r
      && (forall n :: 0 <= n < |r| - 3 ==> IsDigit(r[n]))
      && (IsDigit(r[|r| - 3]) || IsSpace(r[|r| - 3]))
  {
    RemoveSpacesOfCapacity(ds, sep);
    var sep' := RemoveAll(sep, ' ');
    assert |sep'| <= |sep| && ' ' !in sep';
    assert forall n :: 0 <= n < |sep'| ==> IsSpace(sep'[n]) by {
      forall n | 0 <= n < |sep'| ensures IsSpace(sep'[n]) {
        assert sep'[n] in sep;
      }
    }
    CapacityShape(ds, sep');
  }

  /** Digits, at most one whitespace character other than ' ', and `GB`. */
  lemma CapacityShape(ds: string, sp: string)
    requires ds != [] && forall n :: 0 <= n < |ds| ==> IsDigit(ds[n])
    requires |sp| <= 1 && ' ' !in sp && forall n :: 0 <= n < |sp| ==> IsSpace(sp[n])
    ensures var r := ds + sp + "GB";
      && |r| >= 3 && IsDigit(r[0]) && r[|r| - 2..] == "GB" && ' ' !in r
      && (forall n :: 0 <= n < |r| - 3 ==> IsDigit(r[n]))
      && (IsDigit(r[|r| - 3]) || IsSpace(r[|r| - 3]))
  {
    var r := ds + sp + "GB";
    assert forall n :: 0 <= n < |ds| ==> r[n] == ds[n];
    assert r[|r| - 2] == 'G' && r[|r| - 1] == 'B';
    assert r[|r| - 2..] == "GB" by {
      assert |r[|r| - 2..]| == 2 && r[|r| - 2..][0] == 'G' && r[|r| - 2..][1] == 'B';
    }
    assert ' ' !in ds by {
      forall n | 0 <= n < |ds| ensures ds[n] != ' ' {
        assert IsDigit(ds[n]);
      }
    }
    if sp == [] {
      assert r[|r| - 3] == ds[|ds| - 1];
    } else {
      assert |r| - 3 == |ds| && r[|r| - 3] == sp[0];
    }
  }

  /**
   * Digits, an optional whitespace character and `GB`, after text without
   * digits, give the RAM value with the ' ' deleted, whatever follows.
   */
  lemma RamOfCapacity(a: string, ds: string, sep: string, z: string)
    requires forall n :: 0 <= n < |a| ==> !IsDigit(a[n])
    requires ds != [] && forall n :: 0 <= n < |ds| ==> IsDigit(ds[n])
    requires |sep| <= 1 && forall n :: 0 <= n < |sep| ==> IsSpace(sep[n])
    ensures CleanRam(a + ds + sep + "GB" + z) == Some(ds + RemoveAll(sep, ' ') + "GB")
  {
    FirstCapacity(a, ds, sep, z);
    RemoveSpacesOfCapacity(ds, sep);
  }

  /** The first match of `\d+\s?GB` in such a text is the capacity itself. */
  lemma FirstCapacity(a: string, ds: string, sep: string, z: string)
    requires forall n :: 0 <= n < |a| ==> !IsDigit(a[n])
    requires ds != [] && forall n :: 0 <= n < |ds| ==> IsDigit(ds[n])
    requires |sep| <= 1 && forall n :: 0 <= n < |sep| ==> IsSpace(sep[n])
    ensures ExtractFirst(RamSize, a + ds + sep + "GB" + z) == Some(ds + sep + "GB")
  {
    var t := a + ds + sep + "GB" + z;
    var j := |a| + |ds|;
    var k := j + |sep| + 2;
    forall n | 0 <= n < |a| ensures MatchAt(RamSize, t, n).None? {
      assert t[n] == a[n];
    }
    assert Span(t, |a|, j, IsDigit) by {
      forall n | |a| <= n < j ensures IsDigit(t[n]) {
        assert t[n] == ds[n - |a|];
      }
    }
    if sep == [] {
      assert t[j] == 'G' && t[j + 1] == 'B';
    } else {
      assert t[j] == sep[0] && t[j + 1] == 'G' && t[j + 2] == 'B';
    }
    RunEndUnique(t, |a|, j, IsDigit);
    assert MatchAt(RamSize, t, |a|) == Some(k);
    SearchFinds(RamSize, t, 0, |a|, k);
    assert t[|a|..k] == ds + sep + "GB";
  }

  /** Line 40 on a capacity: only the separator can hold a ' '. */
  lemma RemoveSpacesOfCapacity(ds: string, sep: string)
    requires forall n :: 0 <= n < |ds| ==> IsDigit(ds[n])
    ensures RemoveAll(ds + sep + "GB", ' ') == ds + RemoveAll(sep, ' ') + "GB"
  {
    RemoveAllAppend(ds + sep, "GB", ' ');
    RemoveAllAppend(ds, sep, ' ');
    assert ' ' !in ds;
    RemoveAllAbsent(ds, ' ');
    RemoveAllAbsent("GB", ' ');
  }

  /** The match is case-sensitive: a name without a capital 'G' has no RAM (`8gb` does not count). */
  lemma RamNeedsCapitalG(name: string)
    requires 'G' !in name
    ensures CleanRam(name).None?
  {
    RamIsFirstCapacity(name);
    forall i: nat, k: nat ensures !Matches(RamSize, name, i, k) {
    }
  }
}
