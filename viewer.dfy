/** The non-DOM logic of viewer.js: the size-suffix recogniser behind icon
    families, base-URL normalisation, display titles, the filter predicate,
    the page window of the icon grid, and the grouping of icons into size
    families. */
module Viewer {
  import opened Text
  import opened Seqs

  /** `KNOWN_SIZES` */
  const KnownSizes: set<nat> := {16, 20, 24, 28, 32, 36, 40, 48, 64, 72, 96, 128, 256, 512, 1024}

  // --------------------------------------------------------------- base name

  /** The last piece of `split(sep)` is the text after the last separator,
      or the whole string when there is none. */
  lemma {:induction false} SplitLastPiece(s: string, sep: char)
    ensures var parts := Split(s, sep); var p := parts[|parts| - 1];
      && EndsWith(s, p)
      && (|parts| == 1 ==> p == s)
      && (|parts| > 1 ==> |p| < |s| && s[|s| - |p| - 1] == sep)
    decreases |s|
  {
    if s != [] {
      SplitLastPiece(s[1..], sep);
      LastOfCons(s, sep, Split(s[1..], sep), Split(s, sep));
    }
  }

  /** The step of `SplitLastPiece`: how the first character extends the
      pieces of the tail, stated without `Split`. */
  lemma LastOfCons(s: string, sep: char, rest: seq<string>, parts: seq<string>)
    requires s != [] && rest != []
    requires parts == if s[0] == sep then [[]] + rest else [[s[0]] + rest[0]] + rest[1..]
    requires var q := rest[|rest| - 1];
      && EndsWith(s[1..], q)
      && (|rest| == 1 ==> q == s[1..])
      && (|rest| > 1 ==> |q| < |s[1..]| && s[1..][|s[1..]| - |q| - 1] == sep)
    ensures var p := parts[|parts| - 1];
      && EndsWith(s, p)
      && (|parts| == 1 ==> p == s)
      && (|parts| > 1 ==> |p| < |s| && s[|s| - |p| - 1] == sep)
  {
    var q := rest[|rest| - 1];
    EndsWithTail(s, q);
    if s[0] != sep && |rest| == 1 {
      assert [s[0]] + s[1..] == s;
    }
  }

  /** A suffix of the tail is a suffix of the whole, at the same distance
      from the end. */
  lemma EndsWithTail(s: string, q: string)
    requires s != [] && EndsWith(s[1..], q)
    ensures EndsWith(s, q)
    ensures |q| < |s| - 1 ==> s[|s| - |q| - 1] == s[1..][|s[1..]| - |q| - 1]
    ensures |q| == |s| - 1 ==> s[|s| - |q| - 1] == s[0]
  {
    assert s[|s| - |q|..] == s[1..][|s[1..]| - |q|..];
  }

  /** `getBaseName`: the text after the last `/`, or the whole value when
      that text is empty. */
  function GetBaseName(value: string): (r: string)
    ensures value == [] <==> r == []
    ensures EndsWith(value, r)
    ensures r != value ==> '/' !in r && value[|value| - |r| - 1] == '/'
    ensures value != [] && value[|value| - 1] == '/' ==> r == value
    ensures value != [] && value[|value| - 1] != '/' ==> '/' !in r
  {
    if value == [] then []
    else
      var parts := Split(value, '/');
      SplitLastPiece(value, '/');
      var last := parts[|parts| - 1];
      if last != [] then last else value
  }

  // ------------------------------------------------------------ size suffix

  /** Length of the run of digits that ends `t`. */
  function TrailingDigits(t: string): (k: nat)
    ensures k <= |t|
    ensures forall i :: |t| - k <= i < |t| ==> IsDigit(t[i])
    ensures k < |t| ==> !IsDigit(t[|t| - k - 1])
  {
    if t != [] && IsDigit(t[|t| - 1]) then 1 + TrailingDigits(t[..|t| - 1]) else 0
  }

  /** A match of `/(?:^|[_-])(\d{2,4})(?:px)?$/`: it begins at `index`, and
      the captured digits are `base[start..end]`. */
  datatype SizeMatch = SizeMatch(index: nat, start: nat, end: nat)

  /** What the regular expression accepts: a match at `p` capturing
      `base[d..e]`. */
  predicate SizeRegexAt(base: string, p: nat, d: nat, e: nat) {
    && p <= d <= e <= |base|
    && ((p == 0 && d == 0) || (d == p + 1 && IsSep(base[p])))
    && 2 <= e - d <= 4
    && (forall i :: d <= i < e ==> IsDigit(base[i]))
    && (e == |base| || base[e..] == "px")
  }

  /** `base` without a final `px`. */
  function Unpx(base: string): (t: string)
    ensures t <= base
  {
    if EndsWith(base, "px") then base[..|base| - 2] else base
  }

  /** `base.match(/(?:^|[_-])(\d{2,4})(?:px)?$/)` */
  function MatchSize(base: string): (r: Option<SizeMatch>)
    ensures r.Some? ==> SizeRegexAt(base, r.value.index, r.value.start, r.value.end)
  {
    var t := Unpx(base);
    var k := TrailingDigits(t);
    var j := |t| - k;
    if 2 <= k <= 4 && (j == 0 || IsSep(t[j - 1])) then
      assert EndsWith(base, "px") ==> base[|t|..] == "px";
      Some(SizeMatch(if j == 0 then 0 else j - 1, j, |t|))
    else None
  }

  lemma RegexEnd(base: string, p: nat, d: nat, e: nat)
    requires SizeRegexAt(base, p, d, e)
    ensures e == |Unpx(base)|
  {
    if EndsWith(base, "px") {
      assert base[|base| - 2..] == "px";
      assert !IsDigit(base[|base| - 1]);
    }
  }

  /** The expression matches at most once, and `MatchSize` finds that match:
      its index, and its digits, are the only ones the expression can give. */
  lemma MatchSizeExact(base: string)
    ensures MatchSize(base).Some? ==> forall p: nat, d: nat, e: nat :: SizeRegexAt(base, p, d, e) ==>
      MatchSize(base) == Some(SizeMatch(p, d, e))
    ensures MatchSize(base).None? ==> forall p: nat, d: nat, e: nat :: !SizeRegexAt(base, p, d, e)
  {
    var t := Unpx(base);
    var k := TrailingDigits(t);
    forall p: nat, d: nat, e: nat | SizeRegexAt(base, p, d, e) ensures MatchSize(base) == Some(SizeMatch(p, d, e)) {
      RegexEnd(base, p, d, e);
      assert forall i :: d <= i < |t| ==> IsDigit(t[i]);
      assert |t| - d <= k;
      assert d == 0 || (t[d - 1] == base[d - 1] && !IsDigit(t[d - 1]));
      assert d >= |t| - k;
    }
  }

  function DigitValue(c: char): nat
    requires IsDigit(c)
  {
    c as int - '0' as int
  }

  /** The captured digits as a decimal number (`Number(match[1])`). */
  function DigitsValue(s: string): nat
    requires forall i :: 0 <= i < |s| ==> IsDigit(s[i])
  {
    if s == [] then 0
    else 10 * DigitsValue(s[..|s| - 1]) + DigitValue(s[|s| - 1])
  }

  /** The extension-stripped base name both recognisers work on. */
  function SizeBase(value: string): string {
    StripExtension(GetBaseName(value))
  }

  /** The size a match denotes. */
  function MatchValue(base: string, m: SizeMatch): nat
    requires SizeRegexAt(base, m.index, m.start, m.end)
  {
    DigitsValue(base[m.start..m.end])
  }

  /** `parseSizeVariant` */
  function ParseSizeVariant(value: string): (r: Option<nat>)
    ensures r.Some? ==> r.value in KnownSizes
  {
    var base := SizeBase(value);
    match MatchSize(base)
    case None => None
    case Some(m) => if MatchValue(base, m) in KnownSizes then Some(MatchValue(base, m)) else None
  }

  /** A size is reported exactly when the expression matches and the number
      is a known size. */
  lemma ParseSizeVariantIff(value: string)
    ensures var base := SizeBase(value);
      ParseSizeVariant(value).Some? <==>
        exists p: nat, d: nat, e: nat :: SizeRegexAt(base, p, d, e) && DigitsValue(base[d..e]) in KnownSizes
  {
    KnownMatchIff(SizeBase(value));
  }

  lemma KnownMatchIff(base: string)
    ensures (MatchSize(base).Some? && MatchValue(base, MatchSize(base).value) in KnownSizes) <==>
      exists p: nat, d: nat, e: nat :: SizeRegexAt(base, p, d, e) && DigitsValue(base[d..e]) in KnownSizes
  {
    MatchSizeExact(base);
    if MatchSize(base).Some? {
      var m := MatchSize(base).value;
      assert SizeRegexAt(base, m.index, m.start, m.end);
    }
  }

  /** `buildFamilyKey` */
  function BuildFamilyKey(value: string): (r: string)
    ensures forall i :: 0 <= i < |r| ==> !IsUpper(r[i])
  {
    var base := SizeBase(value);
    var m := MatchSize(base);
    var kept := if m.Some? && MatchValue(base, m.value) in KnownSizes then base[..m.value.index] else base;
    LowerNoUpper(kept);
    Lower(kept)
  }

  /** The family key drops the size suffix, separator included, exactly when
      a size variant is reported; otherwise it is the whole base name. */
  lemma FamilyKeyDropsSize(value: string)
    ensures var base := SizeBase(value);
      && (ParseSizeVariant(value).Some? ==>
            var m := MatchSize(base).value;
            && BuildFamilyKey(value) == Lower(base[..m.index])
            && SizeRegexAt(base, m.index, m.start, m.end)
            && MatchValue(base, m) == ParseSizeVariant(value).value)
      && (ParseSizeVariant(value).None? ==> BuildFamilyKey(value) == Lower(base))
  {
  }

  // -------------------------------------------------------------- base URL

  /** Drops every trailing `/` (`replace(/\/+$/, '')`). */
  function DropTrailingSlashes(s: string): (r: string)
    ensures r <= s
    ensures r == [] || r[|r| - 1] != '/'
    ensures forall i :: |r| <= i < |s| ==> s[i] == '/'
  {
    if s != [] && s[|s| - 1] == '/' then DropTrailingSlashes(s[..|s| - 1]) else s
  }

  /** `normalizeBaseUrl`: empty for empty input, else trimmed and without
      trailing slashes. */
  function NormalizeBaseUrl(url: string): (r: string)
    ensures url == [] ==> r == []
    ensures r == [] || r[|r| - 1] != '/'
    ensures r <= Trim(url)
    ensures forall i :: |r| <= i < |Trim(url)| ==> Trim(url)[i] == '/'
  {
    if url == [] then [] else DropTrailingSlashes(Trim(url))
  }

  // ------------------------------------------------------------------ title

  /** `\b\w` at index `i`: a word character not preceded by one. */
  predicate WordStart(s: string, i: nat)
    requires i < |s|
  {
    IsWordChar(s[i]) && (i == 0 || !IsWordChar(s[i - 1]))
  }

  /** `replace(/\b\w/g, (m) => m.toUpperCase())` */
  function CapitalizeWords(s: string): (r: string)
    ensures |r| == |s|
    ensures forall i :: 0 <= i < |s| ==> r[i] == if WordStart(s, i) then UpperChar(s[i]) else s[i]
  {
    seq(|s|, i requires 0 <= i < |s| => if WordStart(s, i) then UpperChar(s[i]) else s[i])
  }

  /** `toTitle`: dashes become spaces, the ends are trimmed and every word
      starts with a capital. */
  function ToTitle(value: string): (r: string)
  {
    if value == [] then [] else CapitalizeWords(Trim(ReplaceChar(value, '-', ' ')))
  }

  lemma TrimKeeps(s: string, c: char)
    requires c !in s
    ensures c !in Trim(s)
  {
    TrimInside(s);
    forall i | 0 <= i < |Trim(s)| ensures Trim(s)[i] != c {
      assert s[LeadingSpaces(s) + i] in s;
    }
  }

  /** Capitalising keeps the length, the word structure, and every
      character up to case; word starts end up without a lower-case letter. */
  lemma CapitalizeFacts(s: string)
    ensures var r := CapitalizeWords(s);
      && (forall i :: 0 <= i < |s| ==> (IsWordChar(r[i]) <==> IsWordChar(s[i])))
      && (forall i :: 0 <= i < |s| ==> (IsSpace(r[i]) <==> IsSpace(s[i])) && (r[i] == '-' <==> s[i] == '-'))
      && (forall i :: 0 <= i < |s| ==> (WordStart(r, i) <==> WordStart(s, i)))
      && (forall i :: 0 <= i < |s| && WordStart(r, i) ==> !IsLower(r[i]))
      && Lower(r) == Lower(s)
  {
    var r := CapitalizeWords(s);
    forall i | 0 <= i < |s| ensures IsWordChar(r[i]) <==> IsWordChar(s[i]) {
    }
    forall i | 0 <= i < |s| ensures WordStart(r, i) <==> WordStart(s, i) {
    }
  }

  /** The title only changes the case of word starts: it has no dash, no
      space at either end, no lower-case letter starting a word, and reads
      like the trimmed, dash-free value ignoring case. */
  lemma ToTitleSpec(value: string)
    ensures var r := ToTitle(value);
      var clean := Trim(ReplaceChar(value, '-', ' '));
      && '-' !in r
      && (r != [] ==> !IsSpace(r[0]) && !IsSpace(r[|r| - 1]))
      && |r| == |clean| && Lower(r) == Lower(clean)
      && (forall i :: 0 <= i < |r| && WordStart(r, i) ==> !IsLower(r[i]))
  {
    if value != [] {
      var replaced := ReplaceChar(value, '-', ' ');
      var clean := Trim(replaced);
      TrimKeeps(replaced, '-');
      CapitalizeFacts(clean);
    }
  }

  /** Titling a title changes nothing. */
  lemma ToTitleIdempotent(value: string)
    ensures ToTitle(ToTitle(value)) == ToTitle(value)
  {
    var r := ToTitle(value);
    if r != [] {
      ToTitleSpec(value);
      assert ReplaceChar(r, '-', ' ') == r;
      assert LeadingSpaces(r) == 0;
      assert TrailingSpaces(r) == 0;
      assert Trim(r) == r;
      var clean := Trim(ReplaceChar(value, '-', ' '));
      CapitalizeFacts(clean);
    }
  }
}
