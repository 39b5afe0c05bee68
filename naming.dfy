/** The string helpers of the build scripts: `toTokens`, `toTitle`,
    `slugify` (identical in build-catalog.mjs and reorg-icons.mjs) and
    `inferStyle`. Each regular-expression replacement is one function here,
    composed in the order the source chains them. */
module Naming {
  import opened Text

  /** `.replace(/([a-z])([A-Z])/g, '$1 $2')`: a space between every lower-case
      letter and an upper-case letter right after it. Matches cannot overlap
      in a way that matters, since the upper-case letter a match consumes can
      never start the next one. */
  function SplitCamel(s: string): string {
    if |s| < 2 then s
    else if IsLower(s[0]) && IsUpper(s[1]) then [s[0], ' '] + SplitCamel(s[1..])
    else [s[0]] + SplitCamel(s[1..])
  }

  // ---------------------------------------------------------------- toTokens

  /** Maximal runs of `[a-z0-9]` of `s`, the current run being `cur`:
      `.split(/[^a-z0-9]+/).filter(Boolean)`. */
  function WordsFrom(s: string, cur: string): seq<string>
    decreases |s|
  {
    if s == [] then (if cur == [] then [] else [cur])
    else if IsLowerAlnum(s[0]) then WordsFrom(s[1..], cur + [s[0]])
    else (if cur == [] then [] else [cur]) + WordsFrom(s[1..], [])
  }

  function Words(s: string): seq<string> {
    WordsFrom(s, [])
  }

  /** `toTokens` */
  function ToTokens(value: string): seq<string> {
    if value == [] then []
    else Words(Lower(SplitCamel(ReplaceChar(value, '_', ' '))))
  }

  predicate IsToken(t: string) {
    t != [] && forall i :: 0 <= i < |t| ==> IsLowerAlnum(t[i])
  }

  /** The `[a-z0-9]` characters of `s`, in order. */
  function KeepLowerAlnum(s: string): (r: string)
    ensures forall i :: 0 <= i < |r| ==> IsLowerAlnum(r[i])
  {
    if s == [] then [] else (if IsLowerAlnum(s[0]) then [s[0]] else []) + KeepLowerAlnum(s[1..])
  }

  function Concat(ws: seq<string>): string {
    if ws == [] then [] else ws[0] + Concat(ws[1..])
  }

  lemma ConcatAppend(a: seq<string>, b: seq<string>)
    ensures Concat(a + b) == Concat(a) + Concat(b)
  {
    if a != [] {
      assert (a + b)[1..] == a[1..] + b;
      ConcatAppend(a[1..], b);
    } else {
      assert a + b == b;
    }
  }

  /** Every word is a non-empty run of `[a-z0-9]`, and the words together hold
      exactly the `[a-z0-9]` characters of the input. */
  lemma {:induction false} WordsFromSpec(s: string, cur: string)
    requires forall i :: 0 <= i < |cur| ==> IsLowerAlnum(cur[i])
    ensures forall k :: 0 <= k < |WordsFrom(s, cur)| ==> IsToken(WordsFrom(s, cur)[k])
    ensures Concat(WordsFrom(s, cur)) == cur + KeepLowerAlnum(s)
    decreases |s|
  {
    if s == [] {
      assert cur + [] == cur;
    } else if IsLowerAlnum(s[0]) {
      WordsFromSpec(s[1..], cur + [s[0]]);
    } else {
      WordsFromSpec(s[1..], []);
      var head: seq<string> := if cur == [] then [] else [cur];
      ConcatAppend(head, WordsFrom(s[1..], []));
      assert Concat(head) == cur;
    }
  }

  /** The tokens of a value are non-empty, use only `[a-z0-9]`, and are all
      the letters and digits of the lower-cased value. */
  lemma ToTokensSpec(value: string)
    ensures forall k :: 0 <= k < |ToTokens(value)| ==> IsToken(ToTokens(value)[k])
    ensures Concat(ToTokens(value)) == KeepLowerAlnum(Lower(SplitCamel(ReplaceChar(value, '_', ' '))))
  {
    if value != [] {
      WordsFromSpec(Lower(SplitCamel(ReplaceChar(value, '_', ' '))), []);
    }
  }

  /** A character outside `[a-z0-9]` ends the current run: the words of `a`,
      that character and `b` are the words of `a` followed by those of `b`. */
  lemma {:induction false} WordsFromSplit(a: string, c: char, b: string, cur: string)
    requires !IsLowerAlnum(c)
    ensures WordsFrom(a + [c] + b, cur) == WordsFrom(a, cur) + WordsFrom(b, [])
    decreases |a|
  {
    var s := a + [c] + b;
    if a == [] {
      assert s[0] == c && s[1..] == b;
    } else {
      assert s[0] == a[0] && s[1..] == a[1..] + [c] + b;
      if IsLowerAlnum(a[0]) {
        WordsFromSplit(a[1..], c, b, cur + [a[0]]);
      } else {
        WordsFromSplit(a[1..], c, b, []);
        var head: seq<string> := if cur == [] then [] else [cur];
        assert WordsFrom(s, cur) == head + (WordsFrom(a[1..], []) + WordsFrom(b, []));
      }
    }
  }

  /** The words are maximal: a separator splits the word list in two. */
  lemma WordsSplit(a: string, c: char, b: string)
    requires !IsLowerAlnum(c)
    ensures Words(a + [c] + b) == Words(a) + Words(b)
  {
    WordsFromSplit(a, c, b, []);
  }

  /** A run of `[a-z0-9]` only extends the current word. */
  lemma {:induction false} WordsFromRun(t: string, cur: string)
    requires forall i :: 0 <= i < |t| ==> IsLowerAlnum(t[i])
    ensures WordsFrom(t, cur) == if cur + t == [] then [] else [cur + t]
    decreases |t|
  {
    if t == [] {
      assert cur + t == cur;
    } else {
      assert cur + t == (cur + [t[0]]) + t[1..];
      WordsFromRun(t[1..], cur + [t[0]]);
    }
  }

  /** A token is one word, whole. */
  lemma WordsOfToken(t: string)
    requires IsToken(t)
    ensures Words(t) == [t]
  {
    WordsFromRun(t, []);
    assert [] + t == t;
  }

  lemma {:induction false} SplitCamelSplit(a: string, c: char, b: string)
    requires !IsLower(c) && !IsUpper(c)
    ensures SplitCamel(a + [c] + b) == SplitCamel(a) + [c] + SplitCamel(b)
    decreases |a|
  {
    var s := a + [c] + b;
    if a == [] {
      assert s == [c] + b;
      SplitCamelAfter(c, b);
    } else if |a| == 1 {
      assert s[1..] == [c] + b;
      SplitCamelAfter(c, b);
    } else {
      assert s[1..] == a[1..] + [c] + b;
      assert s[0] == a[0] && s[1] == a[1];
      var h := CamelHead(a);
      SplitCamelStep(s);
      SplitCamelStep(a);
      SplitCamelSplit(a[1..], c, b);
      var x, y := SplitCamel(a[1..]), SplitCamel(b);
      assert h + (x + [c] + y) == (h + x) + [c] + y;
    }
  }

  /** What `SplitCamel` emits for the first character of `s`. */
  function CamelHead(s: string): string
    requires |s| >= 2
  {
    if IsLower(s[0]) && IsUpper(s[1]) then [s[0], ' '] else [s[0]]
  }

  lemma SplitCamelStep(s: string)
    requires |s| >= 2
    ensures SplitCamel(s) == CamelHead(s) + SplitCamel(s[1..])
  {
  }

  /** No break is inserted after a character that is not a lower-case letter. */
  lemma SplitCamelAfter(c: char, b: string)
    requires !IsLower(c)
    ensures SplitCamel([c] + b) == [c] + SplitCamel(b)
  {
    if b != [] {
      assert ([c] + b)[1..] == b;
    }
  }

  /** `toTokens` splits at every character that is neither a letter nor a
      digit: the tokens of `a`, such a character and `b` are the tokens of
      `a` followed by those of `b`. */
  lemma ToTokensSplit(a: string, c: char, b: string)
    requires !IsAlnum(c)
    ensures ToTokens(a + [c] + b) == ToTokens(a) + ToTokens(b)
  {
    var c' := if c == '_' then ' ' else c;
    ReplaceCharSplit(a, c, b, '_', ' ');
    SplitCamelSplit(ReplaceChar(a, '_', ' '), c', ReplaceChar(b, '_', ' '));
    var x := SplitCamel(ReplaceChar(a, '_', ' '));
    var y := SplitCamel(ReplaceChar(b, '_', ' '));
    LowerSplit(x, c', y);
    assert LowerChar(c') == c';
    WordsSplit(Lower(x), c', Lower(y));
    if a == [] {
      assert Words(Lower(x)) == [];
    }
    if b == [] {
      assert Words(Lower(y)) == [];
    }
  }

  lemma {:induction false} SplitCamelLower(t: string)
    requires forall i :: 0 <= i < |t| ==> !IsUpper(t[i])
    ensures SplitCamel(t) == t
    decreases |t|
  {
    if |t| >= 2 {
      SplitCamelLower(t[1..]);
    }
  }

  /** A token is its own only token. */
  lemma ToTokensOfToken(t: string)
    requires IsToken(t)
    ensures ToTokens(t) == [t]
  {
    assert ReplaceChar(t, '_', ' ') == t;
    SplitCamelLower(t);
    assert Lower(t) == t;
    WordsOfToken(t);
  }

  // ----------------------------------------------------------------- toTitle

  /** `.replace(/\s+/g, ' ')` */
  function CollapseSpaces(s: string): (r: string)
    ensures forall i :: 0 <= i < |r| ==> !IsSpace(r[i]) || r[i] == ' '
    ensures forall i :: 0 <= i < |r| - 1 ==> !(r[i] == ' ' && r[i + 1] == ' ')
    ensures s != [] && !IsSpace(s[0]) ==> r != [] && r[0] == s[0]
    decreases |s|
  {
    if s == [] then []
    else if IsSpace(s[0]) then
      var rest := s[1..][LeadingSpaces(s[1..])..];
      [' '] + CollapseSpaces(rest)
    else [s[0]] + CollapseSpaces(s[1..])
  }

  /** `toTitle` of build-catalog.mjs: underscores become spaces, camel case is
      split, runs of white space become one space, and the ends are trimmed.
      Letter case is left alone. */
  function ToTitle(value: string): string {
    Trim(CollapseSpaces(SplitCamel(ReplaceChar(value, '_', ' '))))
  }

  /** `s` without white space and underscores: what a title keeps. */
  function Squeeze(s: string): string {
    if s == [] then []
    else (if IsSpace(s[0]) || s[0] == '_' then [] else [s[0]]) + Squeeze(s[1..])
  }

  lemma {:induction false} SqueezeAppend(a: string, b: string)
    ensures Squeeze(a + b) == Squeeze(a) + Squeeze(b)
    decreases |a|
  {
    if a == [] {
      assert a + b == b;
    } else {
      assert (a + b)[1..] == a[1..] + b;
      SqueezeAppend(a[1..], b);
    }
  }

  lemma {:induction false} SqueezeSpaces(s: string)
    requires forall i :: 0 <= i < |s| ==> IsSpace(s[i])
    ensures Squeeze(s) == []
    decreases |s|
  {
    if s != [] {
      SqueezeSpaces(s[1..]);
    }
  }

  lemma {:induction false} SqueezeReplace(s: string)
    ensures Squeeze(ReplaceChar(s, '_', ' ')) == Squeeze(s)
    decreases |s|
  {
    if s != [] {
      assert ReplaceChar(s, '_', ' ')[1..] == ReplaceChar(s[1..], '_', ' ');
      SqueezeReplace(s[1..]);
    }
  }

  lemma {:induction false} SqueezeSplitCamel(s: string)
    ensures Squeeze(SplitCamel(s)) == Squeeze(s)
    decreases |s|
  {
    if |s| >= 2 {
      SqueezeSplitCamel(s[1..]);
      if IsLower(s[0]) && IsUpper(s[1]) {
        SqueezeAppend([s[0], ' '], SplitCamel(s[1..]));
      } else {
        SqueezeAppend([s[0]], SplitCamel(s[1..]));
      }
    }
  }

  lemma {:induction false} SqueezeCollapse(s: string)
    ensures Squeeze(CollapseSpaces(s)) == Squeeze(s)
    decreases |s|
  {
    if s != [] {
      if IsSpace(s[0]) {
        var t := s[1..];
        var n := LeadingSpaces(t);
        SqueezeCollapse(t[n..]);
        SqueezeAppend([' '], CollapseSpaces(t[n..]));
        assert t == t[..n] + t[n..];
        SqueezeAppend(t[..n], t[n..]);
        SqueezeSpaces(t[..n]);
      } else {
        SqueezeCollapse(s[1..]);
        SqueezeAppend([s[0]], CollapseSpaces(s[1..]));
      }
    }
  }

  lemma SqueezeTrim(s: string)
    ensures Squeeze(Trim(s)) == Squeeze(s)
  {
    var n := LeadingSpaces(s);
    var t := s[n..];
    var m := TrailingSpaces(t);
    SqueezeDropFront(s, n);
    SqueezeDropBack(t, |t| - m);
    assert Trim(s) == t[..|t| - m];
  }

  lemma SqueezeDropFront(s: string, n: nat)
    requires n <= |s| && forall i :: 0 <= i < n ==> IsSpace(s[i])
    ensures Squeeze(s[n..]) == Squeeze(s)
  {
    var front := s[..n];
    assert forall i :: 0 <= i < |front| ==> IsSpace(front[i]) by {
      forall i | 0 <= i < |front| ensures IsSpace(front[i]) {
        assert front[i] == s[i];
      }
    }
    SqueezeSpaces(front);
    var back := s[n..];
    assert s == front + back;
    SqueezeAppend(front, back);
    assert [] + Squeeze(back) == Squeeze(back);
  }

  lemma SqueezeDropBack(s: string, n: nat)
    requires n <= |s| && forall i :: n <= i < |s| ==> IsSpace(s[i])
    ensures Squeeze(s[..n]) == Squeeze(s)
  {
    var back := s[n..];
    assert forall i :: 0 <= i < |back| ==> IsSpace(back[i]) by {
      forall i | 0 <= i < |back| ensures IsSpace(back[i]) {
        assert back[i] == s[n + i];
      }
    }
    SqueezeSpaces(back);
    var front := s[..n];
    assert s == front + back;
    SqueezeAppend(front, back);
    assert Squeeze(front) + [] == Squeeze(front);
  }

  /** A title has no underscore, and no white space other than single
      inner spaces. */
  lemma ToTitleShape(value: string)
    ensures var t := ToTitle(value);
      && (forall i :: 0 <= i < |t| ==> t[i] != '_' && (!IsSpace(t[i]) || t[i] == ' '))
      && (forall i :: 0 <= i < |t| - 1 ==> !(t[i] == ' ' && t[i + 1] == ' '))
      && (t != [] ==> !IsSpace(t[0]) && !IsSpace(t[|t| - 1]))
  {
    var a := ReplaceChar(value, '_', ' ');
    var b := SplitCamel(a);
    var c := CollapseSpaces(b);
    NoUnderscoreSplitCamel(a);
    NoUnderscoreCollapse(b);
    TrimShape(c);
  }

  /** Trimming a slice keeps the shape of what it slices. */
  lemma TrimShape(c: string)
    requires '_' !in c
    requires forall i :: 0 <= i < |c| ==> !IsSpace(c[i]) || c[i] == ' '
    requires forall i :: 0 <= i < |c| - 1 ==> !(c[i] == ' ' && c[i + 1] == ' ')
    ensures var t := Trim(c);
      && (forall i :: 0 <= i < |t| ==> t[i] != '_' && (!IsSpace(t[i]) || t[i] == ' '))
      && (forall i :: 0 <= i < |t| - 1 ==> !(t[i] == ' ' && t[i + 1] == ' '))
  {
    var t := Trim(c);
    var n := LeadingSpaces(c);
    TrimInside(c);
    forall i | 0 <= i < |t| ensures t[i] != '_' && (!IsSpace(t[i]) || t[i] == ' ') {
      assert t[i] == c[n + i] && c[n + i] in c;
    }
    forall i | 0 <= i < |t| - 1 ensures !(t[i] == ' ' && t[i + 1] == ' ') {
      assert t[i] == c[n + i] && t[i + 1] == c[n + i + 1];
    }
  }

  /** A title keeps every character of the value other than white space and
      underscores, in order and in its original case. */
  lemma ToTitleKeepsText(value: string)
    ensures Squeeze(ToTitle(value)) == Squeeze(value)
  {
    var a := ReplaceChar(value, '_', ' ');
    var b := SplitCamel(a);
    SqueezeReplace(value);
    SqueezeSplitCamel(a);
    SqueezeCollapse(b);
    SqueezeTrim(CollapseSpaces(b));
  }

  lemma {:induction false} NoUnderscoreSplitCamel(s: string)
    requires '_' !in s
    ensures '_' !in SplitCamel(s)
    decreases |s|
  {
    if |s| >= 2 {
      assert '_' !in s[1..] by {
        forall x | x in s[1..] ensures x in s { }
      }
      NoUnderscoreSplitCamel(s[1..]);
    }
  }

  lemma {:induction false} NoUnderscoreCollapse(s: string)
    requires '_' !in s
    ensures '_' !in CollapseSpaces(s)
    decreases |s|
  {
    if s != [] {
      var t := s[1..];
      assert '_' !in t by {
        forall x | x in t ensures x in s { }
      }
      if IsSpace(s[0]) {
        var n := LeadingSpaces(t);
        assert '_' !in t[n..] by {
          forall x | x in t[n..] ensures x in t { }
        }
        NoUnderscoreCollapse(t[n..]);
      } else {
        NoUnderscoreCollapse(t);
      }
    }
  }

  // ----------------------------------------------------------------- slugify

  predicate IsSlugChar(c: char) { IsLowerAlnum(c) || c == '-' }

  predicate NoDoubleDash(s: string) {
    forall i :: 0 <= i < |s| - 1 ==> !(s[i] == '-' && s[i + 1] == '-')
  }

  /** `.replace(/&/g, 'and')` */
  function ExpandAmpersands(s: string): string {
    if s == [] then []
    else (if s[0] == '&' then "and" else [s[0]]) + ExpandAmpersands(s[1..])
  }

  /** `.replace(/[^a-z0-9]+/g, '-')`: each maximal run of other characters
      becomes one dash (emitted at the run's last character). */
  function DashRuns(s: string): (r: string)
    ensures forall i :: 0 <= i < |r| ==> IsSlugChar(r[i])
    ensures NoDoubleDash(r)
    ensures s != [] && IsLowerAlnum(s[0]) ==> r != [] && r[0] == s[0]
    ensures s == [] <==> r == []
    decreases |s|
  {
    if s == [] then []
    else if IsLowerAlnum(s[0]) then [s[0]] + DashRuns(s[1..])
    else if |s| > 1 && !IsLowerAlnum(s[1]) then DashRuns(s[1..])
    else ['-'] + DashRuns(s[1..])
  }

  function LeadingDashes(s: string): (n: nat)
    ensures n <= |s|
    ensures n < |s| ==> s[n] != '-'
    ensures forall i :: 0 <= i < n ==> s[i] == '-'
  {
    if s != [] && s[0] == '-' then 1 + LeadingDashes(s[1..]) else 0
  }

  function TrailingDashes(s: string): (n: nat)
    ensures n <= |s|
    ensures n < |s| ==> s[|s| - n - 1] != '-'
    ensures forall i :: |s| - n <= i < |s| ==> s[i] == '-'
  {
    if s != [] && s[|s| - 1] == '-' then 1 + TrailingDashes(s[..|s| - 1]) else 0
  }

  /** `.replace(/^-+|-+$/g, '')` */
  function TrimDashes(s: string): (r: string)
    ensures r != [] ==> r[0] != '-' && r[|r| - 1] != '-'
  {
    var t := s[LeadingDashes(s)..];
    t[..|t| - TrailingDashes(t)]
  }

  /** `.replace(/-{2,}/g, '-')` */
  function CollapseDashes(s: string): string {
    if s == [] then []
    else if |s| >= 2 && s[0] == '-' && s[1] == '-' then CollapseDashes(s[1..])
    else [s[0]] + CollapseDashes(s[1..])
  }

  /** `slugify` */
  function Slugify(value: string): string {
    CollapseDashes(TrimDashes(DashRuns(ExpandAmpersands(Lower(value)))))
  }

  /** The last replacement never has anything to do: a string without `--`
      is its own collapse. */
  lemma {:induction false} CollapseDashesNoop(s: string)
    requires NoDoubleDash(s)
    ensures CollapseDashes(s) == s
    decreases |s|
  {
    if s != [] {
      assert NoDoubleDash(s[1..]);
      CollapseDashesNoop(s[1..]);
    }
  }

  /** A slug holds only `[a-z0-9-]`, neither starts nor ends with `-`, and
      never has two dashes in a row. */
  lemma SlugifySpec(value: string)
    ensures var r := Slugify(value);
      && (forall i :: 0 <= i < |r| ==> IsSlugChar(r[i]))
      && (r != [] ==> r[0] != '-' && r[|r| - 1] != '-')
      && NoDoubleDash(r)
  {
    var d := DashRuns(ExpandAmpersands(Lower(value)));
    TrimDashesKeeps(d);
    CollapseDashesNoop(TrimDashes(d));
  }

  /** Trimming keeps a slug's characters and its lack of double dashes. */
  lemma TrimDashesKeeps(d: string)
    requires forall i :: 0 <= i < |d| ==> IsSlugChar(d[i])
    requires NoDoubleDash(d)
    ensures var u := TrimDashes(d);
      (forall i :: 0 <= i < |u| ==> IsSlugChar(u[i])) && NoDoubleDash(u)
  {
    var t := d[LeadingDashes(d)..];
    var u := t[..|t| - TrailingDashes(t)];
    assert TrimDashes(d) == u;
    assert forall i :: 0 <= i < |u| ==> u[i] == d[LeadingDashes(d) + i];
  }

  lemma {:induction false} ExpandAmpersandsNoop(s: string)
    requires '&' !in s
    ensures ExpandAmpersands(s) == s
    decreases |s|
  {
    if s != [] {
      ExpandAmpersandsNoop(s[1..]);
      assert [s[0]] + s[1..] == s;
    }
  }

  lemma {:induction false} DashRunsNoop(s: string)
    requires forall i :: 0 <= i < |s| ==> IsLowerAlnum(s[i])
    ensures DashRuns(s) == s
    decreases |s|
  {
    if s != [] {
      DashRunsNoop(s[1..]);
      assert [s[0]] + s[1..] == s;
    }
  }

  lemma TrimDashesNoop(s: string)
    requires s == [] || (s[0] != '-' && s[|s| - 1] != '-')
    ensures TrimDashes(s) == s
  {
    var lead := LeadingDashes(s);
    assert lead == 0;
    assert s[lead..] == s;
    var trail := TrailingDashes(s);
    assert trail == 0;
  }

  /** A name made only of ASCII letters and digits slugs to its lower-case
      form. */
  lemma SlugifyAlnum(value: string)
    requires forall i :: 0 <= i < |value| ==> IsAlnum(value[i])
    ensures Slugify(value) == Lower(value)
  {
    var l := Lower(value);
    assert forall i :: 0 <= i < |l| ==> IsLowerAlnum(l[i]);
    ExpandAmpersandsNoop(l);
    DashRunsNoop(l);
    TrimDashesNoop(l);
    CollapseDashesNoop(l);
  }

  /** The letters and digits survive slugging: only separators change. */
  lemma {:induction false} DashRunsKeepsAlnum(s: string)
    ensures KeepLowerAlnum(DashRuns(s)) == KeepLowerAlnum(s)
    decreases |s|
  {
    if s != [] {
      DashRunsKeepsAlnum(s[1..]);
      if IsLowerAlnum(s[0]) {
        KeepAppend([s[0]], DashRuns(s[1..]));
      } else if !(|s| > 1 && !IsLowerAlnum(s[1])) {
        KeepAppend(['-'], DashRuns(s[1..]));
      }
    }
  }

  lemma {:induction false} KeepAppend(a: string, b: string)
    ensures KeepLowerAlnum(a + b) == KeepLowerAlnum(a) + KeepLowerAlnum(b)
    decreases |a|
  {
    if a == [] {
      assert a + b == b;
    } else {
      assert (a + b)[1..] == a[1..] + b;
      KeepAppend(a[1..], b);
    }
  }

  // -------------------------------------------------------------- inferStyle

  datatype Style = Flat | Filled | Line | Color {
    function Name(): string {
      match this
      case Flat => "flat"
      case Filled => "filled"
      case Line => "line"
      case Color => "color"
    }
  }

  predicate Truthy(o: Option<string>) { o.Some? && o.value != [] }

  /** `inferStyle`: the first matching rule decides. */
  function InferStyle(fileName: string, extension: string, collection: string, uiSet: Option<string>): (r: Style)
    ensures r == Color <==> Contains(Lower(fileName), "color") || extension == "png"
    ensures r == Filled <==>
      !(Contains(Lower(fileName), "color") || extension == "png") && Contains(Lower(fileName), "fill")
    ensures r == Line <==>
      !(Contains(Lower(fileName), "color") || extension == "png") && !Contains(Lower(fileName), "fill")
      && (collection == "ui" || Truthy(uiSet))
  {
    var lower := Lower(fileName);
    FilledContainsFill(lower);
    if Contains(lower, "color") || extension == "png" then Color
    else if Contains(lower, "filled") || Contains(lower, "fill") then Filled
    else if collection == "ui" then Line
    else if Truthy(uiSet) then Line
    else Flat
  }

  /** The `"filled"` test is subsumed by the `"fill"` test after it. */
  lemma FilledContainsFill(s: string)
    ensures Contains(s, "filled") ==> Contains(s, "fill")
  {
    if Contains(s, "filled") {
      var i :| 0 <= i <= |s| && "filled" <= s[i..];
      assert "fill" <= s[i..];
    }
  }
}
