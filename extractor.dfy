/** The balanced-brace literal extractor shared by build-catalog.mjs and
    reorg-icons.mjs: find the `const ALL_ICON_CATEGORIES` marker, then the
    next `{`, then scan with a depth counter, the active quote character and
    an escape flag until the depth returns to zero. The extracted text is
    returned as it stands; evaluating it is not part of this model. */
module Extractor {
  import opened Text

  const Marker: string := "const ALL_ICON_CATEGORIES"

  datatype ExtractError =
    | MarkerNotFound        // "Could not find ALL_ICON_CATEGORIES"
    | OpeningBraceNotFound  // "Could not locate opening brace"
    | Unbalanced            // "Failed to parse ALL_ICON_CATEGORIES block"

  datatype Result<T> = Ok(value: T) | Err(error: ExtractError)

  /** The scanner's three variables: `depth`, `inString` (the active quote,
      or none) and `escaped`. */
  datatype ScanState = ScanState(depth: int, quote: Option<char>, escaped: bool)

  const Start := ScanState(0, None, false)

  predicate IsQuote(c: char) { c == '"' || c == '\'' }

  /** One iteration of the scan loop. */
  function Step(st: ScanState, c: char): ScanState {
    if st.quote.Some? then
      if st.escaped then st.(escaped := false)
      else if c == '\\' then st.(escaped := true)
      else if c == st.quote.value then st.(quote := None)
      else st
    else if IsQuote(c) then st.(quote := Some(c))
    else if c == '{' then st.(depth := st.depth + 1)
    else if c == '}' then st.(depth := st.depth - 1)
    else st
  }

  /** The state after scanning all of `s`, starting from `st`. */
  function Run(st: ScanState, s: string): ScanState
    decreases |s|
  {
    if s == [] then st else Step(Run(st, s[..|s| - 1]), s[|s| - 1])
  }

  /** The string-aware depth after the first `n` characters of `seg`. */
  function DepthAt(seg: string, n: nat): int
    requires n <= |seg|
  {
    Run(Start, seg[..n]).depth
  }

  /** First offset `k >= from` such that the depth is zero once `seg[k]` has
      been scanned. */
  function CloseFrom(seg: string, from: nat): (r: Option<nat>)
    ensures r.Some? ==> from <= r.value < |seg| && DepthAt(seg, r.value + 1) == 0
    ensures r.Some? ==> forall n :: from < n <= r.value ==> DepthAt(seg, n) != 0
    ensures r.None? ==> forall n :: from < n <= |seg| ==> DepthAt(seg, n) != 0
    decreases |seg| - from
  {
    if from >= |seg| then None
    else if DepthAt(seg, from + 1) == 0 then Some(from)
    else CloseFrom(seg, from + 1)
  }

  /** The search finds the first return to depth zero. */
  lemma {:induction false} CloseFromFirst(seg: string, from: nat, k: nat)
    requires from <= k < |seg| && DepthAt(seg, k + 1) == 0
    requires forall n :: from < n <= k ==> DepthAt(seg, n) != 0
    ensures CloseFrom(seg, from) == Some(k)
    decreases k - from
  {
    if from < k {
      assert DepthAt(seg, from + 1) != 0;
      CloseFromFirst(seg, from + 1, k);
    }
  }

  /** The search fails when the depth never returns to zero. */
  lemma {:induction false} CloseFromNone(seg: string, from: nat)
    requires forall n :: from < n <= |seg| ==> DepthAt(seg, n) != 0
    ensures CloseFrom(seg, from) == None
    decreases |seg| - from
  {
    if from < |seg| {
      assert DepthAt(seg, from + 1) != 0;
      CloseFromNone(seg, from + 1);
    }
  }

  /** A balanced literal: it opens with `{`, closes with `}`, and the
      string-aware depth is zero at its end and at least one at every
      position before. */
  predicate Balanced(lit: string) {
    && 2 <= |lit| && lit[0] == '{' && lit[|lit| - 1] == '}'
    && Run(Start, lit).depth == 0
    && forall n :: 0 < n < |lit| ==> Run(Start, lit[..n]).depth >= 1
  }

  /** What extractCategories returns before evaluation, as a function of the
      file's content. */
  function Extracted(content: string): Result<string> {
    match IndexFrom(content, Marker, 0)
    case None => Err(MarkerNotFound)
    case Some(m) => AfterMarker(content, m)
  }

  /** The part of the extraction that follows the marker found at `m`. */
  function AfterMarker(content: string, m: nat): Result<string>
    requires m <= |content|
  {
    match IndexFrom(content, "{", m)
    case None => Err(OpeningBraceNotFound)
    case Some(b) => ClosedLiteral(content[b..])
  }

  /** The text from the opening brace up to the first return to depth zero. */
  function ClosedLiteral(seg: string): Result<string> {
    match CloseFrom(seg, 0)
    case None => Err(Unbalanced)
    case Some(k) => Ok(seg[..k + 1])
  }

  lemma RunStep(st: ScanState, s: string, c: char)
    ensures Run(st, s + [c]) == Step(Run(st, s), c)
  {
    assert (s + [c])[..|s + [c]| - 1] == s;
  }

  /** Scanning is a left fold: the state after `s + t` is the state after
      `t` started from the state after `s`. */
  lemma {:induction false} RunAppend(st: ScanState, s: string, t: string)
    ensures Run(st, s + t) == Run(Run(st, s), t)
    decreases |t|
  {
    if t == [] {
      assert s + t == s;
    } else {
      var t' := t[..|t| - 1];
      var c := t[|t| - 1];
      assert t == t' + [c];
      assert s + t == (s + t') + [c];
      RunAppend(st, s, t');
      RunStep(st, s + t', c);
      RunStep(Run(st, s), t', c);
    }
  }

  /** extractCategories up to the extracted text, with its three error
      exits. */
  method Extract(content: string) returns (r: Result<string>)
    ensures r == Extracted(content)
    ensures r.Ok? ==> Balanced(r.value)
  {
    var markerIndex := IndexFrom(content, Marker, 0);
    if markerIndex.None? {
      return Err(MarkerNotFound);
    }
    var m := markerIndex.value;
    assert Extracted(content) == AfterMarker(content, m);
    var braceStart := IndexFrom(content, "{", m);
    if braceStart.None? {
      return Err(OpeningBraceNotFound);
    }
    var b := braceStart.value;
    ghost var seg := content[b..];
    assert AfterMarker(content, m) == ClosedLiteral(seg);
    var endIndex := ScanLiteral(content, b);
    if endIndex == -1 {
      r := Err(Unbalanced);
    } else {
      r := Ok(content[b..endIndex + 1]);
      assert content[b..endIndex + 1] == seg[..endIndex - b + 1];
      assert r == ClosedLiteral(seg);
      ExtractedShape(content);
    }
  }

  /** The scan loop: from the opening brace, the index of the character
      that brings the string-aware depth back to zero, or -1. */
  method ScanLiteral(content: string, braceStart: nat) returns (endIndex: int)
    requires braceStart < |content| && content[braceStart] == '{'
    ensures endIndex == -1 ==> CloseFrom(content[braceStart..], 0) == None
    ensures endIndex != -1 ==> braceStart <= endIndex < |content|
    ensures endIndex != -1 ==> CloseFrom(content[braceStart..], 0) == Some(endIndex - braceStart)
  {
    var b := braceStart;
    ghost var seg := content[b..];
    var depth := 0;
    var inString: Option<char> := None;
    var escaped := false;
    endIndex := -1;
    var i := b;
    while i < |content|
      invariant b <= i <= |content|
      invariant ScanState(depth, inString, escaped) == Run(Start, seg[..i - b])
      invariant i > b ==> depth >= 1
      invariant forall n :: 0 < n <= i - b ==> DepthAt(seg, n) != 0
      invariant endIndex == -1
    {
      var c := content[i];
      ghost var pre := ScanState(depth, inString, escaped);
      assert c == seg[i - b];
      assert seg[..i - b + 1] == seg[..i - b] + [c];
      RunStep(Start, seg[..i - b], c);
      assert Run(Start, seg[..i - b + 1]) == Step(pre, c);
      if inString.Some? {
        if escaped {
          escaped := false;
        } else if c == '\\' {
          escaped := true;
        } else if c == inString.value {
          inString := None;
        }
      } else if c == '"' || c == '\'' {
        inString := Some(c);
      } else if c == '{' {
        depth := depth + 1;
      } else if c == '}' {
        depth := depth - 1;
        if depth == 0 {
          assert DepthAt(seg, i - b + 1) == 0;
          endIndex := i;
          break;
        }
      }
      assert ScanState(depth, inString, escaped) == Step(pre, c);
      assert DepthAt(seg, i - b + 1) == depth;
      if i == b {
        assert seg[..0] == [];
      }
      i := i + 1;
    }

    if endIndex == -1 {
      assert i - b == |seg|;
      CloseFromNone(seg, 0);
    } else {
      assert DepthAt(seg, endIndex - b + 1) == 0;
      CloseFromFirst(seg, 0, endIndex - b);
    }
  }

  /** The prefix of `seg` up to the first close is a balanced literal. */
  lemma ClosedShape(seg: string, k: nat)
    requires |seg| > 0 && seg[0] == '{' && CloseFrom(seg, 0) == Some(k)
    ensures Balanced(seg[..k + 1])
  {
    DepthPositiveBeforeClose(seg, k);
    FirstDepthIsOne(seg);
    assert k >= 1;
    ClosingCharacter(seg, k);
    PrefixDepths(seg, seg[..k + 1]);
  }

  lemma FirstDepthIsOne(seg: string)
    requires |seg| > 0 && seg[0] == '{'
    ensures DepthAt(seg, 1) == 1
  {
    assert seg[..0] == [];
    assert seg[..1] == seg[..0] + [seg[0]];
    RunStep(Start, seg[..0], seg[0]);
  }

  /** The character that brings a positive depth to zero is a `}` outside
      any string. */
  lemma ClosingCharacter(seg: string, k: nat)
    requires 1 <= k < |seg| && DepthAt(seg, k) >= 1 && DepthAt(seg, k + 1) == 0
    ensures seg[k] == '}' && Run(Start, seg[..k]).quote.None?
  {
    assert seg[..k + 1] == seg[..k] + [seg[k]];
    RunStep(Start, seg[..k], seg[k]);
  }

  lemma PrefixDepths(seg: string, lit: string)
    requires |lit| <= |seg| && lit == seg[..|lit|]
    requires forall n :: 0 < n < |lit| ==> DepthAt(seg, n) >= 1
    ensures forall n :: 0 < n < |lit| ==> Run(Start, lit[..n]).depth >= 1
  {
    forall n | 0 < n < |lit| ensures Run(Start, lit[..n]).depth >= 1 {
      assert lit[..n] == seg[..n];
      assert DepthAt(seg, n) >= 1;
    }
  }

  /** Depth moves by at most one per character. */
  lemma StepDepth(st: ScanState, c: char)
    ensures st.depth - 1 <= Step(st, c).depth <= st.depth + 1
  {
  }

  /** Inside a string, braces and the other kind of quote never change the
      depth; a string closes only on its own quote when no backslash is
      pending; a pending backslash consumes the next character, whatever it
      is. */
  lemma StepInString(st: ScanState, c: char)
    requires st.quote.Some?
    ensures Step(st, c).depth == st.depth
    ensures Step(st, c).quote.None? <==> !st.escaped && c != '\\' && c == st.quote.value
    ensures st.escaped ==> Step(st, c) == st.(escaped := false)
  {
  }

  /** Before the closing position found by the search, the depth never drops
      below one: the close is the first return to depth zero. */
  lemma {:induction false} DepthPositiveBeforeClose(seg: string, t: nat)
    requires t < |seg| && seg[0] == '{'
    requires forall n :: 0 < n <= t ==> DepthAt(seg, n) != 0
    ensures forall n :: 0 < n <= t ==> DepthAt(seg, n) >= 1
  {
    if t > 0 {
      DepthPositiveBeforeClose(seg, t - 1);
      var prev := Run(Start, seg[..t - 1]);
      assert seg[..t] == seg[..t - 1] + [seg[t - 1]];
      RunStep(Start, seg[..t - 1], seg[t - 1]);
      assert DepthAt(seg, t) == Step(prev, seg[t - 1]).depth;
      if t == 1 {
        assert seg[..0] == [];
        assert prev == Start;
      } else {
        assert DepthAt(seg, t - 1) >= 1;
        StepDepth(prev, seg[t - 1]);
      }
    }
  }

  /** Shape of a successful extraction: it starts with `{`, ends with `}`,
      the depth is zero exactly at its end and positive at every earlier
      position. */
  lemma ExtractedShape(content: string)
    requires Extracted(content).Ok?
    ensures Balanced(Extracted(content).value)
  {
    var m := IndexFrom(content, Marker, 0).value;
    var b := IndexFrom(content, "{", m).value;
    var seg := content[b..];
    assert Extracted(content) == ClosedLiteral(seg);
    ClosedShape(seg, CloseFrom(seg, 0).value);
  }

  /** The three failures, each stated on the content alone. */
  lemma ExtractedErrors(content: string)
    ensures Extracted(content) == Err(MarkerNotFound) <==> !Contains(content, Marker)
    ensures forall m :: IndexFrom(content, Marker, 0) == Some(m) ==>
      (Extracted(content) == Err(OpeningBraceNotFound) <==> '{' !in content[m..])
    ensures forall m, b :: IndexFrom(content, Marker, 0) == Some(m) && IndexFrom(content, "{", m) == Some(b) ==>
      (Extracted(content) == Err(Unbalanced) <==> forall n :: 0 < n <= |content| - b ==> DepthAt(content[b..], n) != 0)
  {
    MarkerMissing(content);
    forall m | IndexFrom(content, Marker, 0) == Some(m)
      ensures Extracted(content) == Err(OpeningBraceNotFound) <==> '{' !in content[m..]
    {
      assert Extracted(content) == AfterMarker(content, m);
      BraceMissing(content, m);
    }
    forall m, b | IndexFrom(content, Marker, 0) == Some(m) && IndexFrom(content, "{", m) == Some(b)
      ensures Extracted(content) == Err(Unbalanced) <==>
        forall n :: 0 < n <= |content| - b ==> DepthAt(content[b..], n) != 0
    {
      assert Extracted(content) == AfterMarker(content, m) == ClosedLiteral(content[b..]);
      NeverCloses(content[b..]);
    }
  }

  /** The first failure: the marker does not occur. */
  lemma MarkerMissing(content: string)
    ensures Extracted(content) == Err(MarkerNotFound) <==> !Contains(content, Marker)
  {
    match IndexFrom(content, Marker, 0)
    case None =>
      assert !Contains(content, Marker);
    case Some(m) =>
      assert Marker <= content[m..];
      assert Extracted(content) == AfterMarker(content, m);
      NotMarkerError(content, m);
  }

  lemma NotMarkerError(content: string, m: nat)
    requires m <= |content|
    ensures AfterMarker(content, m) != Err(MarkerNotFound)
  {
    match IndexFrom(content, "{", m)
    case None =>
    case Some(b) =>
      assert AfterMarker(content, m) == ClosedLiteral(content[b..]);
  }

  /** The second failure: no `{` after the marker. */
  lemma BraceMissing(content: string, m: nat)
    requires m <= |content|
    ensures AfterMarker(content, m) == Err(OpeningBraceNotFound) <==> '{' !in content[m..]
  {
    match IndexFrom(content, "{", m)
    case None =>
      forall j | 0 <= j < |content[m..]| ensures content[m..][j] != '{' {
        assert !("{" <= content[m + j..]);
      }
    case Some(b) =>
      assert content[b] == '{';
      assert content[m..][b - m] == '{';
      assert AfterMarker(content, m) == ClosedLiteral(content[b..]);
  }

  /** The third failure: the depth never returns to zero. */
  lemma NeverCloses(seg: string)
    ensures ClosedLiteral(seg) == Err(Unbalanced) <==> forall n :: 0 < n <= |seg| ==> DepthAt(seg, n) != 0
  {
    if CloseFrom(seg, 0).None? {
      forall n | 0 < n <= |seg| ensures DepthAt(seg, n) != 0 {
        assert 0 <= n - 1 < |seg|;
      }
    }
  }

  /** In `Marker + " = " + tail` the first `{` is the one opening `tail`. */
  lemma FirstBraceAfterHead(tail: string)
    requires tail != [] && tail[0] == '{'
    ensures IndexFrom(Marker + " = " + tail, "{", 0) == Some(|Marker + " = "|)
  {
    var head := Marker + " = ";
    var content := head + tail;
    var h := |head|;
    assert content[h..] == tail;
    assert '{' !in head;
    forall j | 0 <= j < h ensures !("{" <= content[j..]) {
      assert content[j] == head[j];
      assert head[j] in head;
    }
  }

  /** No occurrence of the marker starts inside `pre`, not even one that
      runs on into a marker written right after it. */
  predicate MarkerFree(pre: string) {
    forall j :: 0 <= j < |pre| ==> !(Marker <= (pre + Marker)[j..])
  }

  function ShiftBy(r: Option<nat>, k: nat): Option<nat> {
    match r
    case None => None
    case Some(i) => Some(k + i)
  }

  /** Searching behind a prefix `p` finds what searching without it finds,
      moved by `|p|`. */
  lemma {:induction false} IndexFromShift(p: string, s: string, t: string, from: nat)
    requires from <= |s|
    ensures IndexFrom(p + s, t, |p| + from) == ShiftBy(IndexFrom(s, t, from), |p|)
    decreases |s| - from
  {
    var x := p + s;
    assert x[|p| + from..] == s[from..];
    if t <= s[from..] {
      assert IndexFrom(x, t, |p| + from) == Some(|p| + from);
    } else if from == |s| {
      assert |p| + from == |x|;
      assert IndexFrom(s, t, from) == None;
    } else {
      assert IndexFrom(s, t, from) == IndexFrom(s, t, from + 1);
      assert IndexFrom(x, t, |p| + from) == IndexFrom(x, t, |p| + from + 1);
      IndexFromShift(p, s, t, from + 1);
    }
  }

  /** After a marker-free prefix, the marker found is the one that follows it. */
  lemma MarkerAfter(pre: string, tail: string)
    requires MarkerFree(pre)
    ensures IndexFrom(pre + Marker + tail, Marker, 0) == Some(|pre|)
  {
    var content := pre + Marker + tail;
    assert content[|pre|..] == Marker + tail;
    forall j | 0 <= j < |pre| ensures !(Marker <= content[j..]) {
      var w := (pre + Marker)[j..j + |Marker|];
      assert w == (pre + Marker)[j..][..|Marker|];
      assert w != Marker;
      assert w == content[j..][..|Marker|];
    }
  }

  /** Round trip: a file holding the declaration of a balanced literal,
      after any text that does not mention the marker, yields exactly that
      literal, whatever follows it. */
  lemma ExtractDeclaration(pre: string, lit: string, rest: string)
    requires MarkerFree(pre)
    requires Balanced(lit)
    ensures Extracted(pre + Marker + " = " + lit + rest) == Ok(lit)
  {
    var tail := lit + rest;
    ExtractedAfter(pre, tail);
    BalancedCloses(lit, rest);
    assert tail[..|lit|] == lit;
    assert pre + Marker + " = " + lit + rest == pre + Marker + " = " + tail;
  }

  /** In `pre + Marker + " = " + tail`, the marker is found at `|pre|` and
      the brace after it at the start of `tail`. */
  lemma DeclarationIndices(pre: string, tail: string)
    requires MarkerFree(pre)
    requires tail != [] && tail[0] == '{'
    ensures var content := pre + Marker + " = " + tail;
      && IndexFrom(content, Marker, 0) == Some(|pre|)
      && IndexFrom(content, "{", |pre|) == Some(|pre| + |Marker + " = "|)
      && content[|pre| + |Marker + " = "|..] == tail
  {
    var head := Marker + " = ";
    Regroup(pre, Marker, " = ", tail);
    MarkerAfter(pre, " = " + tail);
    BraceAfterPrefix(pre, head, tail);
  }

  lemma Regroup(a: string, b: string, c: string, d: string)
    ensures a + b + c + d == (a + b) + (c + d) == a + (b + c) + d
  {
  }

  lemma BraceAfterPrefix(pre: string, head: string, tail: string)
    requires head == Marker + " = "
    requires tail != [] && tail[0] == '{'
    ensures IndexFrom(pre + head + tail, "{", |pre|) == Some(|pre| + |head|)
    ensures (pre + head + tail)[|pre| + |head|..] == tail
  {
    assert pre + head + tail == pre + (head + tail);
    FirstBraceAfterHead(tail);
    IndexFromShift(pre, head + tail, "{", 0);
  }

  /** After a marker-free prefix and the declaration head, the extraction is
      the literal's text up to its first close, or the unbalanced error. */
  lemma ExtractedAfter(pre: string, tail: string)
    requires MarkerFree(pre)
    requires tail != [] && tail[0] == '{'
    ensures Extracted(pre + Marker + " = " + tail) ==
      match CloseFrom(tail, 0)
      case None => Err(Unbalanced)
      case Some(k) => Ok(tail[..k + 1])
  {
    var content := pre + Marker + " = " + tail;
    DeclarationIndices(pre, tail);
    assert Extracted(content) == AfterMarker(content, |pre|) == ClosedLiteral(tail);
  }

  /** A balanced literal closes at its last character, whatever follows. */
  lemma BalancedCloses(lit: string, rest: string)
    requires Balanced(lit)
    ensures CloseFrom(lit + rest, 0) == Some(|lit| - 1)
  {
    var seg := lit + rest;
    forall n | 0 < n <= |lit| ensures DepthAt(seg, n) == Run(Start, lit[..n]).depth {
      assert seg[..n] == lit[..n];
    }
    assert lit[..|lit|] == lit;
    CloseFromFirst(seg, 0, |lit| - 1);
  }

  // ------------------------------------------------------ literal grammar

  /** One character of a quoted string's body: a plain character, or a
      backslash and the character it escapes. */
  datatype StrPart = Plain(c: char) | Escaped(c: char)

  /** The literals the scanner is meant for: object literals whose items are
      quoted strings, nested objects and any other characters (names,
      colons, commas, brackets, digits, white space). Brackets need no case
      of their own, since the scanner counts only braces. */
  datatype Lit =
    | Chr(c: char)
    | Str(q: char, body: seq<StrPart>)
    | Obj(items: Lits)

  datatype Lits = Nil | Cons(head: Lit, tail: Lits)

  predicate PartOk(q: char, p: StrPart) {
    p.Plain? ==> p.c != q && p.c != '\\'
  }

  predicate WellFormed(t: Lit)
    decreases t
  {
    match t
    case Chr(c) => !IsQuote(c) && c != '{' && c != '}'
    case Str(q, body) => IsQuote(q) && forall i :: 0 <= i < |body| ==> PartOk(q, body[i])
    case Obj(items) => AllWellFormed(items)
  }

  predicate AllWellFormed(ls: Lits)
    decreases ls
  {
    match ls
    case Nil => true
    case Cons(h, t) => WellFormed(h) && AllWellFormed(t)
  }

  function PartText(p: StrPart): string {
    match p
    case Plain(c) => [c]
    case Escaped(c) => ['\\', c]
  }

  function BodyText(body: seq<StrPart>): string {
    if body == [] then [] else PartText(body[0]) + BodyText(body[1..])
  }

  /** The source text of a literal. */
  function Render(t: Lit): string
    decreases t
  {
    match t
    case Chr(c) => [c]
    case Str(q, body) => [q] + BodyText(body) + [q]
    case Obj(items) => "{" + RenderAll(items) + "}"
  }

  function RenderAll(ls: Lits): string
    decreases ls
  {
    match ls
    case Nil => []
    case Cons(h, t) => Render(h) + RenderAll(t)
  }

  /** Outside any string, at depth `d`. */
  function Outside(d: int): ScanState {
    ScanState(d, None, false)
  }

  /** The depth never falls below `d` while `s` is scanned from `st`. */
  predicate Floor(st: ScanState, s: string, d: int) {
    forall n :: 0 <= n <= |s| ==> Run(st, s[..n]).depth >= d
  }

  lemma RunOne(st: ScanState, c: char)
    ensures Run(st, [c]) == Step(st, c)
  {
    assert [c][..0] == [];
  }

  /** A one-character text keeps the floor when both states around it do. */
  lemma FloorOne(st: ScanState, c: char, d: int)
    requires st.depth >= d && Step(st, c).depth >= d
    ensures Floor(st, [c], d)
  {
    RunOne(st, c);
    assert [c][..0] == [] && [c][..1] == [c];
  }

  lemma FloorAppend(st: ScanState, a: string, b: string, d: int)
    requires Floor(st, a, d) && Floor(Run(st, a), b, d)
    ensures Floor(st, a + b, d)
  {
    forall n | 0 <= n <= |a + b| ensures Run(st, (a + b)[..n]).depth >= d {
      if n <= |a| {
        assert (a + b)[..n] == a[..n];
      } else {
        assert (a + b)[..n] == a + b[..n - |a|];
        RunAppend(st, a, b[..n - |a|]);
      }
    }
  }

  /** Inside a string opened by `q`, a well-formed body leaves the state as
      it found it, and the depth never moves. */
  lemma {:induction false} BodyKeepsState(d: int, q: char, body: seq<StrPart>)
    requires IsQuote(q)
    requires forall i :: 0 <= i < |body| ==> PartOk(q, body[i])
    ensures Run(ScanState(d, Some(q), false), BodyText(body)) == ScanState(d, Some(q), false)
    ensures Floor(ScanState(d, Some(q), false), BodyText(body), d)
    decreases |body|
  {
    var st := ScanState(d, Some(q), false);
    if body == [] {
      assert BodyText(body)[..0] == [];
    } else {
      var part := PartText(body[0]);
      match body[0] {
        case Plain(c) =>
          RunOne(st, c);
          FloorOne(st, c, d);
        case Escaped(c) =>
          var esc := st.(escaped := true);
          RunOne(st, '\\');
          RunOne(esc, c);
          RunAppend(st, ['\\'], [c]);
          FloorOne(st, '\\', d);
          FloorOne(esc, c, d);
          FloorAppend(st, ['\\'], [c], d);
          assert ['\\'] + [c] == part;
      }
      BodyKeepsState(d, q, body[1..]);
      assert BodyText(body) == part + BodyText(body[1..]);
      RunAppend(st, part, BodyText(body[1..]));
      FloorAppend(st, part, BodyText(body[1..]), d);
    }
  }

  /** A whole string literal, escapes included, is transparent to the scan:
      the state after it is the state before it. */
  lemma QuotedStringTransparent(st: ScanState, q: char, body: seq<StrPart>)
    requires st.quote.None? && !st.escaped && IsQuote(q)
    requires forall i :: 0 <= i < |body| ==> PartOk(q, body[i])
    ensures Run(st, [q] + BodyText(body) + [q]) == st
    ensures Floor(st, [q] + BodyText(body) + [q], st.depth)
  {
    var inside := ScanState(st.depth, Some(q), false);
    var b := BodyText(body);
    RunOne(st, q);
    FloorOne(st, q, st.depth);
    BodyKeepsState(st.depth, q, body);
    RunAppend(st, [q], b);
    FloorAppend(st, [q], b, st.depth);
    RunOne(inside, q);
    FloorOne(inside, q, st.depth);
    RunAppend(st, [q] + b, [q]);
    FloorAppend(st, [q] + b, [q], st.depth);
  }

  /** A well-formed literal scanned from outside any string at depth `d`
      comes back to the same state and never goes below `d`. */
  lemma {:induction false} LitNeutral(t: Lit, d: int)
    requires WellFormed(t)
    ensures Run(Outside(d), Render(t)) == Outside(d)
    ensures Floor(Outside(d), Render(t), d)
    decreases t, 1
  {
    match t
    case Chr(c) =>
      RunOne(Outside(d), c);
      FloorOne(Outside(d), c, d);
    case Str(q, body) =>
      QuotedStringTransparent(Outside(d), q, body);
    case Obj(items) =>
      LitsNeutral(items, d + 1);
      Wrapped(RenderAll(items), d);
  }

  /** Braces around text that is neutral one level deeper are neutral. */
  lemma Wrapped(inner: string, d: int)
    requires Run(Outside(d + 1), inner) == Outside(d + 1)
    requires Floor(Outside(d + 1), inner, d + 1)
    ensures Run(Outside(d), "{" + inner + "}") == Outside(d)
    ensures Floor(Outside(d), "{" + inner + "}", d)
  {
    RunOne(Outside(d), '{');
    FloorOne(Outside(d), '{', d);
    assert Floor(Outside(d + 1), inner, d);
    RunAppend(Outside(d), "{", inner);
    FloorAppend(Outside(d), "{", inner, d);
    RunOne(Outside(d + 1), '}');
    FloorOne(Outside(d + 1), '}', d);
    RunAppend(Outside(d), "{" + inner, "}");
    FloorAppend(Outside(d), "{" + inner, "}", d);
  }

  lemma {:induction false} LitsNeutral(ls: Lits, d: int)
    requires AllWellFormed(ls)
    ensures Run(Outside(d), RenderAll(ls)) == Outside(d)
    ensures Floor(Outside(d), RenderAll(ls), d)
    decreases ls, 0
  {
    match ls
    case Nil =>
      assert RenderAll(ls)[..0] == [];
    case Cons(h, t) =>
      LitNeutral(h, d);
      LitsNeutral(t, d);
      RunAppend(Outside(d), Render(h), RenderAll(t));
      FloorAppend(Outside(d), Render(h), RenderAll(t), d);
  }

  /** Every well-formed object literal is balanced in the scanner's sense. */
  lemma ObjectBalanced(items: Lits)
    requires AllWellFormed(items)
    ensures Balanced(Render(Obj(items)))
  {
    LitsNeutral(items, 1);
    BracedBalanced(RenderAll(items));
  }

  /** Braces around text that is neutral at depth one make a balanced literal. */
  lemma BracedBalanced(inner: string)
    requires Run(Outside(1), inner) == Outside(1)
    requires Floor(Outside(1), inner, 1)
    ensures Balanced("{" + inner + "}")
  {
    var lit := "{" + inner + "}";
    RunOne(Start, '{');
    assert Run(Start, "{") == Outside(1);
    RunAppend(Start, "{", inner);
    RunOne(Outside(1), '}');
    RunAppend(Start, "{" + inner, "}");
    BracedPrefixes(inner);
  }

  lemma BracedPrefixes(inner: string)
    requires Floor(Outside(1), inner, 1)
    requires Run(Start, "{") == Outside(1)
    ensures forall n :: 0 < n < |"{" + inner + "}"| ==> Run(Start, ("{" + inner + "}")[..n]).depth >= 1
  {
    var lit := "{" + inner + "}";
    forall n | 0 < n < |lit| ensures Run(Start, lit[..n]).depth >= 1 {
      assert lit[..n] == "{" + inner[..n - 1];
      RunAppend(Start, "{", inner[..n - 1]);
    }
  }

  /** Round trip for the grammar: the declaration of a well-formed object
      literal, after any marker-free text, extracts to exactly that
      literal's text. */
  lemma ExtractObject(pre: string, items: Lits, rest: string)
    requires MarkerFree(pre)
    requires AllWellFormed(items)
    ensures Extracted(pre + Marker + " = " + Render(Obj(items)) + rest) == Ok(Render(Obj(items)))
  {
    ObjectBalanced(items);
    ExtractDeclaration(pre, Render(Obj(items)), rest);
  }
}
