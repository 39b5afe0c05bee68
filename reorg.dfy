/** The destination rules of reorg-icons.mjs: where each file of the flat
    legacy folder `m365` is moved inside the icon tree, and the move itself,
    which never overwrites. Paths are relative to the icon root and use `/`. */
module Reorg {
  import opened Text
  import opened Seqs
  import opened Naming
  import Catalog

  // ------------------------------------------------------------------ shards

  /** The ASCII letters and digits of `s`, in order (`replace(/[^a-zA-Z0-9]/g, '')`). */
  function KeepAlnum(s: string): (r: string)
    ensures |r| <= |s|
    ensures forall i :: 0 <= i < |r| ==> IsAlnum(r[i])
    ensures r == [] <==> forall i :: 0 <= i < |s| ==> !IsAlnum(s[i])
  {
    if s == [] then []
    else if IsAlnum(s[0]) then [s[0]] + KeepAlnum(s[1..])
    else KeepAlnum(s[1..])
  }

  function Underscores(n: nat): (r: string)
    ensures |r| == n && forall i :: 0 <= i < n ==> r[i] == '_'
  {
    seq(n, _ => '_')
  }

  /** `getShard(name, length)`: the first `length` letters and digits of the
      name, lower-cased and padded with `_` to `length`; `_` when the name has
      none. */
  function GetShard(name: string, length: nat): (r: string)
    ensures KeepAlnum(name) == [] || length == 0 ==> r == "_"
    ensures KeepAlnum(name) != [] && length > 0 ==> |r| == length
    ensures forall i :: 0 <= i < |r| ==> IsLowerAlnum(r[i]) || r[i] == '_'
    ensures forall i :: 0 <= i < |r| && i < |KeepAlnum(name)| && length > 0 ==>
      r[i] == LowerChar(KeepAlnum(name)[i])
    ensures forall i :: |KeepAlnum(name)| <= i < |r| ==> r[i] == '_'
  {
    var safe := KeepAlnum(name);
    var shard := Lower(Take(safe, length));
    if shard == [] then "_" else shard + Underscores(length - |shard|)
  }

  /** The two-character shard refines the one-character shard, so
      `uncategorized/<a>/<ab>` nests consistently. */
  lemma ShardsNest(name: string)
    ensures GetShard(name, 1) <= GetShard(name, 2)
  {
  }

  /** A one-character shard is `_` exactly when the name has no letter or
      digit. */
  lemma ShardUnderscoreIff(name: string)
    ensures GetShard(name, 1) == "_" <==> KeepAlnum(name) == []
  {
    if KeepAlnum(name) != [] {
      assert GetShard(name, 1)[0] == LowerChar(KeepAlnum(name)[0]);
    }
  }

  // ---------------------------------------------------------------- families

  /** A case-insensitive prefix test, `/^head/i` or `/^head[_-]/i`; `head` is
      lower case. */
  datatype Rule = Rule(head: string, needsSep: bool, family: string)

  predicate Matches(rule: Rule, s: string) {
    && |rule.head| <= |s|
    && Lower(s[..|rule.head|]) == rule.head
    && (rule.needsSep ==> |rule.head| < |s| && IsSep(s[|rule.head|]))
  }

  function MatchLength(rule: Rule): nat {
    |rule.head| + if rule.needsSep then 1 else 0
  }

  /** `s.replace(regex, '')` for an anchored rule. */
  function StripRule(rule: Rule, s: string): (r: string)
    ensures Matches(rule, s) ==> s == s[..MatchLength(rule)] + r
    ensures !Matches(rule, s) ==> r == s
  {
    if Matches(rule, s) then s[MatchLength(rule)..] else s
  }

  const Tabler := Rule("tabler", true, "tabler")
  const FaSolid := Rule("fa_solid_", false, "fontawesome-solid")
  const FaBrand := Rule("fa_brand_", false, "fontawesome-brand")
  const FaOther := Rule("fa", true, "fontawesome-other")

  /** The `patterns` table of `uiShardFromFile`. */
  const NamedFamilies: seq<Rule> := [
    Rule("mdi", true, "mdi"), Rule("lucide", true, "lucide"), Rule("phosphor", true, "phosphor"),
    Rule("cssgg", true, "cssgg"), Rule("heroicons", true, "heroicons"), Rule("feather", true, "feather"),
    Rule("ionicons", true, "ionicons"), Rule("octicons", true, "octicons"), Rule("eva", true, "eva"),
    Rule("bootstrap", true, "bootstrap"), Rule("remix", true, "remix"), Rule("brand", true, "brand")]

  /** The tests of `uiFamilyFromFile`, in order. */
  const FamilyRules: seq<Rule> := [Tabler, FaSolid, FaBrand, FaOther] + NamedFamilies

  /** The index of the first rule that matches `s`. */
  function FirstMatch(rules: seq<Rule>, s: string): (r: Option<nat>)
    ensures r.Some? ==> r.value < |rules| && Matches(rules[r.value], s)
    ensures r.Some? ==> forall j :: 0 <= j < r.value ==> !Matches(rules[j], s)
    ensures r.None? ==> forall j :: 0 <= j < |rules| ==> !Matches(rules[j], s)
  {
    if rules == [] then None
    else if Matches(rules[0], s) then Some(0)
    else match FirstMatch(rules[1..], s)
      case Some(i) => Some(i + 1)
      case None => None
  }

  /** `uiFamilyFromFile` */
  function UiFamilyFromFile(fileName: string): Option<string> {
    match FirstMatch(FamilyRules, fileName)
    case Some(i) => Some(FamilyRules[i].family)
    case None => None
  }

  lemma LowerHead(s: string, n: nat)
    requires n <= |s|
    ensures Lower(s[..n]) == Lower(s)[..n]
  {
  }

  /** `fa_solid_` and `fa_brand_` are matched before the generic `fa[_-]`:
      such names never fall into `fontawesome-other`. */
  lemma FontAwesomeSubfamilies(fileName: string)
    ensures Matches(FaSolid, fileName) ==> UiFamilyFromFile(fileName) == Some("fontawesome-solid")
    ensures Matches(FaBrand, fileName) ==> UiFamilyFromFile(fileName) == Some("fontawesome-brand")
    ensures UiFamilyFromFile(fileName) == Some("fontawesome-other") ==>
      !Matches(FaSolid, fileName) && !Matches(FaBrand, fileName) && Matches(FaOther, fileName)
  {
    if Matches(FaSolid, fileName) || Matches(FaBrand, fileName) {
      LowerHead(fileName, 1);
      assert Lower(fileName)[0] == 'f';
      assert !Matches(Tabler, fileName) by {
        LowerHead(fileName, 6);
      }
      assert FamilyRules[0] == Tabler && FamilyRules[1] == FaSolid && FamilyRules[2] == FaBrand;
      if Matches(FaSolid, fileName) {
        assert FirstMatch(FamilyRules, fileName) == Some(1);
      } else {
        LowerHead(fileName, 9);
        assert Lower(fileName)[3] == 'b';
        assert !Matches(FaSolid, fileName);
        assert FirstMatch(FamilyRules, fileName) == Some(2);
      }
    }
    if UiFamilyFromFile(fileName) == Some("fontawesome-other") {
      var i := FirstMatch(FamilyRules, fileName).value;
      assert FamilyRules[i].family == "fontawesome-other";
      FamilyNamesDistinct();
      assert FamilyRules[3].family == "fontawesome-other";
    }
  }

  /** The sub-folder of a family's shard: `solid`, `brand` or `other` for
      Font Awesome. */
  function ShardFolder(family: string): string {
    if family == "fontawesome-solid" then "solid/"
    else if family == "fontawesome-brand" then "brand/"
    else if family == "fontawesome-other" then "other/"
    else ""
  }

  /** What `uiShardFromFile(fileName, family)` returns. */
  function UiShard(fileName: string, family: string): string {
    if family == "tabler" then GetShard(StripRule(Tabler, fileName), 1)
    else if family == "fontawesome-solid" then "solid/" + GetShard(StripRule(FaSolid, fileName), 1)
    else if family == "fontawesome-brand" then "brand/" + GetShard(StripRule(FaBrand, fileName), 1)
    else if family == "fontawesome-other" then "other/" + GetShard(StripRule(FaOther, fileName), 1)
    else match FirstMatch(NamedFamilies, fileName)
      case Some(k) => GetShard(StripRule(NamedFamilies[k], fileName), 1)
      case None => GetShard(fileName, 1)
  }

  /** `uiShardFromFile`: the four special families, then a first-match loop
      over the pattern table, then the plain shard of the name. */
  method UiShardFromFile(fileName: string, family: string) returns (shard: string)
    ensures shard == UiShard(fileName, family)
  {
    if family == "tabler" {
      return GetShard(StripRule(Tabler, fileName), 1);
    }
    if family == "fontawesome-solid" {
      return "solid/" + GetShard(StripRule(FaSolid, fileName), 1);
    }
    if family == "fontawesome-brand" {
      return "brand/" + GetShard(StripRule(FaBrand, fileName), 1);
    }
    if family == "fontawesome-other" {
      return "other/" + GetShard(StripRule(FaOther, fileName), 1);
    }
    var k := FindRule(NamedFamilies, fileName);
    if k.Some? {
      return GetShard(StripRule(NamedFamilies[k.value], fileName), 1);
    }
    return GetShard(fileName, 1);
  }

  /** The pattern loop of `uiShardFromFile`: the first rule that matches. */
  method FindRule(rules: seq<Rule>, s: string) returns (r: Option<nat>)
    ensures r == FirstMatch(rules, s)
  {
    var k := 0;
    while k < |rules|
      invariant 0 <= k <= |rules|
      invariant forall j :: 0 <= j < k ==> !Matches(rules[j], s)
    {
      if Matches(rules[k], s) {
        FirstMatchSuffix(rules, k, s);
        return Some(k);
      }
      k := k + 1;
    }
    return None;
  }

  lemma {:induction false} FirstMatchSuffix(rules: seq<Rule>, n: nat, s: string)
    requires n <= |rules|
    requires forall j :: 0 <= j < n ==> !Matches(rules[j], s)
    ensures FirstMatch(rules, s).Some? <==> FirstMatch(rules[n..], s).Some?
    ensures FirstMatch(rules, s).Some? ==> FirstMatch(rules, s).value == FirstMatch(rules[n..], s).value + n
  {
    var r := FirstMatch(rules, s);
    var q := FirstMatch(rules[n..], s);
    if r.Some? {
      assert rules[n..][r.value - n] == rules[r.value];
    }
    if q.Some? {
      assert rules[n..][q.value] == rules[q.value + n];
    }
  }

  lemma FamilyNamesDistinct()
    ensures forall i, j :: 0 <= i < j < |FamilyRules| ==> FamilyRules[i].family != FamilyRules[j].family
  {
  }

  /** The shard of a UI file is taken from what follows its own family's
      prefix (under `solid/`, `brand/` or `other/` for Font Awesome); the
      plain-name fallback of `uiShardFromFile` is never reached from `main`. */
  lemma UiShardOfFamily(fileName: string)
    requires UiFamilyFromFile(fileName).Some?
    ensures var i := FirstMatch(FamilyRules, fileName).value;
      UiShard(fileName, UiFamilyFromFile(fileName).value)
        == ShardFolder(FamilyRules[i].family) + GetShard(StripRule(FamilyRules[i], fileName), 1)
  {
    var i := FirstMatch(FamilyRules, fileName).value;
    assert UiFamilyFromFile(fileName).value == FamilyRules[i].family;
    if i == 0 {
      assert FamilyRules[0] == Tabler;
    } else if i == 1 {
      assert FamilyRules[1] == FaSolid;
    } else if i == 2 {
      assert FamilyRules[2] == FaBrand;
    } else if i == 3 {
      assert FamilyRules[3] == FaOther;
    } else {
      UiShardOfNamedFamily(fileName, i);
    }
  }

  lemma UiShardOfNamedFamily(fileName: string, i: nat)
    requires FirstMatch(FamilyRules, fileName) == Some(i) && i >= 4
    ensures UiShard(fileName, FamilyRules[i].family)
      == ShardFolder(FamilyRules[i].family) + GetShard(StripRule(FamilyRules[i], fileName), 1)
  {
    FirstMatchSuffix(FamilyRules, 4, fileName);
    assert FamilyRules[4..] == NamedFamilies;
    assert FamilyRules[i] == NamedFamilies[i - 4];
    NamedNotSpecial(i - 4);
  }

  /** The table's families are none of the four handled before the loop. */
  lemma NamedNotSpecial(j: nat)
    requires j < |NamedFamilies|
    ensures NamedFamilies[j].family != "tabler" && |NamedFamilies[j].family| < 10
  {
  }

  // ------------------------------------------------------------ destinations

  /** `LIBRARY_SLUG_MAP[library] || slugify(library)`. A library named like an
      inherited member (`constructor`, `toString`, ...) finds that member, a
      function or an object that is not a string: `None`. */
  function LibrarySlug(library: string): (r: Option<string>)
    ensures r.None? <==> library in ObjectPrototypeKeys
    ensures r.Some? && library == "PiDEAS" ==> r.value == "pideas"
  {
    if library in ObjectPrototypeKeys then None
    else if library == "Microsoft 365" then Some("microsoft-365")
    else if library == "AI" then Some("ai")
    else if library == "Third Party" then Some("third-party")
    else if library == "SAP" then Some("sap")
    else if library == "Security" then Some("security")
    else if library == "Azure" then Some("azure")
    else if library == "PiDEAS" then Some("pideas")
    else Some(Slugify(library))
  }

  /** Which rule of `main` places a legacy file. */
  datatype Route =
    | PideasRoute
    | LibraryRoute(librarySlug: string, categorySlug: string)
    | SapRoute
    | UiRoute(baseFamily: string, shard: string)
    | UncategorizedRoute(shard1: string, shard2: string)

  /** `/^sap/i` */
  predicate StartsWithSap(fileName: string) {
    Matches(Rule("sap", false, "sap"), fileName)
  }

  /** The per-file decision of `main`, in the order it is made. `None` when
      a known file's library slug is not a string: `path.join` then throws a
      `TypeError` and `main` stops there. */
  function Classify(fileName: string, lookup: map<string, Catalog.CategoryInfo>): Option<Route> {
    if fileName in lookup then
      match LibrarySlug(lookup[fileName].library)
      case None => None
      case Some(slug) =>
        if slug == "pideas" then Some(PideasRoute)
        else Some(LibraryRoute(slug, Slugify(lookup[fileName].categoryName)))
    else if StartsWithSap(fileName) then Some(SapRoute)
    else match UiFamilyFromFile(fileName)
      case Some(family) =>
        Some(UiRoute(if StartsWith(family, "fontawesome-") then "fontawesome" else family, UiShard(fileName, family)))
      case None => Some(UncategorizedRoute(GetShard(fileName, 1), GetShard(fileName, 2)))
  }

  /** `main` can place the file: it stops only at a known file whose
      library is named like an inherited member. */
  predicate Routable(fileName: string, lookup: map<string, Catalog.CategoryInfo>) {
    !(fileName in lookup && lookup[fileName].library in ObjectPrototypeKeys)
  }

  /** `Classify` gives a route exactly for the files `main` can place. */
  lemma RoutableClassified(fileName: string, lookup: map<string, Catalog.CategoryInfo>)
    ensures Classify(fileName, lookup).Some? <==> Routable(fileName, lookup)
  {
  }

  /** A known file is always placed by its category, even when its name also
      starts with `sap` or a UI prefix; `sap` is checked before the UI
      families; only a known file whose library is named like an inherited
      member stops `main`. */
  lemma ClassifyPrecedence(fileName: string, lookup: map<string, Catalog.CategoryInfo>)
    ensures Classify(fileName, lookup).None? <==>
      fileName in lookup && lookup[fileName].library in ObjectPrototypeKeys
    ensures fileName in lookup && Classify(fileName, lookup).Some? ==>
      Classify(fileName, lookup).value.PideasRoute? || Classify(fileName, lookup).value.LibraryRoute?
    ensures fileName !in lookup && StartsWithSap(fileName) ==> Classify(fileName, lookup) == Some(SapRoute)
    ensures Classify(fileName, lookup).Some? && Classify(fileName, lookup).value.UiRoute? <==>
      fileName !in lookup && !StartsWithSap(fileName) && UiFamilyFromFile(fileName).Some?
    ensures Classify(fileName, lookup).Some? && Classify(fileName, lookup).value.UncategorizedRoute? <==>
      fileName !in lookup && !StartsWithSap(fileName) && UiFamilyFromFile(fileName).None?
    ensures Classify(fileName, lookup) == Some(PideasRoute) <==>
      fileName in lookup && LibrarySlug(lookup[fileName].library) == Some("pideas")
  {
  }

  function NonEmpty(segments: seq<string>): (r: seq<string>)
    ensures forall k :: 0 <= k < |r| ==> r[k] != []
    ensures |segments| > 0 && segments[|segments| - 1] != [] ==> |r| > 0 && r[|r| - 1] == segments[|segments| - 1]
  {
    if segments == [] then []
    else if segments[0] == [] then NonEmpty(segments[1..])
    else [segments[0]] + NonEmpty(segments[1..])
  }

  /** `path.join` for segments that are neither `.` nor `..`: empty segments
      vanish. */
  function JoinPath(segments: seq<string>): string {
    Join(NonEmpty(segments), '/')
  }

  /** The icon root, `ICONS_DIR`. */
  const IconsDir: string := "icons"

  function Destination(route: Route, fileName: string): string {
    match route
    case PideasRoute => JoinPath([IconsDir, "pideas", fileName])
    case LibraryRoute(lib, cat) => JoinPath([IconsDir, lib, cat, fileName])
    case SapRoute => JoinPath([IconsDir, "sap", "legacy", fileName])
    case UiRoute(family, shard) => JoinPath([IconsDir, "ui", family, shard, fileName])
    case UncategorizedRoute(s1, s2) => JoinPath([IconsDir, "uncategorized", s1, s2, fileName])
  }

  lemma {:induction false} JoinEndsWithLast(parts: seq<string>, sep: char)
    requires |parts| > 0
    ensures EndsWith(Join(parts, sep), parts[|parts| - 1])
    ensures |parts| > 1 ==> EndsWith(Join(parts, sep), [sep] + parts[|parts| - 1])
  {
    if |parts| > 1 {
      JoinEndsWithLast(parts[1..], sep);
      var rest := Join(parts[1..], sep);
      var last := parts[|parts| - 1];
      assert parts[1..][|parts[1..]| - 1] == last;
      var whole := parts[0] + [sep] + rest;
      assert Join(parts, sep) == whole;
      if |parts| == 2 {
        assert rest == last;
        assert whole[|whole| - |[sep] + last|..] == [sep] + last;
      } else {
        assert rest[|rest| - |[sep] + last|..] == [sep] + last;
        assert whole[|whole| - |[sep] + last|..] == rest[|rest| - |[sep] + last|..];
      }
    }
  }

  /** A joined path ends in `/` and its last segment when that segment and
      the first are not empty. */
  lemma JoinPathEndsWithLast(segments: seq<string>)
    requires |segments| > 1 && segments[0] != [] && segments[|segments| - 1] != []
    ensures EndsWith(JoinPath(segments), "/" + segments[|segments| - 1])
  {
    var parts := NonEmpty(segments);
    assert |parts| > 1 by {
      assert parts == [segments[0]] + NonEmpty(segments[1..]);
      assert segments[1..][|segments[1..]| - 1] == segments[|segments| - 1];
    }
    JoinEndsWithLast(parts, '/');
  }

  /** Every destination ends in `/` and the unchanged file name. */
  lemma DestinationEndsWithFileName(route: Route, fileName: string)
    requires fileName != []
    ensures EndsWith(Destination(route, fileName), "/" + fileName)
  {
    match route {
      case PideasRoute => JoinPathEndsWithLast([IconsDir, "pideas", fileName]);
      case LibraryRoute(lib, cat) => JoinPathEndsWithLast([IconsDir, lib, cat, fileName]);
      case SapRoute => JoinPathEndsWithLast([IconsDir, "sap", "legacy", fileName]);
      case UiRoute(family, shard) => JoinPathEndsWithLast([IconsDir, "ui", family, shard, fileName]);
      case UncategorizedRoute(s1, s2) => JoinPathEndsWithLast([IconsDir, "uncategorized", s1, s2, fileName]);
    }
  }

  // ------------------------------------------------------------------- moves

  /** `LEGACY_DIR` */
  const LegacyDir: string := "icons/m365"

  function LegacyPath(fileName: string): string {
    LegacyDir + "/" + fileName
  }

  /** The parent directory of a path (`path.dirname`). */
  function Dirname(p: string): string {
    match LastIndexOf(p, '/')
    case Some(k) => p[..k]
    case None => "."
  }

  /** A destination lies in the legacy folder itself only when it is the
      file's own legacy path: no move ever targets another legacy file. */
  lemma DestinationNotOtherLegacy(route: Route, fileName: string, other: string)
    requires fileName != [] && '/' !in fileName && '/' !in other
    requires Destination(route, fileName) == LegacyPath(other)
    ensures other == fileName
  {
    DestinationEndsWithFileName(route, fileName);
    var d := LegacyPath(other);
    var n := |fileName|;
    assert d[|d| - n - 1] == '/';
    forall j | 11 <= j < |d| ensures d[j] != '/' {
      assert d[j] == other[j - 11];
    }
    assert d[|d| - n..] == fileName;
    forall j | |d| - n <= j < |d| ensures d[j] != '/' {
      assert d[j] == fileName[j - (|d| - n)];
    }
    assert d[10] == '/';
    assert |d| - n - 1 == 10;
    assert d[11..] == other;
    assert d[|d| - n..] == fileName;
  }

  /** The destination of a file `main` can place. */
  function Target(fileName: string, lookup: map<string, Catalog.CategoryInfo>): string
    requires Routable(fileName, lookup)
  {
    RoutableClassified(fileName, lookup);
    Destination(Classify(fileName, lookup).value, fileName)
  }

  /** How far the file loop of `main` gets through `names`: the first file it
      stops at, or all of them. */
  function Reached(names: seq<string>, lookup: map<string, Catalog.CategoryInfo>): (n: nat)
    ensures n <= |names|
  {
    if names == [] || !Routable(names[0], lookup) then 0
    else 1 + Reached(names[1..], lookup)
  }

  /** The loop stops at the first file it cannot place. */
  lemma {:induction false} ReachedStop(names: seq<string>, lookup: map<string, Catalog.CategoryInfo>, i: nat)
    requires i <= Reached(names, lookup) && i < |names|
    ensures Routable(names[i], lookup) <==> i < Reached(names, lookup)
  {
    if i > 0 {
      ReachedStop(names[1..], lookup, i - 1);
      assert names[1..][i - 1] == names[i];
    }
  }

  /** Every file before the one the loop stops at is placed. */
  lemma {:induction false} ReachedRoutable(names: seq<string>, lookup: map<string, Catalog.CategoryInfo>, k: nat)
    requires k < Reached(names, lookup)
    ensures Routable(names[k], lookup)
  {
    if k > 0 {
      ReachedRoutable(names[1..], lookup, k - 1);
    }
  }

  /** Whether the rename of `fileName` happens, judged against the files
      before the loop: the file is placed, its destination is not its own
      path, nothing is at the destination, and this is not a dry run. */
  predicate Moves(files0: set<string>, fileName: string, lookup: map<string, Catalog.CategoryInfo>, dryRun: bool) {
    && Routable(fileName, lookup)
    && LegacyPath(fileName) != Target(fileName, lookup)
    && Target(fileName, lookup) !in files0
    && !dryRun
  }

  /** The legacy paths the loop renames away. */
  function Vacated(files0: set<string>, names: seq<string>, lookup: map<string, Catalog.CategoryInfo>, dryRun: bool): set<string> {
    set n | n in names && Moves(files0, n, lookup, dryRun) :: LegacyPath(n)
  }

  /** The destinations the loop renames to. */
  function Occupied(files0: set<string>, names: seq<string>, lookup: map<string, Catalog.CategoryInfo>, dryRun: bool): set<string> {
    set n | n in names && Moves(files0, n, lookup, dryRun) :: Target(n, lookup)
  }

  /** The folders `moveFile` creates: the parent of every destination that is
      not the file's own path, dry run or not. */
  function NewDirs(names: seq<string>, lookup: map<string, Catalog.CategoryInfo>): set<string> {
    set n | n in names && Routable(n, lookup) && LegacyPath(n) != Target(n, lookup) :: Dirname(Target(n, lookup))
  }

  /** The files after the loop has handled `names`. */
  function AfterMoves(files0: set<string>, names: seq<string>, lookup: map<string, Catalog.CategoryInfo>, dryRun: bool): set<string> {
    files0 - Vacated(files0, names, lookup, dryRun) + Occupied(files0, names, lookup, dryRun)
  }

  /** The files after one turn of the loop: `moveFile` renames when the
      file is placed, its destination is not its own path, nothing is at the
      destination yet, and this is not a dry run. */
  function Turned(files: set<string>, fileName: string, lookup: map<string, Catalog.CategoryInfo>, dryRun: bool): set<string> {
    if Routable(fileName, lookup) && LegacyPath(fileName) != Target(fileName, lookup)
       && Target(fileName, lookup) !in files && !dryRun
    then files - {LegacyPath(fileName)} + {Target(fileName, lookup)}
    else files
  }

  /** The folders after one turn: `moveFile` creates the destination's parent
      whenever the destination is not the file's own path. */
  function TurnedDirs(dirs: set<string>, fileName: string, lookup: map<string, Catalog.CategoryInfo>): set<string> {
    if Routable(fileName, lookup) && LegacyPath(fileName) != Target(fileName, lookup)
    then dirs + {Dirname(Target(fileName, lookup))}
    else dirs
  }

  /** The files as the loop leaves them, turn after turn. */
  function Replay(files0: set<string>, names: seq<string>, lookup: map<string, Catalog.CategoryInfo>, dryRun: bool): set<string>
    decreases |names|
  {
    if names == [] then files0
    else Turned(Replay(files0, names[..|names| - 1], lookup, dryRun), names[|names| - 1], lookup, dryRun)
  }

  /** The folders as the loop leaves them, turn after turn. */
  function MadeDirs(dirs0: set<string>, names: seq<string>, lookup: map<string, Catalog.CategoryInfo>): set<string>
    decreases |names|
  {
    if names == [] then dirs0
    else TurnedDirs(MadeDirs(dirs0, names[..|names| - 1], lookup), names[|names| - 1], lookup)
  }

  /** One more turn of `Replay` and `MadeDirs`. */
  lemma ReplayStep(files0: set<string>, dirs0: set<string>, names: seq<string>, i: nat,
                   lookup: map<string, Catalog.CategoryInfo>, dryRun: bool)
    requires i < |names|
    ensures Replay(files0, names[..i + 1], lookup, dryRun) ==
      Turned(Replay(files0, names[..i], lookup, dryRun), names[i], lookup, dryRun)
    ensures MadeDirs(dirs0, names[..i + 1], lookup) == TurnedDirs(MadeDirs(dirs0, names[..i], lookup), names[i], lookup)
  {
    assert names[..i + 1][..i] == names[..i];
  }

  /** The files not renamed: the legacy paths the loop leaves in place. */
  function Unmoved(files0: set<string>, names: seq<string>, lookup: map<string, Catalog.CategoryInfo>, dryRun: bool): set<string> {
    set n | n in names && !Moves(files0, n, lookup, dryRun) :: LegacyPath(n)
  }

  /** `names` lists distinct plain file names whose legacy paths exist. */
  predicate Listed(files: set<string>, names: seq<string>) {
    && Distinct(names)
    && forall k :: 0 <= k < |names| ==> names[k] != [] && '/' !in names[k] && LegacyPath(names[k]) in files
  }

  /** ... and they are all the files directly in the legacy folder
      (`readdirSync(LEGACY_DIR)` filtered to files). */
  predicate Listing(files: set<string>, names: seq<string>) {
    && Listed(files, names)
    && forall f :: f in LegacyFiles(files) ==> exists k :: 0 <= k < |names| && f == LegacyPath(names[k])
  }

  /** Two paths ending in `/a` and `/b`, with no `/` in `a` or `b`, are the
      same path only when `a == b`. */
  lemma LastSegment(d: string, a: string, b: string)
    requires '/' !in a && '/' !in b
    requires EndsWith(d, "/" + a) && EndsWith(d, "/" + b)
    ensures a == b
  {
    assert d[|d| - |a| - 1..] == "/" + a;
    assert d[|d| - |b| - 1..] == "/" + b;
    forall j | |d| - |a| <= j < |d| ensures d[j] != '/' {
      assert d[j] == ("/" + a)[j - (|d| - |a| - 1)];
    }
    forall j | |d| - |b| <= j < |d| ensures d[j] != '/' {
      assert d[j] == ("/" + b)[j - (|d| - |b| - 1)];
    }
    assert d[|d| - |a| - 1] == '/';
    assert d[|d| - |b| - 1] == '/';
    assert |a| == |b|;
    assert a == d[|d| - |a|..] == b;
  }

  /** Handling one file touches no other file: distinct names have distinct
      legacy paths and distinct destinations, and no destination is another
      file's legacy path. */
  lemma Apart(a: string, b: string, lookup: map<string, Catalog.CategoryInfo>)
    requires a != b && a != [] && b != [] && '/' !in a && '/' !in b
    ensures LegacyPath(a) != LegacyPath(b)
    ensures Routable(a, lookup) ==> Target(a, lookup) != LegacyPath(b)
    ensures Routable(a, lookup) && Routable(b, lookup) ==> Target(a, lookup) != Target(b, lookup)
  {
    assert LegacyPath(a)[11..] == a;
    assert LegacyPath(b)[11..] == b;
    RoutableClassified(a, lookup);
    RoutableClassified(b, lookup);
    if Routable(a, lookup) {
      if Target(a, lookup) == LegacyPath(b) {
        DestinationNotOtherLegacy(Classify(a, lookup).value, a, b);
      }
      if Routable(b, lookup) {
        DestinationEndsWithFileName(Classify(a, lookup).value, a);
        DestinationEndsWithFileName(Classify(b, lookup).value, b);
        if Target(a, lookup) == Target(b, lookup) {
          LastSegment(Target(a, lookup), a, b);
        }
      }
    }
  }

  lemma VacatedSnoc(files0: set<string>, names: seq<string>, n: string, lookup: map<string, Catalog.CategoryInfo>, dryRun: bool)
    ensures Vacated(files0, names + [n], lookup, dryRun) ==
      Vacated(files0, names, lookup, dryRun) + (if Moves(files0, n, lookup, dryRun) then {LegacyPath(n)} else {})
  {
    var s := names + [n];
    forall m | m in s ensures m in names || m == n { }
    forall m | m in names ensures m in s { }
  }

  lemma OccupiedSnoc(files0: set<string>, names: seq<string>, n: string, lookup: map<string, Catalog.CategoryInfo>, dryRun: bool)
    ensures Occupied(files0, names + [n], lookup, dryRun) ==
      Occupied(files0, names, lookup, dryRun) + (if Moves(files0, n, lookup, dryRun) then {Target(n, lookup)} else {})
  {
    var s := names + [n];
    forall m | m in s ensures m in names || m == n { }
    forall m | m in names ensures m in s { }
  }

  lemma NewDirsSnoc(names: seq<string>, n: string, lookup: map<string, Catalog.CategoryInfo>)
    ensures NewDirs(names + [n], lookup) ==
      NewDirs(names, lookup) + (if Routable(n, lookup) && LegacyPath(n) != Target(n, lookup) then {Dirname(Target(n, lookup))} else {})
  {
    var s := names + [n];
    forall m | m in s ensures m in names || m == n { }
    forall m | m in names ensures m in s { }
  }

  lemma NewDirsStep(names: seq<string>, i: nat, lookup: map<string, Catalog.CategoryInfo>)
    requires i < |names| && Routable(names[i], lookup)
    ensures var n := names[i];
      NewDirs(names[..i + 1], lookup) ==
        NewDirs(names[..i], lookup) + (if LegacyPath(n) != Target(n, lookup) then {Dirname(Target(n, lookup))} else {})
  {
    assert names[..i + 1] == names[..i] + [names[i]];
    NewDirsSnoc(names[..i], names[i], lookup);
  }

  /** Until its turn, a listed file is still at its legacy path. */
  lemma {:induction false} LegacyKept(files0: set<string>, names: seq<string>, i: nat, j: nat,
                                      lookup: map<string, Catalog.CategoryInfo>, dryRun: bool)
    requires Listed(files0, names) && j <= i < |names|
    ensures LegacyPath(names[i]) in Replay(files0, names[..j], lookup, dryRun)
  {
    if j > 0 {
      LegacyKept(files0, names, i, j - 1, lookup, dryRun);
      assert names[..j][..j - 1] == names[..j - 1];
      Apart(names[j - 1], names[i], lookup);
    }
  }

  /** The `i`-th step of the loop, judged against the files it finds,
      renames exactly when `Moves` says so against the files before the
      loop, and brings the closed form one name further. */
  lemma MoveStep(files0: set<string>, names: seq<string>, i: nat, lookup: map<string, Catalog.CategoryInfo>, dryRun: bool)
    requires Listed(files0, names) && i < |names| && Routable(names[i], lookup)
    ensures AfterMoves(files0, names[..i + 1], lookup, dryRun) ==
      Turned(AfterMoves(files0, names[..i], lookup, dryRun), names[i], lookup, dryRun)
  {
    var n := names[i];
    var pre := names[..i];
    assert names[..i + 1] == pre + [n];
    VacatedSnoc(files0, pre, n, lookup, dryRun);
    OccupiedSnoc(files0, pre, n, lookup, dryRun);
    forall m | m in pre
      ensures m != n && m != [] && '/' !in m
    {
      var k :| 0 <= k < i && pre[k] == m;
      assert names[k] == m;
    }
    forall m | m in pre ensures LegacyPath(m) != LegacyPath(n) && LegacyPath(m) != Target(n, lookup) {
      Apart(m, n, lookup);
      Apart(n, m, lookup);
    }
    forall m | m in pre && Routable(m, lookup)
      ensures Target(m, lookup) != LegacyPath(n) && Target(m, lookup) != Target(n, lookup)
    {
      Apart(m, n, lookup);
    }
  }

  /** A destination other than the file's own path is not directly in the
      legacy folder. */
  lemma TargetOutsideLegacy(fileName: string, lookup: map<string, Catalog.CategoryInfo>)
    requires fileName != [] && '/' !in fileName && Routable(fileName, lookup)
    requires LegacyPath(fileName) != Target(fileName, lookup)
    ensures !DirectlyInLegacy(Target(fileName, lookup))
  {
    var t := Target(fileName, lookup);
    RoutableClassified(fileName, lookup);
    if DirectlyInLegacy(t) {
      var other := t[|LegacyDir| + 1..];
      assert t == LegacyPath(other);
      DestinationNotOtherLegacy(Classify(fileName, lookup).value, fileName, other);
      assert false;
    }
  }

  /** No rename lands directly in the legacy folder. */
  lemma OccupiedOutsideLegacy(files0: set<string>, names: seq<string>, lookup: map<string, Catalog.CategoryInfo>, dryRun: bool)
    requires Listed(files0, names)
    ensures forall f :: f in Occupied(files0, names, lookup, dryRun) ==> !DirectlyInLegacy(f)
  {
    forall f | f in Occupied(files0, names, lookup, dryRun) ensures !DirectlyInLegacy(f) {
      var n :| n in names && Moves(files0, n, lookup, dryRun) && f == Target(n, lookup);
      var k :| 0 <= k < |names| && names[k] == n;
      TargetOutsideLegacy(n, lookup);
    }
  }

  /** What is left directly in the legacy folder was never renamed. */
  lemma LeftUnmoved(files0: set<string>, names: seq<string>, lookup: map<string, Catalog.CategoryInfo>, dryRun: bool)
    requires Listing(files0, names)
    ensures forall f :: f in LegacyFiles(AfterMoves(files0, names, lookup, dryRun)) ==> f in Unmoved(files0, names, lookup, dryRun)
  {
    OccupiedOutsideLegacy(files0, names, lookup, dryRun);
    forall f | f in LegacyFiles(AfterMoves(files0, names, lookup, dryRun))
      ensures f in Unmoved(files0, names, lookup, dryRun)
    {
      assert DirectlyInLegacy(f);
      assert f in LegacyFiles(files0);
      var k :| 0 <= k < |names| && f == LegacyPath(names[k]);
      assert names[k] in names;
      assert Moves(files0, names[k], lookup, dryRun) ==> f in Vacated(files0, names, lookup, dryRun);
    }
  }

  /** A file never renamed stays directly in the legacy folder. */
  lemma UnmovedLeft(files0: set<string>, names: seq<string>, lookup: map<string, Catalog.CategoryInfo>, dryRun: bool)
    requires Listed(files0, names)
    ensures forall f :: f in Unmoved(files0, names, lookup, dryRun) ==> f in LegacyFiles(AfterMoves(files0, names, lookup, dryRun))
  {
    forall f | f in Unmoved(files0, names, lookup, dryRun)
      ensures f in LegacyFiles(AfterMoves(files0, names, lookup, dryRun))
    {
      var n :| n in names && !Moves(files0, n, lookup, dryRun) && f == LegacyPath(n);
      var k :| 0 <= k < |names| && names[k] == n;
      forall m | m in names && Moves(files0, m, lookup, dryRun) ensures LegacyPath(m) != f {
        var j :| 0 <= j < |names| && names[j] == m;
        Apart(m, n, lookup);
      }
      assert f[|LegacyDir| + 1..] == n;
    }
  }

  /** After the whole loop, the legacy folder holds exactly the files that
      were not renamed: no destination lands directly in it. */
  lemma RemainingUnmoved(files0: set<string>, names: seq<string>, lookup: map<string, Catalog.CategoryInfo>, dryRun: bool)
    requires Listing(files0, names)
    ensures LegacyFiles(AfterMoves(files0, names, lookup, dryRun)) == Unmoved(files0, names, lookup, dryRun)
  {
    LeftUnmoved(files0, names, lookup, dryRun);
    UnmovedLeft(files0, names, lookup, dryRun);
  }

  /** Before the loop, nothing has moved and no folder is made. */
  lemma NothingYet(files0: set<string>, lookup: map<string, Catalog.CategoryInfo>, dryRun: bool)
    ensures AfterMoves(files0, [], lookup, dryRun) == files0
    ensures NewDirs([], lookup) == {}
  {
  }

  /** Up to where the loop stops, the turn-by-turn files are the closed
      form: the old files less the renamed legacy paths plus their
      destinations. */
  lemma {:induction false} ReplayClosed(files0: set<string>, names: seq<string>, i: nat,
                                        lookup: map<string, Catalog.CategoryInfo>, dryRun: bool)
    requires Listed(files0, names) && i <= Reached(names, lookup)
    ensures Replay(files0, names[..i], lookup, dryRun) == AfterMoves(files0, names[..i], lookup, dryRun)
  {
    if i == 0 {
      assert names[..0] == [];
      NothingYet(files0, lookup, dryRun);
    } else {
      ReplayClosed(files0, names, i - 1, lookup, dryRun);
      ReachedStop(names, lookup, i - 1);
      MoveStep(files0, names, i - 1, lookup, dryRun);
      ReplayStep(files0, {}, names, i - 1, lookup, dryRun);
    }
  }

  /** ... and the turn-by-turn folders are the old ones plus the parents of
      the destinations. */
  lemma {:induction false} MadeDirsClosed(dirs0: set<string>, names: seq<string>, i: nat,
                                          lookup: map<string, Catalog.CategoryInfo>)
    requires i <= Reached(names, lookup)
    ensures MadeDirs(dirs0, names[..i], lookup) == dirs0 + NewDirs(names[..i], lookup)
  {
    if i == 0 {
      assert names[..0] == [];
      NothingYet({}, lookup, false);
    } else {
      MadeDirsClosed(dirs0, names, i - 1, lookup);
      ReachedStop(names, lookup, i - 1);
      NewDirsStep(names, i - 1, lookup);
      ReplayStep({}, dirs0, names, i - 1, lookup, false);
    }
  }

  /** How `main` ends: the legacy folder is missing, a library slug is not
      a string, or the loop finishes and counts what is left. */
  datatype Outcome = LegacyMissing | SlugNotString(fileName: string) | Complete(remaining: nat)

  /** The icon tree: the set of file paths and of directories. */
  class FileSystem {
    var files: set<string>
    var dirs: set<string>
    const dryRun: bool

    constructor (files: set<string>, dirs: set<string>, dryRun: bool)
      ensures this.files == files && this.dirs == dirs && this.dryRun == dryRun
    {
      this.files := files;
      this.dirs := dirs;
      this.dryRun := dryRun;
    }

    /** `moveFile`: creates the target folder, then renames unless the source
        is the target, the target exists, or this is a dry run. A rename never
        overwrites. */
    method MoveFile(src: string, dest: string) returns (moved: bool)
      requires src in files
      modifies this
      ensures moved <==> src != dest && dest !in old(files) && !dryRun
      ensures files == if moved then old(files) - {src} + {dest} else old(files)
      ensures dirs == if src == dest then old(dirs) else old(dirs) + {Dirname(dest)}
      ensures |files| == |old(files)|
    {
      moved := false;
      if src == dest {
        return;
      }
      var destDir := Dirname(dest);
      if destDir !in dirs {
        dirs := dirs + {destDir};
      }
      if dest in files {
        return;
      }
      if dryRun {
        return;
      }
      files := files - {src} + {dest};
      moved := true;
    }

    /** One turn of the file loop of `main`: route the legacy file and move
        it, or report that `main` stops at it. */
    method Place(fileName: string, lookup: map<string, Catalog.CategoryInfo>) returns (placed: bool)
      requires LegacyPath(fileName) in files
      modifies this
      ensures placed <==> Routable(fileName, lookup)
      ensures files == Turned(old(files), fileName, lookup, dryRun)
      ensures dirs == TurnedDirs(old(dirs), fileName, lookup)
      ensures |files| == |old(files)|
    {
      var route := Classify(fileName, lookup);
      RoutableClassified(fileName, lookup);
      if route.None? {
        return false;
      }
      var dest := Destination(route.value, fileName);
      assert dest == Target(fileName, lookup);
      var _ := MoveFile(LegacyPath(fileName), dest);
      placed := true;
    }

    /** The file loop of `main`: each listed legacy file is routed and moved
        in turn, until one whose library slug is not a string stops it. The
        files are the old ones less the renamed legacy paths plus their
        destinations, no file is lost or overwritten, and a dry run moves
        nothing but still creates the folders. */
    method MoveAll(names: seq<string>, lookup: map<string, Catalog.CategoryInfo>) returns (halted: bool)
      requires Listed(files, names)
      modifies this
      ensures halted <==> Reached(names, lookup) < |names|
      ensures files == Replay(old(files), names[..Reached(names, lookup)], lookup, dryRun)
      ensures dirs == MadeDirs(old(dirs), names[..Reached(names, lookup)], lookup)
      ensures |files| == |old(files)|
      ensures dryRun ==> files == old(files)
    {
      var i := 0;
      assert names[..0] == [];
      while i < |names|
        invariant 0 <= i <= Reached(names, lookup)
        invariant files == Replay(old(files), names[..i], lookup, dryRun)
        invariant dirs == MadeDirs(old(dirs), names[..i], lookup)
        invariant |files| == |old(files)|
        invariant dryRun ==> files == old(files)
      {
        ReachedStop(names, lookup, i);
        LegacyKept(old(files), names, i, i, lookup, dryRun);
        ReplayStep(old(files), old(dirs), names, i, lookup, dryRun);
        var placed := Place(names[i], lookup);
        if !placed {
          return true;
        }
        i := i + 1;
      }
      assert names[..i] == names;
      return false;
    }

    /** `main`: fails when the legacy folder is missing; otherwise moves the
        listed legacy files, stops with a `TypeError` at a file whose library
        slug is not a string, or counts the files left directly in the legacy
        folder and removes the folder with everything under it when none is
        left and this is not a dry run. */
    method Reorganize(cats: seq<Catalog.CategoryData>, names: seq<string>) returns (outcome: Outcome)
      requires Listing(files, names)
      modifies this
      ensures outcome.LegacyMissing? <==> LegacyDir !in old(dirs)
      ensures outcome.LegacyMissing? ==> files == old(files) && dirs == old(dirs)
      ensures var lookup := Catalog.Lookup(cats);
        var reached := Reached(names, lookup);
        var moved := AfterMoves(old(files), names[..reached], lookup, dryRun);
        var made := old(dirs) + NewDirs(names[..reached], lookup);
        && (outcome.SlugNotString? ==>
             reached < |names| && outcome.fileName == names[reached] && files == moved && dirs == made)
        && (outcome.Complete? ==>
             && reached == |names|
             && outcome.remaining == |LegacyFiles(moved)|
             && outcome.remaining == |Unmoved(old(files), names, lookup, dryRun)|
             && files == (if outcome.remaining == 0 && !dryRun then RemoveLegacyTree(moved) else moved)
             && dirs == (if outcome.remaining == 0 && !dryRun then RemoveLegacyDirs(made) else made))
      ensures LegacyDir in old(dirs) ==> (outcome.SlugNotString? <==> Reached(names, Catalog.Lookup(cats)) < |names|)
      ensures outcome.Complete? && (outcome.remaining > 0 || dryRun) ==> |files| == |old(files)|
      ensures outcome.Complete? && outcome.remaining == 0 && !dryRun ==> forall f :: f in files ==> !UnderLegacy(f)
    {
      if LegacyDir !in dirs {
        return LegacyMissing;
      }
      var lookup := Catalog.BuildLookup(cats);
      var halted := MoveAll(names, lookup);
      ReplayClosed(old(files), names, Reached(names, lookup), lookup, dryRun);
      MadeDirsClosed(old(dirs), names, Reached(names, lookup), lookup);
      if halted {
        return SlugNotString(names[Reached(names, lookup)]);
      }
      assert names[..|names|] == names;
      RemainingUnmoved(old(files), names, lookup, dryRun);
      var remaining := |LegacyFiles(files)|;
      if remaining == 0 && !dryRun {
        files := RemoveLegacyTree(files);
        dirs := RemoveLegacyDirs(dirs);
      }
      outcome := Complete(remaining);
    }

    /** `main` with the removal guarded by the whole legacy tree rather than
        by its top level: the folder goes only when no file at all is left
        under it, so no file is ever lost. */
    method ReorganizeKeepingMoved(cats: seq<Catalog.CategoryData>, names: seq<string>) returns (outcome: Outcome)
      requires Listing(files, names)
      modifies this
      ensures outcome.LegacyMissing? <==> LegacyDir !in old(dirs)
      ensures outcome.LegacyMissing? ==> files == old(files) && dirs == old(dirs)
      ensures var lookup := Catalog.Lookup(cats);
        var reached := Reached(names, lookup);
        var moved := AfterMoves(old(files), names[..reached], lookup, dryRun);
        var made := old(dirs) + NewDirs(names[..reached], lookup);
        && (outcome.SlugNotString? ==>
             reached < |names| && outcome.fileName == names[reached] && files == moved && dirs == made)
        && (outcome.Complete? ==>
             && reached == |names|
             && outcome.remaining == |LegacyFiles(moved)|
             && files == moved
             && dirs == (if !dryRun && NoneUnderLegacy(moved) then RemoveLegacyDirs(made) else made))
      ensures LegacyDir in old(dirs) ==> (outcome.SlugNotString? <==> Reached(names, Catalog.Lookup(cats)) < |names|)
      ensures |files| == |old(files)|
    {
      if LegacyDir !in dirs {
        return LegacyMissing;
      }
      var lookup := Catalog.BuildLookup(cats);
      var halted := MoveAll(names, lookup);
      ReplayClosed(old(files), names, Reached(names, lookup), lookup, dryRun);
      MadeDirsClosed(old(dirs), names, Reached(names, lookup), lookup);
      if halted {
        return SlugNotString(names[Reached(names, lookup)]);
      }
      assert names[..|names|] == names;
      var remaining := |LegacyFiles(files)|;
      if !dryRun && NoneUnderLegacy(files) {
        dirs := RemoveLegacyDirs(dirs);
      }
      outcome := Complete(remaining);
    }
  }

  /** No file lies anywhere under the legacy folder. */
  predicate NoneUnderLegacy(files: set<string>) {
    forall f :: f in files ==> !UnderLegacy(f)
  }

  /** `rmSync(LEGACY_DIR, { recursive: true })` on the folders: the legacy
      folder and every folder under it go. */
  function RemoveLegacyDirs(dirs: set<string>): (r: set<string>)
    ensures forall d :: d in r <==> d in dirs && d != LegacyDir && !UnderLegacy(d)
  {
    set d | d in dirs && d != LegacyDir && !UnderLegacy(d)
  }

  /** `rmSync(LEGACY_DIR, { recursive: true })` on the files: everything
      under the legacy folder goes. */
  function RemoveLegacyTree(files: set<string>): (r: set<string>)
    ensures forall f :: f in r <==> f in files && !UnderLegacy(f)
  {
    set f | f in files && !UnderLegacy(f)
  }

  lemma JoinFour(a: string, b: string, c: string, d: string)
    requires a != [] && b != [] && c != [] && d != []
    ensures JoinPath([a, b, c, d]) == a + "/" + (b + "/" + (c + "/" + d))
  {
    var segments := [a, b, c, d];
    assert segments[1..][1..] == segments[2..];
    assert segments[2..][1..] == segments[3..];
    assert NonEmpty(segments) == segments by {
      assert NonEmpty(segments[3..]) == segments[3..];
      assert NonEmpty(segments[2..]) == segments[2..];
      assert NonEmpty(segments[1..]) == segments[1..];
    }
    assert Join(segments[3..], '/') == d;
    assert Join(segments[2..], '/') == c + "/" + d;
    assert Join(segments[1..], '/') == b + "/" + (c + "/" + d);
  }

  lemma LegacyDirIsM365()
    ensures IconsDir + "/" + "m365" == LegacyDir
  {
  }

  /** A four-character alphanumeric library name is none of the names with
      a fixed folder, so its folder is its lower-case form. */
  lemma AlnumLibrarySlug(library: string)
    requires |library| == 4 && forall i :: 0 <= i < |library| ==> IsAlnum(library[i])
    ensures LibrarySlug(library) == Some(Lower(library))
  {
    SlugifyAlnum(library);
  }

  /** `M365` is such a name. */
  lemma M365Lower()
    ensures Lower("M365") == "m365"
  {
    var lib := Lower("M365");
    assert |lib| == 4 && lib[0] == 'm' && lib[1] == '3' && lib[2] == '6' && lib[3] == '5';
  }

  /** The route of a file with a known category: `main` stops at it when
      its library is named like an inherited member, and otherwise files it
      under its library and category, unless the library is PiDEAS. */
  lemma ClassifyKnown(fileName: string, lookup: map<string, Catalog.CategoryInfo>)
    requires fileName in lookup && LibrarySlug(lookup[fileName].library) != Some("pideas")
    ensures Classify(fileName, lookup).None? <==> lookup[fileName].library in ObjectPrototypeKeys
    ensures lookup[fileName].library !in ObjectPrototypeKeys ==>
      Classify(fileName, lookup) ==
        Some(LibraryRoute(LibrarySlug(lookup[fileName].library).value, Slugify(lookup[fileName].categoryName)))
  {
  }

  /** As written, the removal can delete a file the loop has just moved: a
      file whose category's library is `M365` (in any case) is routed to
      `icons/m365/<category>/`, below the legacy folder. The top-level count
      does not see it, so `remaining` can be 0, and the recursive removal
      takes the file with it. */
  lemma LegacyCleanupDeletesRoutedFile(fileName: string, category: string, library: string)
    requires fileName != [] && '/' !in fileName
    requires category != [] && forall i :: 0 <= i < |category| ==> IsAlnum(category[i])
    requires |library| == 4 && forall i :: 0 <= i < |library| ==> IsAlnum(library[i])
    requires Lower(library) == "m365"
    ensures var lookup := map[fileName := Catalog.CategoryInfo(category, library, "", false)];
      var dest := Destination(Classify(fileName, lookup).value, fileName);
      && Classify(fileName, lookup).Some?
      && UnderLegacy(dest)
      && dest !in LegacyFiles({dest})
      && RemoveLegacyTree({dest}) == {}
  {
    var lookup := map[fileName := Catalog.CategoryInfo(category, library, "", false)];
    AlnumLibrarySlug(library);
    SlugifyAlnum(category);
    var cat := Lower(category);
    assert '/' !in cat;
    ClassifyKnown(fileName, lookup);
    M365Destination(cat, fileName);
  }

  /** Where a file of library slug `m365` lands: in a sub-folder of the
      legacy folder. */
  lemma M365Destination(cat: string, fileName: string)
    requires cat != [] && '/' !in cat && fileName != []
    ensures var dest := Destination(LibraryRoute("m365", cat), fileName);
      UnderLegacy(dest) && '/' in dest[|LegacyDir| + 1..]
  {
    JoinFour(IconsDir, "m365", cat, fileName);
    LegacyDirIsM365();
    var dest := Destination(LibraryRoute("m365", cat), fileName);
    var tail := cat + "/" + fileName;
    assert dest == LegacyDir + "/" + tail;
    assert dest[|LegacyDir| + 1..] == tail;
    assert tail[|cat|] == '/';
  }

  /** A path strictly inside the legacy folder. */
  predicate UnderLegacy(p: string) {
    StartsWith(p, LegacyDir + "/")
  }

  /** The files directly in the legacy folder (`readdirSync` filtered to
      files). */
  function LegacyFiles(files: set<string>): set<string> {
    set f | f in files && DirectlyInLegacy(f)
  }

  /** A path directly in the legacy folder. */
  predicate DirectlyInLegacy(p: string) {
    UnderLegacy(p) && '/' !in p[|LegacyDir| + 1..]
  }
}
