/** The viewer's state over the loaded catalog: the search text and size
    families `loadData` adds to every record, the filter of `applyFilters`,
    the page window of `renderIcons`, and the tag lists of cards and of the
    detail view. */
module ViewerApp {
  import opened Text
  import opened Seqs
  import opened Viewer

  /** A catalog record as the viewer reads it; absent or null text fields
      are the empty string. */
  datatype Icon = Icon(
    id: string, name: string, title: string, fileName: string, path: string,
    extension: string, category: string, collection: string, library: string,
    source: string, brandOwner: string, description: string, license: string,
    style: string, uiSet: string, tags: seq<string>, isNew: bool)

  /** A record with what the first pass of `loadData` adds to it. */
  datatype Enriched = Enriched(icon: Icon, sizeVariant: Option<nat>, familyKey: string, search: string)

  /** A record as it sits in `state.catalog`: with its size family. */
  datatype Entry = Entry(base: Enriched, sizeVariants: seq<nat>, familyCount: nat) {
    function Icon(): Icon { base.icon }
  }

  // ------------------------------------------------------------ search text

  /** `filter(Boolean)` on strings. */
  function NonEmptyStrings(s: seq<string>): (r: seq<string>)
    ensures |r| <= |s|
    ensures forall x :: x in r <==> x in s && x != []
  {
    if s == [] then []
    else (if s[0] != [] then [s[0]] else []) + NonEmptyStrings(s[1..])
  }

  lemma {:induction false} NonEmptyAppend(a: seq<string>, b: seq<string>)
    ensures NonEmptyStrings(a + b) == NonEmptyStrings(a) + NonEmptyStrings(b)
    decreases |a|
  {
    if a != [] {
      assert (a + b)[1..] == a[1..] + b;
      assert (a + b)[0] == a[0];
      NonEmptyAppend(a[1..], b);
      var h := if a[0] != [] then [a[0]] else [];
      assert h + NonEmptyStrings(a[1..]) + NonEmptyStrings(b) == h + (NonEmptyStrings(a[1..]) + NonEmptyStrings(b));
    } else {
      assert a + b == b;
    }
  }

  /** The fields that feed the search text, in the order they are joined. */
  function SearchFields(icon: Icon): seq<string> {
    [icon.title, icon.name, icon.fileName, icon.category, icon.collection, icon.library,
     icon.source, icon.brandOwner, icon.description, icon.license, icon.style, icon.uiSet]
    + icon.tags
  }

  /** The lower-cased, space-joined non-empty search fields. */
  function SearchText(icon: Icon): (r: string)
    ensures forall i :: 0 <= i < |r| ==> !IsUpper(r[i])
  {
    var joined := Join(NonEmptyStrings(SearchFields(icon)), ' ');
    LowerNoUpper(joined);
    Lower(joined)
  }

  lemma {:induction false} JoinContains(parts: seq<string>, sep: char, k: nat)
    requires k < |parts|
    ensures Contains(Join(parts, sep), parts[k])
    decreases |parts|
  {
    var j := Join(parts, sep);
    if k == 0 {
      assert parts[0] <= j[0..];
    } else {
      var rest := Join(parts[1..], sep);
      JoinContains(parts[1..], sep, k - 1);
      var i :| 0 <= i <= |rest| && parts[k] <= rest[i..];
      var off := |parts[0]| + 1;
      assert j == parts[0] + [sep] + rest;
      assert j[off + i..] == rest[i..];
    }
  }

  lemma LowerContains(s: string, t: string)
    requires Contains(s, t)
    ensures Contains(Lower(s), Lower(t))
  {
    var i :| 0 <= i <= |s| && t <= s[i..];
    assert Lower(t) <= Lower(s)[i..];
  }

  /** Every search field, lower-cased, occurs in the search text, so a
      token taken from any field finds its icon. */
  lemma SearchTextFinds(icon: Icon, f: string)
    requires f in SearchFields(icon)
    ensures Contains(SearchText(icon), Lower(f))
  {
    var s := SearchText(icon);
    if f == [] {
      assert Lower(f) <= s[0..];
    } else {
      var parts := NonEmptyStrings(SearchFields(icon));
      assert f in parts;
      var k :| 0 <= k < |parts| && parts[k] == f;
      JoinContains(parts, ' ', k);
      LowerContains(Join(parts, ' '), f);
    }
  }

  lemma ContainsTrans(s: string, t: string, u: string)
    requires Contains(s, t) && Contains(t, u)
    ensures Contains(s, u)
  {
    var i :| 0 <= i <= |s| && t <= s[i..];
    var j :| 0 <= j <= |t| && u <= t[j..];
    assert u <= s[i + j..];
  }

  /** A search token that occurs in any search field, lower-cased, occurs
      in the icon's search text. */
  lemma SearchTokenFinds(icon: Icon, f: string, token: string)
    requires f in SearchFields(icon)
    requires Contains(Lower(f), token)
    ensures Contains(SearchText(icon), token)
  {
    SearchTextFinds(icon, f);
    ContainsTrans(SearchText(icon), Lower(f), token);
  }

  // ----------------------------------------------------------------- words

  predicate IsWord(w: string) {
    w != [] && forall i :: 0 <= i < |w| ==> !IsSpace(w[i])
  }

  /** Length of the run of non-space characters that starts `s`. */
  function WordLength(s: string): (n: nat)
    ensures n <= |s|
    ensures forall i :: 0 <= i < n ==> !IsSpace(s[i])
    ensures n < |s| ==> IsSpace(s[n])
  {
    if s != [] && !IsSpace(s[0]) then 1 + WordLength(s[1..]) else 0
  }

  /** `s.split(/\s+/).filter(Boolean)`: the maximal runs of non-space
      characters, in order. */
  function Words(s: string): (r: seq<string>)
    ensures forall w :: w in r ==> IsWord(w)
    decreases |s|
  {
    if s == [] then []
    else if IsSpace(s[0]) then Words(s[1..])
    else
      var n := WordLength(s);
      [s[..n]] + Words(s[n..])
  }

  function Concat(ws: seq<string>): string {
    if ws == [] then [] else ws[0] + Concat(ws[1..])
  }

  function DropSpaces(s: string): string {
    if s == [] then [] else (if IsSpace(s[0]) then [] else [s[0]]) + DropSpaces(s[1..])
  }

  lemma {:induction false} DropSpacesAppend(a: string, b: string)
    ensures DropSpaces(a + b) == DropSpaces(a) + DropSpaces(b)
    decreases |a|
  {
    if a != [] {
      assert (a + b)[1..] == a[1..] + b;
      DropSpacesAppend(a[1..], b);
    } else {
      assert a + b == b;
    }
  }

  lemma {:induction false} DropSpacesOfWord(w: string)
    requires forall i :: 0 <= i < |w| ==> !IsSpace(w[i])
    ensures DropSpaces(w) == w
    decreases |w|
  {
    if w != [] {
      DropSpacesOfWord(w[1..]);
      assert [w[0]] + w[1..] == w;
    }
  }

  /** Splitting loses exactly the white space: the words put back together
      are the input without its spaces. */
  lemma {:induction false} WordsSpec(s: string)
    ensures Concat(Words(s)) == DropSpaces(s)
    decreases |s|
  {
    if s != [] {
      if IsSpace(s[0]) {
        WordsSpec(s[1..]);
      } else {
        var n := WordLength(s);
        WordsSpec(s[n..]);
        assert s == s[..n] + s[n..];
        DropSpacesAppend(s[..n], s[n..]);
        DropSpacesOfWord(s[..n]);
        assert ([s[..n]] + Words(s[n..]))[1..] == Words(s[n..]);
      }
    }
  }

  /** The search tokens of `applyFilters`: the words of the trimmed,
      lower-cased search box. */
  function SearchTokens(search: string): (r: seq<string>)
    ensures forall t :: t in r ==> IsWord(t)
  {
    var value := Lower(Trim(search));
    if value == [] then [] else Words(value)
  }

  lemma {:induction false} WordLengthSplit(a: string, c: char, b: string)
    requires IsSpace(c)
    ensures WordLength(a + [c] + b) == WordLength(a)
    decreases |a|
  {
    if a != [] && !IsSpace(a[0]) {
      assert (a + [c] + b)[1..] == a[1..] + [c] + b;
      WordLengthSplit(a[1..], c, b);
    }
  }

  /** The words are maximal: a white-space character splits the word list
      in two. */
  lemma {:induction false} WordsSplit(a: string, c: char, b: string)
    requires IsSpace(c)
    ensures Words(a + [c] + b) == Words(a) + Words(b)
    decreases |a|
  {
    var s := a + [c] + b;
    if a == [] {
      assert s[1..] == b;
    } else if IsSpace(a[0]) {
      assert s[1..] == a[1..] + [c] + b;
      WordsSplit(a[1..], c, b);
    } else {
      var n := WordLength(a);
      WordLengthSplit(a, c, b);
      assert s[..n] == a[..n];
      assert s[n..] == a[n..] + [c] + b;
      WordsSplit(a[n..], c, b);
    }
  }

  /** A word is one search token, whole. */
  lemma WordsOfWord(w: string)
    requires IsWord(w)
    ensures Words(w) == [w]
  {
    assert w[..|w|] == w && w[|w|..] == [];
  }

  lemma {:induction false} WordsSkipSpaces(p: string, x: string)
    requires forall i :: 0 <= i < |p| ==> IsSpace(p[i])
    ensures Words(p + x) == Words(x)
    decreases |p|
  {
    if p != [] {
      assert (p + x)[1..] == p[1..] + x;
      WordsSkipSpaces(p[1..], x);
    } else {
      assert p + x == x;
    }
  }

  lemma WordsPadded(p: string, x: string, q: string)
    requires AllSpaces(p) && AllSpaces(q)
    ensures Words(p + x + q) == Words(x)
  {
    assert p + x + q == p + (x + q);
    WordsSkipSpaces(p, x + q);
    if q != [] {
      assert x + q == x + [q[0]] + q[1..];
      WordsSplit(x, q[0], q[1..]);
      WordsSkipSpaces(q[1..], []);
      assert q[1..] + [] == q[1..];
    } else {
      assert x + q == x;
    }
  }

  lemma LowerThree(a: string, b: string, c: string)
    ensures Lower(a + b + c) == Lower(a) + Lower(b) + Lower(c)
  {
    assert |Lower(a + b + c)| == |Lower(a) + Lower(b) + Lower(c)|;
  }

  lemma LowerSpaces(p: string)
    requires AllSpaces(p)
    ensures AllSpaces(Lower(p))
  {
  }

  predicate AllSpaces(s: string) {
    forall i :: 0 <= i < |s| ==> IsSpace(s[i])
  }

  lemma TrimSplit(s: string) returns (p: string, q: string)
    ensures s == p + Trim(s) + q
    ensures AllSpaces(p) && AllSpaces(q)
  {
    var l := LeadingSpaces(s);
    var t := s[l..];
    var k := |t| - TrailingSpaces(t);
    p, q := s[..l], t[k..];
    assert Trim(s) == t[..k];
    LeadingAllSpaces(s);
    TrailingAllSpaces(t);
    assert t == t[..k] + q;
    assert s == p + t;
  }

  lemma LeadingAllSpaces(s: string)
    ensures AllSpaces(s[..LeadingSpaces(s)])
  {
    var p := s[..LeadingSpaces(s)];
    forall i | 0 <= i < |p| ensures IsSpace(p[i]) {
      assert p[i] == s[i];
    }
  }

  lemma TrailingAllSpaces(t: string)
    ensures AllSpaces(t[|t| - TrailingSpaces(t)..])
  {
    var k := |t| - TrailingSpaces(t);
    var q := t[k..];
    forall i | 0 <= i < |q| ensures IsSpace(q[i]) {
      assert q[i] == t[k + i];
    }
  }

  /** Trimming the search box first changes nothing: the search tokens are
      the words of the lower-cased search text. */
  lemma SearchTokensWords(search: string)
    ensures SearchTokens(search) == Words(Lower(search))
  {
    var p, q := TrimSplit(search);
    var m := Trim(search);
    LowerThree(p, m, q);
    LowerSpaces(p);
    LowerSpaces(q);
    WordsPadded(Lower(p), Lower(m), Lower(q));
  }

  // ---------------------------------------------------------------- filters

  /** `state.filters` */
  datatype Filters = Filters(search: string, collection: string, category: string, svg: bool, png: bool)

  const DefaultFilters: Filters := Filters("", "all", "all", true, true)

  /** The extension is in the set the two check boxes allow. */
  predicate ExtensionAllowed(f: Filters, ext: string) {
    (f.svg && ext == "svg") || (f.png && ext == "png")
  }

  /** The predicate `applyFilters` hands to `filter`; `tokens` are the
      search tokens, computed once before filtering. */
  predicate Matches(f: Filters, tokens: seq<string>, e: Entry) {
    var icon := e.Icon();
    && (f.collection == "all" || icon.collection == f.collection)
    && (f.category == "all" || icon.category == f.category)
    && ExtensionAllowed(f, icon.extension)
    && (forall t :: t in tokens ==> Contains(e.base.search, t))
  }

  /** `state.catalog.filter(...)`, with `tokens == SearchTokens(f.search)`. */
  function FilterIcons(s: seq<Entry>, f: Filters, tokens: seq<string>): (r: seq<Entry>)
    ensures |r| <= |s|
    ensures forall e :: e in r <==> e in s && Matches(f, tokens, e)
    ensures !f.svg && !f.png ==> r == []
  {
    var r := Filter(s, e => Matches(f, tokens, e));
    assert r != [] ==> r[0] in r;
    r
  }

  /** Filtering keeps the catalog order: filtering a concatenation filters
      each part. */
  lemma FilterIconsAppend(a: seq<Entry>, b: seq<Entry>, f: Filters, tokens: seq<string>)
    ensures FilterIcons(a + b, f, tokens) == FilterIcons(a, f, tokens) + FilterIcons(b, f, tokens)
  {
    FilterAppend(a, b, e => Matches(f, tokens, e));
  }

  /** Applying the same filters again changes nothing. */
  lemma FilterIdempotent(s: seq<Entry>, f: Filters, tokens: seq<string>)
    ensures FilterIcons(FilterIcons(s, f, tokens), f, tokens) == FilterIcons(s, f, tokens)
  {
    FilterKeepsAll(FilterIcons(s, f, tokens), e => Matches(f, tokens, e));
  }

  // ----------------------------------------------------------- page window

  /** `PAGE_SIZE` */
  const PageSize: nat := 180

  function Min(a: nat, b: nat): nat {
    if a <= b then a else b
  }

  /** `filtered.slice(start, Math.min(start + PAGE_SIZE, filtered.length))`
      with `start = page * PAGE_SIZE`. */
  function PageWindow<T>(s: seq<T>, page: nat): (r: seq<T>)
    ensures |r| <= PageSize
    ensures r != [] <==> page * PageSize < |s|
    ensures r == s[Min(page * PageSize, |s|)..Min(page * PageSize + PageSize, |s|)]
  {
    var start := page * PageSize;
    var end := Min(start + PageSize, |s|);
    if start < end then s[start..end] else []
  }

  /** The first `pages` pages of `s`. */
  function Shown<T>(s: seq<T>, pages: nat): seq<T> {
    s[..Min(pages * PageSize, |s|)]
  }

  /** One more page extends what is shown by the next window. */
  lemma PageExtends<T>(s: seq<T>, page: nat)
    ensures Shown(s, page) + PageWindow(s, page) == Shown(s, page + 1)
  {
    var a := Min(page * PageSize, |s|);
    var b := Min(page * PageSize + PageSize, |s|);
    assert (page + 1) * PageSize == page * PageSize + PageSize;
    assert s[..a] + s[a..b] == s[..b];
  }

  /** The windows of pages `0 .. pages - 1`, one after the other. */
  function Pages<T>(s: seq<T>, pages: nat): seq<T> {
    if pages == 0 then [] else Pages(s, pages - 1) + PageWindow(s, pages - 1)
  }

  /** Loading page after page shows a prefix of the list, without gaps or
      repeats, and every icon once the pages cover it. */
  lemma {:induction false} PagesArePrefix<T>(s: seq<T>, pages: nat)
    ensures Pages(s, pages) == Shown(s, pages)
    ensures pages * PageSize >= |s| ==> Pages(s, pages) == s
  {
    if pages > 0 {
      PagesArePrefix(s, pages - 1);
      PageExtends(s, pages - 1);
    } else {
      assert Shown(s, 0) == [];
    }
    if pages * PageSize >= |s| {
      assert Min(pages * PageSize, |s|) == |s|;
      assert s[..|s|] == s;
    }
  }

  // -------------------------------------------------------------- families

  /** The text the size recognisers read: `icon.fileName || icon.path || ''`. */
  function SizeSource(icon: Icon): string {
    Or(icon.fileName, icon.path)
  }

  /** The first pass of `loadData` over one record. */
  function Enrich(icon: Icon): (e: Enriched)
    ensures e.icon == icon
    ensures e.sizeVariant.Some? ==> e.sizeVariant.value in KnownSizes
    ensures forall i :: 0 <= i < |e.familyKey| ==> !IsUpper(e.familyKey[i])
  {
    var source := SizeSource(icon);
    Enriched(icon, ParseSizeVariant(source), BuildFamilyKey(source), SearchText(icon))
  }

  function EnrichAll(raw: seq<Icon>): (es: seq<Enriched>)
    ensures |es| == |raw|
    ensures forall i :: 0 <= i < |raw| ==> es[i] == Enrich(raw[i])
  {
    seq(|raw|, i requires 0 <= i < |raw| => Enrich(raw[i]))
  }

  /** `icon.familyKey || icon.name || icon.fileName || icon.path || ''` */
  function GroupKey(e: Enriched): string {
    Or(e.familyKey, Or(e.icon.name, Or(e.icon.fileName, e.icon.path)))
  }

  /** An entry of `familyIndex`: the set of sizes seen, in insertion order,
      and the number of icons. */
  datatype Family = Family(sizes: seq<nat>, count: nat)

  /** `if (icon.sizeVariant) entry.sizes.add(...)`, then `entry.count += 1`. */
  function AddToFamily(f: Family, size: Option<nat>): Family {
    Family(if size.Some? && size.value !in f.sizes then f.sizes + [size.value] else f.sizes, f.count + 1)
  }

  /** One visit of the `forEach`: the icon's family, created empty when
      missing, takes the icon. */
  function AddToIndex(m: map<string, Family>, e: Enriched): map<string, Family> {
    var k := GroupKey(e);
    m[k := AddToFamily(if k in m then m[k] else Family([], 0), e.sizeVariant)]
  }

  /** `familyIndex` after the `forEach` has visited every icon of `es`. */
  function FamilyIndex(es: seq<Enriched>): map<string, Family> {
    if es == [] then map[]
    else AddToIndex(FamilyIndex(es[..|es| - 1]), es[|es| - 1])
  }

  /** Number of icons of `es` in the family `k`. */
  function KeyCount(es: seq<Enriched>, k: string): nat {
    if es == [] then 0
    else KeyCount(es[..|es| - 1], k) + (if GroupKey(es[|es| - 1]) == k then 1 else 0)
  }

  /** The size variants of the icons of family `k`, in catalog order. */
  function KeySizes(es: seq<Enriched>, k: string): seq<nat> {
    if es == [] then []
    else
      var e := es[|es| - 1];
      KeySizes(es[..|es| - 1], k) + (if GroupKey(e) == k && e.sizeVariant.Some? then [e.sizeVariant.value] else [])
  }

  lemma KeyCountPositive(es: seq<Enriched>, i: nat)
    requires i < |es|
    ensures KeyCount(es, GroupKey(es[i])) > 0
    decreases |es|
  {
    if i < |es| - 1 {
      KeyCountPositive(es[..|es| - 1], i);
    }
  }

  /** Each family of the index counts exactly the icons with its key and
      holds each of their size variants once, in first-seen order; a key
      is in the index exactly when some icon has it. */
  lemma {:induction false} FamilyIndexSpec(es: seq<Enriched>, k: string)
    ensures k in FamilyIndex(es) <==> KeyCount(es, k) > 0
    ensures k in FamilyIndex(es) ==> FamilyIndex(es)[k] == Family(Dedup(KeySizes(es, k)), KeyCount(es, k))
  {
    if es != [] {
      var p := es[..|es| - 1];
      FamilyIndexSpec(p, k);
      var e := es[|es| - 1];
      var m := FamilyIndex(p);
      var key := GroupKey(e);
      var before := if key in m then m[key] else Family([], 0);
      assert FamilyIndex(es) == m[key := AddToFamily(before, e.sizeVariant)];
      if key == k {
        var sizes := KeySizes(p, k);
        if KeyCount(p, k) == 0 {
          KeySizesEmpty(p, k);
          assert Dedup(sizes) == [];
        }
        AddToFamilySpec(before, sizes, KeyCount(p, k), e.sizeVariant);
        assert KeySizes(es, k) == sizes + (if e.sizeVariant.Some? then [e.sizeVariant.value] else []);
      } else {
        assert KeyCount(es, k) == KeyCount(p, k);
        assert KeySizes(es, k) == KeySizes(p, k);
      }
    }
  }

  /** Adding one icon to a family whose sizes are the deduplicated list of
      sizes so far. */
  lemma AddToFamilySpec(before: Family, sizes: seq<nat>, count: nat, size: Option<nat>)
    requires before == Family(Dedup(sizes), count)
    ensures AddToFamily(before, size) ==
      Family(Dedup(sizes + (if size.Some? then [size.value] else [])), count + 1)
  {
    if size.Some? {
      var v := size.value;
      assert (sizes + [v])[..|sizes|] == sizes;
    } else {
      assert sizes + [] == sizes;
    }
  }

  lemma {:induction false} KeySizesEmpty(es: seq<Enriched>, k: string)
    requires KeyCount(es, k) == 0
    ensures KeySizes(es, k) == []
  {
    if es != [] {
      KeySizesEmpty(es[..|es| - 1], k);
    }
  }

  /** `familyIndex` is built by a `forEach` that updates one entry per icon. */
  method BuildFamilyIndex(es: seq<Enriched>) returns (index: map<string, Family>)
    ensures index == FamilyIndex(es)
  {
    index := map[];
    var i := 0;
    while i < |es|
      invariant 0 <= i <= |es|
      invariant index == FamilyIndex(es[..i])
    {
      index := AddIcon(index, es[i]);
      assert es[..i + 1][..i] == es[..i];
      i := i + 1;
    }
    assert es[..|es|] == es;
  }

  /** The body of the `forEach`: fetch or create the entry, add the size
      when new, bump the count. */
  method AddIcon(index: map<string, Family>, e: Enriched) returns (index': map<string, Family>)
    ensures index' == AddToIndex(index, e)
  {
    var key := GroupKey(e);
    var entry := if key in index then index[key] else Family([], 0);
    if e.sizeVariant.Some? && e.sizeVariant.value !in entry.sizes {
      entry := entry.(sizes := entry.sizes + [e.sizeVariant.value]);
    }
    entry := entry.(count := entry.count + 1);
    index' := index[key := entry];
  }

  /** `sort((a, b) => a - b)` on the sizes. */
  function Ascending(sizes: seq<nat>): seq<nat> {
    Sort(sizes, (a: nat, b: nat) => a <= b)
  }

  lemma {:induction false} DistinctMultiset<T>(s: seq<T>)
    ensures Distinct(s) <==> forall x :: multiset(s)[x] <= 1
  {
    if s != [] {
      var p := s[..|s| - 1];
      var last := s[|s| - 1];
      DistinctMultiset(p);
      assert s == p + [last];
      assert Distinct(s) <==> Distinct(p) && last !in p;
      assert forall x :: multiset(s)[x] == multiset(p)[x] + (if x == last then 1 else 0);
    }
  }

  /** The sorted sizes rise strictly and are the family's sizes. */
  lemma AscendingSpec(sizes: seq<nat>)
    requires Distinct(sizes)
    ensures var r := Ascending(sizes);
      && (forall i, j :: 0 <= i < j < |r| ==> r[i] < r[j])
      && (forall x :: x in r <==> x in sizes)
  {
    var leq := (a: nat, b: nat) => a <= b;
    var r := Ascending(sizes);
    SortSorted(sizes, leq);
    DistinctMultiset(sizes);
    DistinctMultiset(r);
    forall x ensures x in r <==> x in sizes {
      assert x in r <==> x in multiset(r);
    }
  }

  /** The second pass of `loadData`: the record with its family's sizes and
      count. */
  function WithFamily(e: Enriched, index: map<string, Family>): Entry {
    var key := GroupKey(e);
    var family := if key in index then index[key] else Family([], 1);
    Entry(e, Ascending(family.sizes), family.count)
  }

  /** `enrichedIcons.map(...)` with the family index. */
  function WithFamilies(es: seq<Enriched>, index: map<string, Family>): (r: seq<Entry>)
    ensures |r| == |es|
  {
    seq(|es|, i requires 0 <= i < |es| => WithFamily(es[i], index))
  }

  /** The records of `state.catalog` before it is sorted by name. */
  function Grouped(raw: seq<Icon>): (r: seq<Entry>)
    ensures |r| == |raw|
  {
    var es := EnrichAll(raw);
    WithFamilies(es, FamilyIndex(es))
  }

  /** Every grouped icon knows the size of its family and the ascending,
      duplicate-free sizes of that family. */
  lemma GroupedFamilies(raw: seq<Icon>, e: Entry)
    requires e in Grouped(raw)
    ensures var es := EnrichAll(raw); var k := GroupKey(e.base);
      && (exists i :: 0 <= i < |raw| && e.base == es[i])
      && e.familyCount == KeyCount(es, k) >= 1
      && (forall a, b :: 0 <= a < b < |e.sizeVariants| ==> e.sizeVariants[a] < e.sizeVariants[b])
      && (forall x :: x in e.sizeVariants <==> x in KeySizes(es, k))
  {
    var i :| 0 <= i < |raw| && Grouped(raw)[i] == e;
    var es := EnrichAll(raw);
    assert e.base == es[i];
    var k := GroupKey(es[i]);
    FamilyIndexSpec(es, k);
    KeyCountPositive(es, i);
    AscendingSpec(Dedup(KeySizes(es, k)));
  }

  // -------------------------------------------------------------- tag lists

  /** The tags `openModal` adds before the record's own, in order. */
  function LeadTags(icon: Icon): seq<string> {
    NonEmptyStrings([if icon.isNew then "new" else "", icon.style, icon.uiSet, icon.library])
  }

  /** The tags of the detail view: the first 16 distinct ones of the lead
      tags followed by the record's tags. */
  function ModalTags(icon: Icon): (r: seq<string>)
    ensures Distinct(r)
    ensures |r| <= 16
  {
    Take(Dedup(LeadTags(icon) + icon.tags), 16)
  }

  /** The tags of a card: `new`, the style and the UI set, when present. */
  function CardTags(icon: Icon): (r: seq<string>)
    ensures |r| <= 3
    ensures forall t :: t in r ==> t != []
  {
    Take(NonEmptyStrings([if icon.isNew then "new" else "", icon.style, icon.uiSet]), 3)
  }

  /** The detail view lists the tags in first-seen order, drops nothing
      while there are at most 16, invents none, and puts `new` first for a
      new icon. */
  lemma ModalTagsSpec(icon: Icon)
    ensures var all := LeadTags(icon) + icon.tags; var r := ModalTags(icon);
      && r <= Dedup(all)
      && (|Dedup(all)| <= 16 ==> r == Dedup(all))
      && (forall t :: t in r ==> t in all)
      && (icon.isNew ==> r != [] && r[0] == "new")
  {
    var all := LeadTags(icon) + icon.tags;
    if icon.isNew {
      var lead := [if icon.isNew then "new" else "", icon.style, icon.uiSet, icon.library];
      NonEmptyAppend([lead[0]], lead[1..]);
      assert lead == [lead[0]] + lead[1..];
      assert LeadTags(icon)[0] == "new";
      DedupExtendsPrefix([all[0]], all[1..]);
      assert all == [all[0]] + all[1..];
      assert Dedup([all[0]]) == [all[0]] by {
        DedupOfDistinct([all[0]]);
      }
    }
  }

  /** Every tag a card shows is also in the detail view. */
  lemma CardTagsInModal(icon: Icon)
    ensures forall t :: t in CardTags(icon) ==> t in ModalTags(icon)
  {
    var three := [if icon.isNew then "new" else "", icon.style, icon.uiSet];
    var lead := three + [icon.library];
    NonEmptyAppend(three, [icon.library]);
    var front := NonEmptyStrings(three);
    var all := LeadTags(icon) + icon.tags;
    assert lead == [if icon.isNew then "new" else "", icon.style, icon.uiSet, icon.library];
    assert LeadTags(icon) == front + NonEmptyStrings([icon.library]);
    assert all == front + (NonEmptyStrings([icon.library]) + icon.tags);
    DedupExtendsPrefix(front, NonEmptyStrings([icon.library]) + icon.tags);
    assert |Dedup(front)| <= 3;
    assert Dedup(front) <= ModalTags(icon);
  }

  // ------------------------------------------------------------ page state

  /** The value of the source-mode selector. */
  datatype SourceMode = Local | Cdn

  /** The text of the status line. */
  datatype Status = NoStatus | NeedBaseUrl | NoMatches

  /** `getBaseUrl` */
  function BaseUrl(mode: SourceMode, baseUrlInput: string): string {
    if mode == Local then "./icons" else NormalizeBaseUrl(baseUrlInput)
  }

  /** `renderIcons` stops early in CDN mode without a base URL. */
  predicate Blocked(mode: SourceMode, baseUrlInput: string) {
    mode == Cdn && BaseUrl(mode, baseUrlInput) == []
  }

  /** `byName`: the order `state.catalog.sort` uses, from a collation on
      names. */
  function ByName(nameLeq: (string, string) -> bool): (Entry, Entry) -> bool {
    (a: Entry, b: Entry) => nameLeq(a.Icon().name, b.Icon().name)
  }

  /** The viewer's `state`, with the grid and the "load more" button it
      drives. */
  class ViewerState {
    var catalog: seq<Entry>
    var filtered: seq<Entry>
    var page: nat
    var filters: Filters
    /** The cards in the grid, in order. */
    var grid: seq<Entry>
    /** The "load more" button is shown. */
    var hasMore: bool
    var status: Status

    constructor()
      ensures catalog == [] && filtered == [] && page == 0 && filters == DefaultFilters
      ensures grid == [] && !hasMore && status == NoStatus
    {
      catalog := [];
      filtered := [];
      page := 0;
      filters := DefaultFilters;
      grid := [];
      hasMore := false;
      status := NoStatus;
    }

    /** The grid shows exactly the first `page` pages of `filtered`. */
    predicate GridShowsPages()
      reads this
    {
      grid == Shown(filtered, page)
    }

    /** `renderIcons(reset)`: nothing happens on an empty catalog; a reset
        goes back to page 0 and empties the grid; without a CDN base URL the
        grid is emptied and the page left as it is; otherwise the next page
        window is appended and the page advances. */
    method RenderIcons(reset: bool, mode: SourceMode, baseUrlInput: string)
      modifies this
      ensures catalog == old(catalog) && filtered == old(filtered) && filters == old(filters)
      ensures old(catalog) == [] ==>
        page == old(page) && grid == old(grid) && hasMore == old(hasMore) && status == old(status)
      ensures old(catalog) != [] && Blocked(mode, baseUrlInput) ==>
        page == (if reset then 0 else old(page)) && grid == [] && !hasMore && status == NeedBaseUrl
      ensures old(catalog) != [] && !Blocked(mode, baseUrlInput) ==>
        var p := if reset then 0 else old(page);
        && grid == (if reset then [] else old(grid)) + PageWindow(filtered, p)
        && page == p + 1
        && (hasMore <==> page * PageSize < |filtered|)
        && status == (if PageWindow(filtered, p) == [] && p == 0 then NoMatches else NoStatus)
      ensures old(catalog) != [] && !Blocked(mode, baseUrlInput) && (reset || old(GridShowsPages())) ==>
        GridShowsPages()
    {
      if catalog == [] {
        return;
      }
      if reset {
        page := 0;
        grid := [];
      }
      if Blocked(mode, baseUrlInput) {
        status := NeedBaseUrl;
        grid := [];
        hasMore := false;
        return;
      }
      if reset {
        assert GridShowsPages();
      }
      ShowNextPage();
    }

    /** The last part of `renderIcons`: append the next window of cards and
        advance the page. */
    method ShowNextPage()
      modifies this
      ensures catalog == old(catalog) && filtered == old(filtered) && filters == old(filters)
      ensures grid == old(grid) + PageWindow(filtered, old(page))
      ensures page == old(page) + 1
      ensures hasMore <==> page * PageSize < |filtered|
      ensures status == (if PageWindow(filtered, old(page)) == [] && old(page) == 0 then NoMatches else NoStatus)
      ensures old(GridShowsPages()) ==> GridShowsPages()
    {
      var window := PageWindow(filtered, page);
      status := if window == [] && page == 0 then NoMatches else NoStatus;
      grid := grid + window;
      PageExtends(filtered, page);
      page := page + 1;
      hasMore := page * PageSize < |filtered|;
    }

    /** What `renderIcons(true)` leaves when the catalog is not empty: without
        a CDN base URL, page 0, an empty grid, no "load more" button and the
        base-URL prompt; otherwise page 1 showing the first window of
        `filtered`, the button exactly when more remains, and the no-match
        message exactly when nothing matched. */
    predicate ShowsFirstPage(mode: SourceMode, baseUrlInput: string)
      reads this
    {
      if Blocked(mode, baseUrlInput) then
        page == 0 && grid == [] && !hasMore && status == NeedBaseUrl
      else
        && page == 1 && grid == PageWindow(filtered, 0) && GridShowsPages()
        && (hasMore <==> PageSize < |filtered|)
        && status == (if filtered == [] then NoMatches else NoStatus)
    }

    /** `applyFilters`: recomputes `filtered` from the catalog and renders
        its first page; with an empty catalog the page is left as it was. */
    method ApplyFilters(mode: SourceMode, baseUrlInput: string)
      modifies this
      ensures catalog == old(catalog) && filters == old(filters)
      ensures filtered == FilterIcons(catalog, filters, SearchTokens(filters.search))
      ensures catalog == [] ==>
        page == old(page) && grid == old(grid) && hasMore == old(hasMore) && status == old(status)
      ensures catalog != [] ==> ShowsFirstPage(mode, baseUrlInput)
    {
      var tokens := SearchTokens(filters.search);
      filtered := FilterIcons(catalog, filters, tokens);
      RenderIcons(true, mode, baseUrlInput);
      if catalog != [] && !Blocked(mode, baseUrlInput) {
        assert [] + PageWindow(filtered, 0) == PageWindow(filtered, 0);
      }
    }

    /** `syncFiltersFromInputs`: an empty select counts as `all`; the
        filters are then applied. */
    method SyncFilters(search: string, collection: string, category: string, svg: bool, png: bool,
                       mode: SourceMode, baseUrlInput: string)
      modifies this
      ensures filters == Filters(search, Or(collection, "all"), Or(category, "all"), svg, png)
      ensures catalog == old(catalog)
      ensures filtered == FilterIcons(catalog, filters, SearchTokens(filters.search))
      ensures catalog == [] ==>
        page == old(page) && grid == old(grid) && hasMore == old(hasMore) && status == old(status)
      ensures catalog != [] ==> ShowsFirstPage(mode, baseUrlInput)
    {
      filters := Filters(search, Or(collection, "all"), Or(category, "all"), svg, png);
      ApplyFilters(mode, baseUrlInput);
    }

    /** A click in the category list selects that category and applies the
        filters. */
    method SelectCategory(category: string, mode: SourceMode, baseUrlInput: string)
      modifies this
      ensures filters == old(filters).(category := category)
      ensures catalog == old(catalog)
      ensures filtered == FilterIcons(catalog, filters, SearchTokens(filters.search))
      ensures catalog == [] ==>
        page == old(page) && grid == old(grid) && hasMore == old(hasMore) && status == old(status)
      ensures catalog != [] ==> ShowsFirstPage(mode, baseUrlInput)
    {
      filters := filters.(category := category);
      ApplyFilters(mode, baseUrlInput);
    }

    /** `loadData` once both files are fetched: enrich every record, count
        the families, attach them, sort by name (stably) and apply the
        filters. */
    method Load(raw: seq<Icon>, nameLeq: (string, string) -> bool, mode: SourceMode, baseUrlInput: string)
      modifies this
      ensures multiset(catalog) == multiset(Grouped(raw))
      ensures TotalPreorder(nameLeq) ==> StablySorted(catalog, Grouped(raw), ByName(nameLeq))
      ensures filters == old(filters)
      ensures filtered == FilterIcons(catalog, filters, SearchTokens(filters.search))
      ensures catalog == [] <==> raw == []
      ensures raw == [] ==>
        page == old(page) && grid == old(grid) && hasMore == old(hasMore) && status == old(status)
      ensures raw != [] ==> ShowsFirstPage(mode, baseUrlInput)
    {
      var grouped := GroupIcons(raw);
      catalog := Sort(grouped, ByName(nameLeq));
      if TotalPreorder(nameLeq) {
        ByNamePreorder(nameLeq);
        SortIsStable(grouped, ByName(nameLeq));
      }
      ApplyFilters(mode, baseUrlInput);
    }
  }

  /** The two passes of `loadData` before the sort. */
  method GroupIcons(raw: seq<Icon>) returns (grouped: seq<Entry>)
    ensures grouped == Grouped(raw)
  {
    var enriched := EnrichAll(raw);
    var index := BuildFamilyIndex(enriched);
    grouped := WithFamilies(enriched, index);
  }

  lemma ByNamePreorder(nameLeq: (string, string) -> bool)
    requires TotalPreorder(nameLeq)
    ensures TotalPreorder(ByName(nameLeq))
  {
    var leq := ByName(nameLeq);
    forall a, b ensures leq(a, b) || leq(b, a) {
      assert nameLeq(a.Icon().name, b.Icon().name) || nameLeq(b.Icon().name, a.Icon().name);
    }
    forall a, b, c | leq(a, b) && leq(b, c) ensures leq(a, c) {
      assert nameLeq(a.Icon().name, b.Icon().name) && nameLeq(b.Icon().name, c.Icon().name);
    }
  }
}
