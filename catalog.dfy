/** The catalog assembly of build-catalog.mjs: the filename lookup built from
    the extracted categories (first writer wins), one record per visible file
    of the icon tree, and the per-`collection::category` aggregate. The
    directory walk, file sizes and the source file name are inputs; sorting
    uses an abstract total preorder in place of `localeCompare`. */
module Catalog {
  import opened Text
  import opened Seqs
  import opened Naming

  /** One entry of the extracted `ALL_ICON_CATEGORIES` object, in key order.
      `icons` is `None` when the value is not an array. */
  datatype CategoryData = CategoryData(
    name: string, library: string, description: string, isNew: bool, icons: Option<seq<string>>)

  /** What the lookup records for a filename. */
  datatype CategoryInfo = CategoryInfo(categoryName: string, library: string, description: string, isNew: bool)

  /** A file found by the walk: its path relative to the icon root, joined
      with `/`, and its size in bytes. */
  datatype FileEntry = FileEntry(relativePath: string, sizeBytes: nat)

  datatype Meta = Meta(source: string, license: string, brandOwner: string) {
    predicate Filled() { source != [] && license != [] && brandOwner != [] }
  }

  datatype IconRecord = IconRecord(
    id: string, name: string, title: string, fileName: string, extension: string,
    category: string, description: string, library: string, collection: string,
    uiSet: Option<string>, isNew: bool, path: string, sizeBytes: nat,
    meta: Option<Meta>, style: Style)
  {
    /** The record's `tags`, a function of its other fields: the tokens of
        the base name, category, library, collection and UI set, each kept
        once, in first-occurrence order. They are duplicate-free, non-empty
        `[a-z0-9]` tokens. */
    function Tags(): (t: seq<string>)
      ensures Distinct(t)
      ensures forall k :: 0 <= k < |t| ==> IsToken(t[k])
    {
      TagsWellFormed(name, category, library, collection, uiSet);
      TagList(name, category, library, collection, uiSet)
    }
  }

  datatype CategoryEntry = CategoryEntry(
    name: string, library: string, collection: string, description: string,
    iconCount: nat, uiSet: Option<string>)
  {
    /** The entry's `id`: the slug of its `collection::name` key. */
    function Id(): (id: string)
      ensures forall i :: 0 <= i < |id| ==> IsSlugChar(id[i])
      ensures NoDoubleDash(id)
      ensures id != [] ==> id[0] != '-' && id[|id| - 1] != '-'
    {
      SlugifySpec(collection + "::" + name);
      Slugify(collection + "::" + name)
    }
  }

  datatype CatalogOutput = CatalogOutput(
    version: nat, generatedAt: string, source: string, totalIcons: nat, icons: seq<IconRecord>)

  datatype CategoriesOutput = CategoriesOutput(
    version: nat, generatedAt: string, source: string, totalCategories: nat, categories: seq<CategoryEntry>)

  // ------------------------------------------------------------------ lookup

  function IconsOf(c: CategoryData): seq<string> {
    match c.icons
    case Some(list) => list
    case None => []
  }

  function InfoOf(c: CategoryData): CategoryInfo {
    CategoryInfo(c.name, Or(c.library, "Uncategorized"), c.description, c.isNew)
  }

  /** Adds the icons not yet claimed, in order. */
  function Claim(m: map<string, CategoryInfo>, info: CategoryInfo, icons: seq<string>): map<string, CategoryInfo>
    decreases |icons|
  {
    if icons == [] then m
    else
      var m' := Claim(m, info, icons[..|icons| - 1]);
      var f := icons[|icons| - 1];
      if f in m' then m' else m'[f := info]
  }

  /** The filename lookup after the categories `cats`, in order. */
  function Lookup(cats: seq<CategoryData>): map<string, CategoryInfo>
    decreases |cats|
  {
    if cats == [] then map[]
    else
      var last := cats[|cats| - 1];
      Claim(Lookup(cats[..|cats| - 1]), InfoOf(last), IconsOf(last))
  }

  /** The first category, in order, that lists `f`. */
  function FirstOwner(cats: seq<CategoryData>, f: string): (r: Option<nat>)
    ensures r.Some? ==> r.value < |cats| && f in IconsOf(cats[r.value])
    ensures r.Some? ==> forall j :: 0 <= j < r.value ==> f !in IconsOf(cats[j])
    ensures r.None? ==> forall j :: 0 <= j < |cats| ==> f !in IconsOf(cats[j])
    decreases |cats|
  {
    if cats == [] then None
    else
      match FirstOwner(cats[..|cats| - 1], f)
      case Some(i) => Some(i)
      case None => if f in IconsOf(cats[|cats| - 1]) then Some(|cats| - 1) else None
  }

  lemma {:induction false} ClaimSpec(m: map<string, CategoryInfo>, info: CategoryInfo, icons: seq<string>, f: string)
    ensures f in Claim(m, info, icons) <==> f in m || f in icons
    ensures f in m ==> Claim(m, info, icons)[f] == m[f]
    ensures f !in m && f in icons ==> Claim(m, info, icons)[f] == info
    decreases |icons|
  {
    if icons != [] {
      var init := icons[..|icons| - 1];
      ClaimSpec(m, info, init, f);
      assert icons == init + [icons[|icons| - 1]];
    }
  }

  /** First writer wins: a filename is in the lookup exactly when some
      category lists it, and then it maps to the first such category; a
      category whose `icons` is not an array contributes nothing. */
  lemma {:induction false} LookupFirstWriter(cats: seq<CategoryData>, f: string)
    ensures f in Lookup(cats) <==> FirstOwner(cats, f).Some?
    ensures f in Lookup(cats) ==> Lookup(cats)[f] == InfoOf(cats[FirstOwner(cats, f).value])
    decreases |cats|
  {
    if cats != [] {
      var init := cats[..|cats| - 1];
      var last := cats[|cats| - 1];
      LookupFirstWriter(init, f);
      ClaimSpec(Lookup(init), InfoOf(last), IconsOf(last), f);
    }
  }

  /** A claimed file's library is never empty: a category without one is
      entered as `Uncategorized`, so a known file keeps its lookup library. */
  lemma LookupLibraryFilled(cats: seq<CategoryData>, f: string)
    requires f in Lookup(cats)
    ensures Lookup(cats)[f].library != []
    ensures FirstOwner(cats, f).Some?
    ensures cats[FirstOwner(cats, f).value].library == [] ==> Lookup(cats)[f].library == "Uncategorized"
  {
    LookupFirstWriter(cats, f);
  }

  /** The two nested loops that fill `iconCategoryMap`. */
  method BuildLookup(cats: seq<CategoryData>) returns (m: map<string, CategoryInfo>)
    ensures m == Lookup(cats)
    ensures forall f :: f in m ==> FirstOwner(cats, f).Some? && m[f] == InfoOf(cats[FirstOwner(cats, f).value])
  {
    m := map[];
    var i := 0;
    while i < |cats|
      invariant 0 <= i <= |cats|
      invariant m == Lookup(cats[..i])
    {
      var data := cats[i];
      var icons := IconsOf(data);
      var info := InfoOf(data);
      assert cats[..i + 1][..i] == cats[..i];
      var j := 0;
      while j < |icons|
        invariant 0 <= j <= |icons|
        invariant m == Claim(Lookup(cats[..i]), info, icons[..j])
      {
        assert icons[..j + 1][..j] == icons[..j];
        if icons[j] !in m {
          m := m[icons[j] := info];
        }
        j := j + 1;
      }
      assert icons[..j] == icons;
      i := i + 1;
    }
    assert cats[..i] == cats;
    forall f | f in m ensures FirstOwner(cats, f).Some? && m[f] == InfoOf(cats[FirstOwner(cats, f).value]) {
      LookupFirstWriter(cats, f);
    }
  }

  // ----------------------------------------------------------------- records

  function CollectionMeta(collection: string): (r: Option<Meta>)
    ensures r.Some? ==> r.value.Filled()
  {
    if collection == "microsoft-365" || collection == "azure" || collection == "security" then
      Some(Meta("Microsoft", "Trademark", "Microsoft"))
    else if collection == "sap" then Some(Meta("SAP", "Trademark", "SAP"))
    else if collection == "ai" || collection == "third-party" then Some(Meta("Various", "Trademark", "Various"))
    else if collection == "ui" then Some(Meta("Various", "Varies", "Various"))
    else if collection == "pideas" then Some(Meta("PiDEAS Studio", "Proprietary", "PiDEAS Studio"))
    else if collection == "uncategorized" then Some(Meta("Unknown", "Unknown", "Unknown"))
    else None
  }

  function UiMeta(uiSet: string): (r: Option<Meta>)
    ensures r.Some? ==> r.value.Filled()
  {
    if uiSet == "tabler" then Some(Meta("Tabler Icons", "MIT", "Tabler"))
    else if uiSet == "fontawesome" then Some(Meta("Font Awesome Free", "CC BY 4.0", "Fonticons"))
    else if uiSet == "mdi" then Some(Meta("Material Design Icons", "Apache-2.0", "Templarian"))
    else if uiSet == "lucide" then Some(Meta("Lucide", "ISC", "Lucide"))
    else if uiSet == "phosphor" then Some(Meta("Phosphor Icons", "MIT", "Phosphor"))
    else if uiSet == "cssgg" then Some(Meta("css.gg", "MIT", "css.gg"))
    else if uiSet == "heroicons" then Some(Meta("Heroicons", "MIT", "Tailwind Labs"))
    else if uiSet == "feather" then Some(Meta("Feather", "MIT", "Feather"))
    else if uiSet == "ionicons" then Some(Meta("Ionicons", "MIT", "Ionic"))
    else if uiSet == "octicons" then Some(Meta("Octicons", "MIT", "GitHub"))
    else if uiSet == "eva" then Some(Meta("Eva Icons", "MIT", "Akveo"))
    else if uiSet == "bootstrap" then Some(Meta("Bootstrap Icons", "MIT", "Bootstrap"))
    else if uiSet == "remix" then Some(Meta("Remix Icon", "Apache-2.0", "Remix Design"))
    else if uiSet == "brand" then Some(Meta("Brand Icons", "Trademark", "Various"))
    else None
  }

  /** The record's `source`, `license` and `brandOwner`: the UI set's entry
      when there is one, else the collection's, else "Unknown". The fields
      are read one by one, but every table entry has all three non-empty, so
      they come from the same entry. A collection named like an inherited
      member (`constructor`, `toString`, ...) finds that member instead of
      the "Unknown" default, and all three fields read as `undefined`, which
      `JSON.stringify` leaves out: `None`. A UI set named so finds no entry
      either, and falls back to the collection's. */
  function MetaFor(collection: string, uiSet: Option<string>): (r: Option<Meta>)
    ensures r.Some? ==> r.value.Filled()
  {
    if Truthy(uiSet) && UiMeta(uiSet.value).Some? then UiMeta(uiSet.value)
    else if collection in ObjectPrototypeKeys then None
    else
      match CollectionMeta(collection)
      case Some(m) => Some(m)
      case None => Some(Meta("Unknown", "Unknown", "Unknown"))
  }

  /** A record has the three metadata fields, all non-empty, unless its
      collection is named like an inherited member; a collection without a
      table entry gets "Unknown" in all three. `main` has a UI set only in
      the `ui` collection. */
  lemma MetaForSpec(collection: string, uiSet: Option<string>)
    requires uiSet.Some? ==> collection == "ui"
    ensures MetaFor(collection, uiSet).None? <==> collection in ObjectPrototypeKeys
    ensures collection !in ObjectPrototypeKeys && CollectionMeta(collection).None? ==>
      MetaFor(collection, uiSet) == Some(Meta("Unknown", "Unknown", "Unknown"))
  {
  }

  /** `path.extname` for a name without `/`: from the last dot, unless that
      dot opens the name or the name is `..`. */
  function Extname(name: string): (r: string)
    ensures r != [] ==> r[0] == '.' && EndsWith(name, r)
  {
    match LastIndexOf(name, '.')
    case None => []
    case Some(k) => if k == 0 || name == ".." then [] else name[k..]
  }

  /** `path.extname(fileName).replace('.', '').toLowerCase()` */
  function Extension(fileName: string): (r: string)
    ensures forall i :: 0 <= i < |r| ==> !IsUpper(r[i])
    ensures '.' !in fileName ==> r == []
  {
    var e := Extname(fileName);
    if e == [] then [] else Lower(e[1..])
  }

  /** For a file name with a real extension, the base name and the
      extension put back together give the name. */
  lemma BaseNameAndExtname(fileName: string)
    requires '/' !in fileName
    requires |Extname(fileName)| >= 2
    ensures StripExtension(fileName) + Extname(fileName) == fileName
  {
    var k := LastIndexOf(fileName, '.').value;
    assert fileName[k..] == Extname(fileName);
    assert fileName[..k] + fileName[k..] == fileName;
  }

  /** The last segment of a relative path. */
  function FileNameOf(relativePath: string): string {
    var segments := Split(relativePath, '/');
    segments[|segments| - 1]
  }

  function CollectionOf(relativePath: string): (r: string)
    ensures r != []
  {
    Or(Split(relativePath, '/')[0], "uncategorized")
  }

  function UiSetOf(relativePath: string): Option<string> {
    var segments := Split(relativePath, '/');
    if CollectionOf(relativePath) == "ui" && |segments| > 1 then Some(segments[1]) else None
  }

  /** The category a file falls back to when the lookup does not know it. */
  function InferredCategory(relativePath: string): string {
    var segments := Split(relativePath, '/');
    if |segments| > 2 then ToTitle(segments[1]) else ToTitle(CollectionOf(relativePath))
  }

  function TagList(baseName: string, categoryName: string, library: string, collection: string, uiSet: Option<string>): seq<string> {
    Dedup(ToTokens(baseName) + ToTokens(categoryName) + ToTokens(library) + ToTokens(collection)
          + (if Truthy(uiSet) then ToTokens(uiSet.value) else []))
  }

  predicate AllTokens(ts: seq<string>) {
    forall t :: t in ts ==> IsToken(t)
  }

  lemma TokensOf(value: string)
    ensures AllTokens(ToTokens(value))
  {
    ToTokensSpec(value);
    forall t | t in ToTokens(value) ensures IsToken(t) {
      var k :| 0 <= k < |ToTokens(value)| && ToTokens(value)[k] == t;
    }
  }

  lemma AllTokensAppend(a: seq<string>, b: seq<string>)
    requires AllTokens(a) && AllTokens(b)
    ensures AllTokens(a + b)
  {
  }

  /** Tags are duplicate-free, non-empty `[a-z0-9]` tokens. */
  lemma TagsWellFormed(baseName: string, categoryName: string, library: string, collection: string, uiSet: Option<string>)
    ensures var tags := TagList(baseName, categoryName, library, collection, uiSet);
      && Distinct(tags)
      && forall k :: 0 <= k < |tags| ==> IsToken(tags[k])
  {
    var extra := if Truthy(uiSet) then ToTokens(uiSet.value) else [];
    TokensOf(baseName);
    TokensOf(categoryName);
    TokensOf(library);
    TokensOf(collection);
    if Truthy(uiSet) {
      TokensOf(uiSet.value);
    }
    var all := ToTokens(baseName) + ToTokens(categoryName) + ToTokens(library) + ToTokens(collection) + extra;
    AllTokensAppend(ToTokens(baseName), ToTokens(categoryName));
    AllTokensAppend(ToTokens(baseName) + ToTokens(categoryName), ToTokens(library));
    AllTokensAppend(ToTokens(baseName) + ToTokens(categoryName) + ToTokens(library), ToTokens(collection));
    AllTokensAppend(ToTokens(baseName) + ToTokens(categoryName) + ToTokens(library) + ToTokens(collection), extra);
    var tags := Dedup(all);
    assert tags == TagList(baseName, categoryName, library, collection, uiSet);
    forall k | 0 <= k < |tags| ensures IsToken(tags[k]) {
      assert tags[k] in all;
    }
  }

  /** The record `main` pushes for one file. */
  function Derive(file: FileEntry, lookup: map<string, CategoryInfo>): (r: IconRecord)
    ensures r.id == r.path == file.relativePath
    ensures r.fileName == FileNameOf(file.relativePath)
    ensures r.collection == CollectionOf(file.relativePath)
    ensures r.category != [] || InferredCategory(file.relativePath) == []
    ensures r.uiSet.Some? ==> r.collection == "ui"
    ensures r.meta.None? <==> r.collection in ObjectPrototypeKeys
    ensures r.meta.Some? ==> r.meta.value.Filled()
  {
    var collection := CollectionOf(file.relativePath);
    var fileName := FileNameOf(file.relativePath);
    var extension := Extension(fileName);
    var baseName := StripExtension(fileName);
    var info := if fileName in lookup then Some(lookup[fileName]) else None;
    var categoryName := Or(if info.Some? then info.value.categoryName else [], InferredCategory(file.relativePath));
    var library := Or(if info.Some? then info.value.library else [], ToTitle(collection));
    var description := if info.Some? then info.value.description else [];
    var isNew := info.Some? && info.value.isNew;
    var uiSet := UiSetOf(file.relativePath);
    var meta := MetaFor(collection, uiSet);
    MetaForSpec(collection, uiSet);
    IconRecord(
      file.relativePath, baseName, ToTitle(baseName), fileName, extension,
      categoryName, description, library, collection,
      uiSet, isNew, file.relativePath, file.sizeBytes,
      meta,
      InferStyle(fileName, extension, collection, uiSet))
  }

  /** The category a known file takes, and the one an unknown file falls back
      to. */
  lemma DeriveCategory(file: FileEntry, lookup: map<string, CategoryInfo>)
    ensures var f := FileNameOf(file.relativePath);
      && (f in lookup && lookup[f].categoryName != [] ==> Derive(file, lookup).category == lookup[f].categoryName)
      && (f in lookup && lookup[f].categoryName == [] ==> Derive(file, lookup).category == InferredCategory(file.relativePath))
      && (f in lookup && lookup[f].library != [] ==> Derive(file, lookup).library == lookup[f].library)
      && (f in lookup && lookup[f].library == [] ==> Derive(file, lookup).library == ToTitle(CollectionOf(file.relativePath)))
      && (f in lookup ==> Derive(file, lookup).description == lookup[f].description && Derive(file, lookup).isNew == lookup[f].isNew)
      && (f !in lookup ==> Derive(file, lookup).category == InferredCategory(file.relativePath))
      && (f !in lookup ==> Derive(file, lookup).library == ToTitle(CollectionOf(file.relativePath)))
      && (f !in lookup ==> Derive(file, lookup).description == [] && !Derive(file, lookup).isNew)
  {
  }

  // ------------------------------------------------------------- aggregation

  function KeyOf(r: IconRecord): string {
    r.collection + "::" + r.category
  }

  function NewEntry(r: IconRecord): CategoryEntry {
    CategoryEntry(r.category, r.library, r.collection, r.description, 0, r.uiSet)
  }

  /** `categoryIndex` after the records `rs`. */
  function Aggregate(rs: seq<IconRecord>): map<string, CategoryEntry>
    decreases |rs|
  {
    if rs == [] then map[]
    else
      var idx := Aggregate(rs[..|rs| - 1]);
      var r := rs[|rs| - 1];
      var entry := if KeyOf(r) in idx then idx[KeyOf(r)] else NewEntry(r);
      idx[KeyOf(r) := entry.(iconCount := entry.iconCount + 1)]
  }

  /** The keys of `categoryIndex` in insertion order. */
  function KeyOrder(rs: seq<IconRecord>): seq<string>
    decreases |rs|
  {
    if rs == [] then []
    else
      var ks := KeyOrder(rs[..|rs| - 1]);
      var k := KeyOf(rs[|rs| - 1]);
      if k in ks then ks else ks + [k]
  }

  function CountKey(rs: seq<IconRecord>, k: string): nat
    decreases |rs|
  {
    if rs == [] then 0
    else CountKey(rs[..|rs| - 1], k) + (if KeyOf(rs[|rs| - 1]) == k then 1 else 0)
  }

  /** The first record with key `k`. */
  function FirstWithKey(rs: seq<IconRecord>, k: string): (r: Option<nat>)
    ensures r.Some? ==> r.value < |rs| && KeyOf(rs[r.value]) == k
    ensures r.Some? ==> forall j :: 0 <= j < r.value ==> KeyOf(rs[j]) != k
    ensures r.None? ==> forall j :: 0 <= j < |rs| ==> KeyOf(rs[j]) != k
    decreases |rs|
  {
    if rs == [] then None
    else
      match FirstWithKey(rs[..|rs| - 1], k)
      case Some(i) => Some(i)
      case None => if KeyOf(rs[|rs| - 1]) == k then Some(|rs| - 1) else None
  }

  /** Each key's entry counts exactly the records with that key and keeps
      the metadata of the first of them; the keys are those of the records. */
  lemma {:induction false} AggregateSpec(rs: seq<IconRecord>, k: string)
    ensures k in Aggregate(rs) <==> FirstWithKey(rs, k).Some?
    ensures k !in Aggregate(rs) ==> CountKey(rs, k) == 0
    ensures k in Aggregate(rs) ==>
      Aggregate(rs)[k] == NewEntry(rs[FirstWithKey(rs, k).value]).(iconCount := CountKey(rs, k))
    decreases |rs|
  {
    if rs != [] {
      AggregateSpec(rs[..|rs| - 1], k);
    }
  }

  /** The insertion order lists every key once: `totalCategories`, the size
      of the index, is the number of distinct keys. */
  lemma {:induction false} KeyOrderSpec(rs: seq<IconRecord>)
    ensures Distinct(KeyOrder(rs))
    ensures forall k :: k in KeyOrder(rs) <==> k in Aggregate(rs)
    ensures |KeyOrder(rs)| == |Aggregate(rs)|
    decreases |rs|
  {
    if rs != [] {
      var init := rs[..|rs| - 1];
      KeyOrderSpec(init);
      var k := KeyOf(rs[|rs| - 1]);
      assert Aggregate(rs).Keys == Aggregate(init).Keys + {k};
      if k !in KeyOrder(init) {
        assert k !in Aggregate(init).Keys;
      }
    }
  }

  /** The test `main` filters the walked files with: the file name does not
      start with a dot. */
  predicate NotHidden(e: FileEntry) {
    !StartsWith(FileNameOf(e.relativePath), ".")
  }

  /** The walked files `main` keeps: dot-files are dropped, the rest stay in
      walk order. */
  function Visible(walked: seq<FileEntry>): (r: seq<FileEntry>)
    ensures |r| <= |walked|
    ensures forall e :: e in r <==> e in walked && !StartsWith(FileNameOf(e.relativePath), ".")
  {
    Filter(walked, NotHidden)
  }

  /** Hiding dot-files keeps the walk order: the visible files of a
      concatenation are those of each part, in turn. */
  lemma VisibleAppend(a: seq<FileEntry>, b: seq<FileEntry>)
    ensures Visible(a + b) == Visible(a) + Visible(b)
  {
    FilterAppend(a, b, NotHidden);
  }

  function DeriveAll(files: seq<FileEntry>, lookup: map<string, CategoryInfo>): (r: seq<IconRecord>)
    ensures |r| == |files|
    decreases |files|
  {
    if files == [] then [] else DeriveAll(files[..|files| - 1], lookup) + [Derive(files[|files| - 1], lookup)]
  }

  /** Records keep the walk's paths, in the walk's order. */
  lemma {:induction false} DeriveAllPaths(files: seq<FileEntry>, lookup: map<string, CategoryInfo>)
    ensures forall k :: 0 <= k < |files| ==>
      DeriveAll(files, lookup)[k].id == DeriveAll(files, lookup)[k].path == files[k].relativePath
    decreases |files|
  {
    if files != [] {
      var n := |files| - 1;
      DeriveAllPaths(files[..n], lookup);
      PathsExtend(DeriveAll(files[..n], lookup), Derive(files[n], lookup), files);
    }
  }

  lemma PathsExtend(init: seq<IconRecord>, last: IconRecord, files: seq<FileEntry>)
    requires |init| + 1 == |files|
    requires forall k :: 0 <= k < |init| ==> init[k].id == init[k].path == files[..|init|][k].relativePath
    requires last.id == last.path == files[|init|].relativePath
    ensures forall k :: 0 <= k < |files| ==> (init + [last])[k].id == (init + [last])[k].path == files[k].relativePath
  {
    forall k | 0 <= k < |files| ensures (init + [last])[k].id == (init + [last])[k].path == files[k].relativePath {
      if k < |init| {
        assert files[..|init|][k] == files[k];
      }
    }
  }

  lemma DeriveAllStep(files: seq<FileEntry>, i: nat, lookup: map<string, CategoryInfo>)
    requires i < |files|
    ensures DeriveAll(files[..i + 1], lookup) == DeriveAll(files[..i], lookup) + [Derive(files[i], lookup)]
  {
    assert files[..i + 1][..i] == files[..i];
  }

  lemma AggregateStep(rs: seq<IconRecord>, r: IconRecord, entry: CategoryEntry)
    requires entry == if KeyOf(r) in Aggregate(rs) then Aggregate(rs)[KeyOf(r)] else NewEntry(r)
    ensures Aggregate(rs + [r]) == Aggregate(rs)[KeyOf(r) := entry.(iconCount := entry.iconCount + 1)]
    ensures KeyOrder(rs + [r]) == if KeyOf(r) in Aggregate(rs) then KeyOrder(rs) else KeyOrder(rs) + [KeyOf(r)]
  {
    AggregateSnoc(rs, r);
    KeyOrderSnoc(rs, r);
  }

  lemma AggregateSnoc(rs: seq<IconRecord>, r: IconRecord)
    ensures Aggregate(rs + [r]) == var idx := Aggregate(rs);
      var entry := if KeyOf(r) in idx then idx[KeyOf(r)] else NewEntry(r);
      idx[KeyOf(r) := entry.(iconCount := entry.iconCount + 1)]
  {
    assert (rs + [r])[..|rs|] == rs;
  }

  lemma KeyOrderSnoc(rs: seq<IconRecord>, r: IconRecord)
    ensures KeyOrder(rs + [r]) == if KeyOf(r) in Aggregate(rs) then KeyOrder(rs) else KeyOrder(rs) + [KeyOf(r)]
  {
    assert (rs + [r])[..|rs|] == rs;
    KeyOrderSpec(rs);
  }

  /** One step of the aggregation: bump the record's entry, creating it
      (and remembering its key) on first sight. */
  method Count(catalog: seq<IconRecord>, index: map<string, CategoryEntry>, order: seq<string>, record: IconRecord)
    returns (index': map<string, CategoryEntry>, order': seq<string>)
    requires index == Aggregate(catalog) && order == KeyOrder(catalog)
    ensures index' == Aggregate(catalog + [record])
    ensures order' == KeyOrder(catalog + [record])
  {
    var key := record.collection + "::" + record.category;
    var entry;
    order' := order;
    if key in index {
      entry := index[key];
    } else {
      entry := NewEntry(record);
      order' := order + [key];
    }
    AggregateStep(catalog, record, entry);
    entry := entry.(iconCount := entry.iconCount + 1);
    index' := index[key := entry];
  }

  /** The file loop of `main`: one record per visible file, in walk order,
      and the aggregate updated in place. */
  method Assemble(cats: seq<CategoryData>, walked: seq<FileEntry>)
    returns (catalog: seq<IconRecord>, index: map<string, CategoryEntry>, order: seq<string>)
    ensures catalog == DeriveAll(Visible(walked), Lookup(cats))
    ensures index == Aggregate(catalog)
    ensures order == KeyOrder(catalog)
    ensures forall r :: r in catalog ==> r.id == r.path
  {
    var lookup := BuildLookup(cats);
    var files := Visible(walked);
    catalog, index, order := AssembleFiles(files, lookup);
    DeriveAllPaths(files, lookup);
  }

  method AssembleFiles(files: seq<FileEntry>, lookup: map<string, CategoryInfo>)
    returns (catalog: seq<IconRecord>, index: map<string, CategoryEntry>, order: seq<string>)
    ensures catalog == DeriveAll(files, lookup)
    ensures index == Aggregate(catalog)
    ensures order == KeyOrder(catalog)
  {
    catalog := [];
    index := map[];
    order := [];
    var i := 0;
    while i < |files|
      invariant 0 <= i <= |files|
      invariant catalog == DeriveAll(files[..i], lookup)
      invariant index == Aggregate(catalog)
      invariant order == KeyOrder(catalog)
    {
      var record := Derive(files[i], lookup);
      DeriveAllStep(files, i, lookup);
      index, order := Count(catalog, index, order, record);
      catalog := catalog + [record];
      i := i + 1;
    }
    assert files[..i] == files;
  }

  /** The aggregate's entries in insertion order (`categoryIndex.values()`). */
  function Entries(rs: seq<IconRecord>): (r: seq<CategoryEntry>)
    ensures |r| == |KeyOrder(rs)|
  {
    var order := KeyOrder(rs);
    KeyOrderSpec(rs);
    seq(|order|, i requires 0 <= i < |order| => Aggregate(rs)[order[i]])
  }

  /** Every entry written counts at least one icon, and exactly the icons of
      its own `collection::name` key. */
  lemma EntriesCount(rs: seq<IconRecord>)
    ensures forall e :: e in Entries(rs) ==>
      e.iconCount == CountKey(rs, e.collection + "::" + e.name) >= 1
  {
    KeyOrderSpec(rs);
    forall e | e in Entries(rs) ensures e.iconCount == CountKey(rs, e.collection + "::" + e.name) >= 1 {
      var i :| 0 <= i < |Entries(rs)| && Entries(rs)[i] == e;
      var k := KeyOrder(rs)[i];
      AggregateSpec(rs, k);
      var first := FirstWithKey(rs, k).value;
      assert KeyOf(rs[first]) == k;
      CountKeyPositive(rs, k, first);
    }
  }

  lemma {:induction false} CountKeyPositive(rs: seq<IconRecord>, k: string, j: nat)
    requires j < |rs| && KeyOf(rs[j]) == k
    ensures CountKey(rs, k) >= 1
    decreases |rs|
  {
    if j < |rs| - 1 {
      CountKeyPositive(rs[..|rs| - 1], k, j);
    }
  }

  lemma PathOrder(leq: (string, string) -> bool)
    requires TotalPreorder(leq)
    ensures TotalPreorder((a: IconRecord, b: IconRecord) => leq(a.path, b.path))
  {
    var f := (a: IconRecord, b: IconRecord) => leq(a.path, b.path);
    forall a: IconRecord, b: IconRecord ensures f(a, b) || f(b, a) {
      assert leq(a.path, b.path) || leq(b.path, a.path);
    }
    forall a: IconRecord, b: IconRecord, c: IconRecord | f(a, b) && f(b, c) ensures f(a, c) {
      assert leq(a.path, b.path) && leq(b.path, c.path);
    }
  }

  lemma NameOrder(leq: (string, string) -> bool)
    requires TotalPreorder(leq)
    ensures TotalPreorder((a: CategoryEntry, b: CategoryEntry) => leq(a.name, b.name))
  {
    var f := (a: CategoryEntry, b: CategoryEntry) => leq(a.name, b.name);
    forall a: CategoryEntry, b: CategoryEntry ensures f(a, b) || f(b, a) {
      assert leq(a.name, b.name) || leq(b.name, a.name);
    }
    forall a: CategoryEntry, b: CategoryEntry, c: CategoryEntry | f(a, b) && f(b, c) ensures f(a, c) {
      assert leq(a.name, b.name) && leq(b.name, c.name);
    }
  }

  /** `catalog.json`: the records sorted by path. */
  method CatalogDocument(catalog: seq<IconRecord>, generatedAt: string, sourceName: string,
                         leq: (string, string) -> bool) returns (out: CatalogOutput)
    requires TotalPreorder(leq)
    requires forall r :: r in catalog ==> r.id == r.path
    ensures out.version == 2 && out.generatedAt == generatedAt && out.source == sourceName
    ensures out.totalIcons == |out.icons| == |catalog|
    ensures StablySorted(out.icons, catalog, (a: IconRecord, b: IconRecord) => leq(a.path, b.path))
    ensures forall r :: r in out.icons ==> r.id == r.path
  {
    var byPath := (a: IconRecord, b: IconRecord) => leq(a.path, b.path);
    PathOrder(leq);
    var icons := Sort(catalog, byPath);
    SortIsStable(catalog, byPath);
    assert forall r :: r in icons ==> r in multiset(catalog);
    out := CatalogOutput(2, generatedAt, sourceName, |icons|, icons);
  }

  /** `categories.json`: the aggregate's entries sorted by name. */
  method CategoriesDocument(catalog: seq<IconRecord>, index: map<string, CategoryEntry>, order: seq<string>,
                            generatedAt: string, sourceName: string,
                            leq: (string, string) -> bool) returns (out: CategoriesOutput)
    requires TotalPreorder(leq)
    requires index == Aggregate(catalog) && order == KeyOrder(catalog)
    ensures out.version == 2 && out.generatedAt == generatedAt && out.source == sourceName
    ensures out.totalCategories == |out.categories| == |index|
    ensures StablySorted(out.categories, Entries(catalog),
                         (a: CategoryEntry, b: CategoryEntry) => leq(a.name, b.name))
  {
    KeyOrderSpec(catalog);
    var values := seq(|order|, i requires 0 <= i < |order| => index[order[i]]);
    assert values == Entries(catalog);
    var byName := (a: CategoryEntry, b: CategoryEntry) => leq(a.name, b.name);
    NameOrder(leq);
    var categories := Sort(values, byName);
    SortIsStable(values, byName);
    out := CategoriesOutput(2, generatedAt, sourceName, |index|, categories);
  }

  /** `main`, up to the two documents it writes. */
  method BuildOutputs(cats: seq<CategoryData>, walked: seq<FileEntry>,
                      generatedAt: string, sourceName: string, leq: (string, string) -> bool)
    returns (catalogOut: CatalogOutput, categoriesOut: CategoriesOutput)
    requires TotalPreorder(leq)
    ensures catalogOut.totalIcons == |catalogOut.icons| == |Visible(walked)|
    ensures StablySorted(catalogOut.icons, DeriveAll(Visible(walked), Lookup(cats)),
                         (a: IconRecord, b: IconRecord) => leq(a.path, b.path))
    ensures forall r :: r in catalogOut.icons ==> r.id == r.path
    ensures categoriesOut.totalCategories == |categoriesOut.categories|
    ensures StablySorted(categoriesOut.categories, Entries(DeriveAll(Visible(walked), Lookup(cats))),
                         (a: CategoryEntry, b: CategoryEntry) => leq(a.name, b.name))
  {
    var catalog, index, order := Assemble(cats, walked);
    catalogOut := CatalogDocument(catalog, generatedAt, sourceName, leq);
    categoriesOut := CategoriesDocument(catalog, index, order, generatedAt, sourceName, leq);
  }
}
