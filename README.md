# PiGlyphs core, modelled in Dafny

PiGlyphs is a static icon catalogue. This project models its three scripts'
core logic and proves properties of it.

- **Category extractor** (`extractor.dfy`, module `Extractor`). This is
  `extractCategories`. It finds the `const ALL_ICON_CATEGORIES` declaration
  and then the next `{`. A scan loop follows, tracking the brace depth, the
  active quote character and a pending backslash, until the depth returns to
  zero. The loop is a `while` over those three variables. It is proved
  against a fold `Run` of the one-character step and against the search
  `CloseFrom` for the first return to depth zero. `reorg-icons.mjs` carries a
  verbatim copy of this function, and one model serves both scripts.
- **Catalog build** (`naming.dfy` and `catalog.dfy`, modules `Naming` and
  `Catalog`). This covers `toTokens`, `toTitle`, `slugify` and `inferStyle`
  from `build-catalog.mjs`, plus its `main`:
  - the filename lookup, where the first writer wins;
  - one icon record per visible file, with its category fallback, metadata,
    tags and style;
  - the `collection::category` aggregate, updated in place;
  - the two output documents.

  The loops of `main` are methods proved against recursive specification
  functions (`Lookup`, `DeriveAll`, `Aggregate`, `KeyOrder`).
- **Reorganizer** (`reorg.dfy`, module `Reorg`). This covers `getShard`, the
  ordered family table of `uiFamilyFromFile`, `uiShardFromFile`, the library
  slug table and the per-file destination decision of `reorg-icons.mjs`. It
  also covers `moveFile` and `main`. The last two are methods of a class
  `FileSystem`, whose fields are the sets of file paths and directories they
  change.
- **Viewer** (`viewer.dfy` and `viewer_app.dfy`, modules `Viewer` and
  `ViewerApp`). The pure helpers of `viewer.js` are `getBaseName`,
  `parseSizeVariant`, `buildFamilyKey`, `normalizeBaseUrl` and `toTitle`.
  The rest is the search text and the size families that `loadData` adds,
  the `applyFilters` predicate, the page window of `renderIcons`, and the tag
  lists of cards and of the detail view. The mutable `state` is a class
  `ViewerState`. Its methods stand for `applyFilters`, `renderIcons`,
  `syncFiltersFromInputs`, the category-list click handler and `loadData`.
- **Shared helpers** (`text.dfy` and `seqs.dfy`, modules `Text` and `Seqs`).
  These hold ASCII character classes, `toLowerCase`, `trim`, `indexOf`,
  `split`/`join`, the extension-stripping regular expression, insertion-order
  deduplication (a JavaScript `Set`), and a sort by an abstract total
  preorder.

Regular expressions are written out by hand as recursive functions. Both the
digits-and-separator size suffix and the anchored family prefixes are
matched exactly as the scripts match them.

Two behaviours of the code are easy to misread:
- `toTitle` in `build-catalog.mjs` splits camel case and turns underscores
  into spaces, but it does not change letter case, although its name
  suggests title case.
- `renderIcons(true)` resets the page to 0 before it checks for a missing
  CDN base URL. So that early return does leave the page at 0
  (`ViewerApp.ViewerState.RenderIcons`).

## Model

| member | source | states |
|---|---|---|
| Text.IndexFrom | scripts/build-catalog.mjs:97-102 | `indexOf` from a position: the first occurrence at or after it, or none when there is no occurrence |
| Text.StripExtension | scripts/build-catalog.mjs:213 | `replace(/\.[^/.]+$/, '')` removes the last dot and what follows only when that suffix is non-empty and has no `.` or `/`; otherwise the name is unchanged |
| Text.Split | scripts/build-catalog.mjs:209 | `split('/')` yields at least one piece, and no piece holds the separator |
| Text.SplitJoin | scripts/build-catalog.mjs:209 | joining the pieces of a split with the same separator gives the input back |
| Seqs.Dedup | scripts/build-catalog.mjs:231-237 | `Array.from(new Set(...))` is duplicate-free, has exactly the input's elements, and is no longer than the input |
| Seqs.DedupExtendsPrefix | scripts/build-catalog.mjs:231-237 | deduplicating a longer list extends the deduplication of its prefix, so first-occurrence order is kept |
| Seqs.Sort | scripts/build-catalog.mjs:276 | the sort (an insertion sort that places each element ahead of the first one it does not follow) is a permutation of its input |
| Seqs.SortSorted | scripts/build-catalog.mjs:276 | under a total preorder the sort's result is ordered |
| Seqs.InsertTies | scripts/build-catalog.mjs:276 | inserting an element puts it ahead of every element ranked level with it and keeps the order of those |
| Seqs.SortStable | scripts/build-catalog.mjs:276 | elements ranked level with each other keep their input order in the sorted list |
| Seqs.SortIsStable | scripts/build-catalog.mjs:276 | the sort is a stable sort: a sorted permutation in which level elements keep their input order, as ECMAScript 2019 requires of `Array.prototype.sort` |
| Seqs.Take | viewer.js:246 | `slice(0, n)` is a prefix of length `min(n, len)` |
| Extractor.CloseFrom | scripts/build-catalog.mjs:107-147 | the first offset at which the string-aware depth, after that character is scanned, is zero; none when the depth never returns to zero |
| Extractor.CloseFromFirst | scripts/build-catalog.mjs:140-145 | the loop's `break` position is the unique first return to depth zero |
| Extractor.CloseFromNone | scripts/build-catalog.mjs:112-151 | if the depth never returns to zero, the search fails, which is the unbalanced error |
| Extractor.RunAppend | scripts/build-catalog.mjs:112-147 | the scan is a left fold: scanning `s + t` is scanning `t` from the state left by `s` |
| Extractor.StepDepth | scripts/build-catalog.mjs:135-146 | one character changes the depth by at most one |
| Extractor.StepInString | scripts/build-catalog.mjs:115-128 | inside a string the depth never changes; the string closes only on its own quote with no pending backslash; a pending backslash consumes the next character |
| Extractor.BodyKeepsState | scripts/build-catalog.mjs:115-128 | inside a string, a body of plain characters other than the quote and backslash, and of escape pairs, leaves the state unchanged, whatever braces it holds, and the depth never drops below its level |
| Extractor.QuotedStringTransparent | scripts/build-catalog.mjs:115-133 | a whole string literal (opening quote, body of plain characters and escape pairs, closing quote), scanned from outside any string, returns the scanner to exactly the state it started from and never lowers the depth on the way |
| Extractor.FirstDepthIsOne | scripts/build-catalog.mjs:135-138 | the opening brace brings the depth to one |
| Extractor.ClosingCharacter | scripts/build-catalog.mjs:140-146 | the character that brings a positive depth to zero is a `}` outside any string |
| Extractor.DepthPositiveBeforeClose | scripts/build-catalog.mjs:107-147 | before the first return to zero, the depth stays at least one |
| Extractor.ClosedShape | scripts/build-catalog.mjs:107-153 | the text up to the first close is balanced: it opens with `{`, closes with `}`, is at depth zero at its end and at positive depth before it |
| Extractor.ExtractedShape | scripts/build-catalog.mjs:153 | every successful extraction is such a balanced literal |
| Extractor.ExtractedErrors | scripts/build-catalog.mjs:97-151 | the three failures, in terms of the content: the marker is absent; no `{` follows the marker; the depth never returns to zero after the brace |
| Extractor.MarkerMissing | scripts/build-catalog.mjs:97-100 | the marker error happens exactly when the content does not contain `const ALL_ICON_CATEGORIES` |
| Extractor.BraceMissing | scripts/build-catalog.mjs:102-105 | after the marker, the brace error happens exactly when no `{` follows the marker |
| Extractor.NeverCloses | scripts/build-catalog.mjs:112-151 | from the brace, the unbalanced error happens exactly when the depth is non-zero after every character |
| Extractor.IndexFromShift | scripts/build-catalog.mjs:97-102 | `indexOf` behind a prefix finds what it finds without the prefix, moved by the prefix length |
| Extractor.MarkerAfter | scripts/build-catalog.mjs:97 | when the marker does not start inside `pre`, `indexOf` finds the marker written right after `pre` |
| Extractor.ScanLiteral | scripts/build-catalog.mjs:107-147 | the scan loop returns `-1` exactly when the search finds no close; otherwise it returns the absolute index of the first close |
| Extractor.Extract | scripts/build-catalog.mjs:94-153 | `extractCategories` up to the sliced text equals the functional specification `Extracted`; on success the slice is balanced |
| Extractor.FirstBraceAfterHead | scripts/build-catalog.mjs:102-105 | in a declaration `const ALL_ICON_CATEGORIES = {...`, the brace found is the literal's opening brace |
| Extractor.ExtractedAfter | scripts/build-catalog.mjs:97-153 | after any text in which the marker does not start, the declaration head and a tail starting with `{`, the extraction is the tail up to its first close, or the unbalanced error |
| Extractor.BalancedCloses | scripts/build-catalog.mjs:107-147 | a balanced literal closes at its last character, whatever text follows it |
| Extractor.ExtractDeclaration | scripts/build-catalog.mjs:94-153 | round trip: for a file holding the declaration of a balanced literal, the extraction returns exactly that literal |
| Extractor.LitNeutral | scripts/build-catalog.mjs:112-146 | every well-formed literal item (a plain character, a string literal, or a nested object) leaves the scanner outside any string at the depth it started from, and never goes below it |
| Extractor.LitsNeutral | scripts/build-catalog.mjs:112-146 | the same for a sequence of items |
| Extractor.Wrapped | scripts/build-catalog.mjs:135-146 | braces around text that is neutral one level deeper are neutral |
| Extractor.ObjectBalanced | scripts/build-catalog.mjs:107-147 | every well-formed object literal is balanced in the scanner's sense |
| Extractor.BracedBalanced | scripts/build-catalog.mjs:135-146 | braces around depth-neutral text give a balanced literal |
| Extractor.ExtractObject | scripts/build-catalog.mjs:94-153 | round trip for the literal grammar: the declaration of any well-formed object literal, after marker-free text and before any text, extracts to exactly that literal |
| Naming.WordsFromSpec | scripts/build-catalog.mjs:44-45 | `split(/[^a-z0-9]+/).filter(Boolean)` yields non-empty `[a-z0-9]` runs whose concatenation is every `[a-z0-9]` character of the input |
| Naming.WordsSplit | scripts/build-catalog.mjs:44-45 | a character outside `[a-z0-9]` ends a word: the words of `a`, it and `b` are the words of `a` then those of `b` |
| Naming.WordsOfToken | scripts/build-catalog.mjs:44-45 | a maximal run of `[a-z0-9]` is one word, never split |
| Naming.ToTokensSpec | scripts/build-catalog.mjs:38-46 | `toTokens`: every token is non-empty `[a-z0-9]`, and the tokens hold exactly the letters and digits of the lower-cased, camel-split value |
| Naming.ToTokensSplit | scripts/build-catalog.mjs:38-46 | `toTokens` splits at every character that is neither a letter nor a digit: the tokens of `a`, such a character and `b` are those of `a` then those of `b` |
| Naming.ToTokensOfToken | scripts/build-catalog.mjs:38-46 | a token is its own only token, so tokens are maximal runs |
| Naming.CollapseSpaces | scripts/build-catalog.mjs:52 | `replace(/\s+/g, ' ')` leaves only single plain spaces and keeps a leading non-space character |
| Naming.ToTitleShape | scripts/build-catalog.mjs:48-54 | a catalog title has no underscore, no white space other than single inner spaces, and no space at either end |
| Naming.ToTitleKeepsText | scripts/build-catalog.mjs:48-54 | a catalog title keeps every other character of the value, in order and in its original case |
| Naming.SqueezeSplitCamel | scripts/build-catalog.mjs:51 | camel splitting only inserts spaces |
| Naming.SqueezeCollapse | scripts/build-catalog.mjs:52 | collapsing white space only removes white space |
| Naming.DashRuns | scripts/build-catalog.mjs:60 | `replace(/[^a-z0-9]+/g, '-')` leaves only `[a-z0-9-]`, without two dashes in a row |
| Naming.DashRunsKeepsAlnum | scripts/build-catalog.mjs:60 | that replacement keeps every letter and digit, in order |
| Naming.TrimDashes | scripts/build-catalog.mjs:61 | removing the leading and the trailing dash runs leaves no dash at either end |
| Naming.TrimDashesKeeps | scripts/build-catalog.mjs:61 | trimming dashes keeps a slug's alphabet and its lack of double dashes |
| Naming.CollapseDashesNoop | scripts/build-catalog.mjs:62 | `replace(/-{2,}/g, '-')` leaves a text without `--` unchanged |
| Naming.SlugifySpec | scripts/build-catalog.mjs:56-63 | a slug holds only `[a-z0-9-]`, neither starts nor ends with `-`, and never has `--` |
| Naming.SlugifyAlnum | scripts/build-catalog.mjs:56-63 | a value made only of ASCII letters and digits slugs to its lower-case form |
| Naming.InferStyle | scripts/build-catalog.mjs:171-178 | each style holds exactly when its rule matches and no earlier rule does: `color` (name has "color" or extension `png`), then `filled` ("fill"), then `line` (collection `ui` or a UI set), else `flat` |
| Naming.FilledContainsFill | scripts/build-catalog.mjs:174 | the "filled" test is subsumed by the "fill" test |
| Catalog.FirstOwner | scripts/build-catalog.mjs:188-201 | the first category, in key order, whose `icons` lists the file |
| Catalog.ClaimSpec | scripts/build-catalog.mjs:196-200 | the inner loop adds only unclaimed names and never overwrites an existing entry |
| Catalog.LookupFirstWriter | scripts/build-catalog.mjs:188-201 | a file name is in the lookup exactly when some category lists it; it maps to the first such category; a non-array `icons` contributes nothing |
| Catalog.LookupLibraryFilled | scripts/build-catalog.mjs:188-200 | a file in the lookup always has a non-empty library: `Uncategorized` when its first category has none, so a known file keeps its lookup library |
| Catalog.BuildLookup | scripts/build-catalog.mjs:188-201 | the two nested loops build that first-writer-wins lookup |
| Catalog.CollectionMeta | scripts/build-catalog.mjs:65-75 | every `COLLECTION_META` entry has a non-empty source, license and brand owner |
| Catalog.UiMeta | scripts/build-catalog.mjs:77-92 | every `UI_META` entry has a non-empty source, license and brand owner |
| Catalog.MetaFor | scripts/build-catalog.mjs:223-228 | found metadata is never empty, whichever table it comes from |
| Catalog.MetaForSpec | scripts/build-catalog.mjs:223-228 | a collection named like an inherited `Object.prototype` member (such as `constructor`) finds a function or an object, so the record gets no metadata fields; any other collection missing from the table gets `Unknown` for all three |
| Catalog.Extname | scripts/build-catalog.mjs:212 | `path.extname` is empty or a `.`-led suffix of the name |
| Catalog.Extension | scripts/build-catalog.mjs:212 | the extension is lower-case, and empty when the name has no dot |
| Catalog.BaseNameAndExtname | scripts/build-catalog.mjs:212-213 | for a real extension, the base name followed by `extname` gives the file name back |
| Catalog.CollectionOf | scripts/build-catalog.mjs:210 | the collection is never empty (`uncategorized` for an empty first segment) |
| Catalog.TokensOf | scripts/build-catalog.mjs:38-46 | every token of a value is a non-empty `[a-z0-9]` string |
| Catalog.TagsWellFormed | scripts/build-catalog.mjs:231-237 | the tag list is duplicate-free and made of non-empty `[a-z0-9]` tokens |
| Catalog.IconRecord.Tags | scripts/build-catalog.mjs:231-237 | a record's `tags` are distinct `[a-z0-9]` tokens |
| Catalog.CategoryEntry.Id | scripts/build-catalog.mjs:264 | an entry's `id` is a well-formed slug of its `collection::name` key |
| Catalog.Derive | scripts/build-catalog.mjs:207-260 | a record has `id == path == relativePath`, the path's last segment as file name and its collection; its category is non-empty unless the inferred one is empty |
| Catalog.DeriveCategory | scripts/build-catalog.mjs:215-220 | a known file keeps its lookup description and `isNew`, its lookup library when non-empty, and its lookup category name when non-empty; a known file with an empty category name, and an unknown file, take `toTitle(segments[1])` or `toTitle(collection)`; an empty or missing library becomes the collection's title; an unknown file has no description and is not new |
| Catalog.Visible | scripts/build-catalog.mjs:205 | the walk keeps exactly the files whose name does not start with `.` |
| Catalog.VisibleAppend | scripts/build-catalog.mjs:205 | filtering a concatenated walk filters each part |
| Catalog.DeriveAll | scripts/build-catalog.mjs:207-260 | one record per file |
| Catalog.DeriveAllPaths | scripts/build-catalog.mjs:242-253 | the records keep the walk's paths and its order, with `id == path` |
| Catalog.FirstWithKey | scripts/build-catalog.mjs:262-271 | the first record with a given `collection::category` key |
| Catalog.AggregateSpec | scripts/build-catalog.mjs:262-273 | a key is in the index exactly when some record has it; its entry counts exactly those records and keeps the first one's name, library, description and UI set |
| Catalog.KeyOrderSpec | scripts/build-catalog.mjs:262-290 | the index's insertion order lists each key once, so `totalCategories` is the number of distinct keys |
| Catalog.Count | scripts/build-catalog.mjs:262-273 | one aggregation step turns the index and key order of a prefix into those of the prefix extended by the record |
| Catalog.AssembleFiles | scripts/build-catalog.mjs:207-274 | the file loop pushes the derived records in order and leaves the index and key order of the whole list |
| Catalog.Assemble | scripts/build-catalog.mjs:184-274 | the loops of `main`: records of the visible files in walk order, with `id == path`, and their aggregate |
| Catalog.Entries | scripts/build-catalog.mjs:291 | `categoryIndex.values()` has one entry per key |
| Catalog.EntriesCount | scripts/build-catalog.mjs:262-273 | every written entry counts exactly the records of its own key, and at least one |
| Catalog.CountKeyPositive | scripts/build-catalog.mjs:272 | a key that some record has is counted at least once |
| Catalog.PathOrder | scripts/build-catalog.mjs:276 | comparing paths is a total preorder on records |
| Catalog.NameOrder | scripts/build-catalog.mjs:291 | comparing names is a total preorder on entries |
| Catalog.CatalogDocument | scripts/build-catalog.mjs:276-284 | `catalog.json` holds the records stably sorted by path: a sorted permutation in which records with equal paths keep their order; `totalIcons` is its length |
| Catalog.CategoriesDocument | scripts/build-catalog.mjs:286-292 | `categories.json` holds the entries stably sorted by name, with `totalCategories` the number of keys |
| Catalog.BuildOutputs | scripts/build-catalog.mjs:180-292 | `main`: the records of the visible files, one each, stably sorted by path, with `id == path`; the entries of the aggregate stably sorted by name |
| Reorg.KeepAlnum | scripts/reorg-icons.mjs:122 | `replace(/[^a-zA-Z0-9]/g, '')` keeps only ASCII letters and digits, and is empty exactly when the name has none |
| Reorg.GetShard | scripts/reorg-icons.mjs:121-128 | `_` when the name has no letter or digit; otherwise the first `length` of them, lower-cased and padded with `_` to exactly `length` |
| Reorg.ShardsNest | scripts/reorg-icons.mjs:266 | the one-character shard is a prefix of the two-character shard |
| Reorg.ShardUnderscoreIff | scripts/reorg-icons.mjs:121-128 | the one-character shard is `_` exactly when the name has no letter or digit |
| Reorg.StripRule | scripts/reorg-icons.mjs:152-188 | removing an anchored prefix drops exactly the matched prefix, and changes nothing when the rule does not match |
| Reorg.FirstMatch | scripts/reorg-icons.mjs:130-148 | the first rule of the table, in order, that matches the name, or none |
| Reorg.FontAwesomeSubfamilies | scripts/reorg-icons.mjs:131-134 | `fa_solid_` and `fa_brand_` names get their own families and never `fontawesome-other` |
| Reorg.FamilyNamesDistinct | scripts/reorg-icons.mjs:130-148 | the table's family names are pairwise distinct |
| Reorg.FindRule | scripts/reorg-icons.mjs:186-191 | the pattern loop of `uiShardFromFile` finds the first matching rule |
| Reorg.FirstMatchSuffix | scripts/reorg-icons.mjs:186-191 | skipping rules known not to match shifts the first match by the number skipped |
| Reorg.UiShardFromFile | scripts/reorg-icons.mjs:150-194 | `uiShardFromFile` computes the specified shard for every family |
| Reorg.UiShardOfFamily | scripts/reorg-icons.mjs:258-262 | for the family a name gets, the shard is the 1-character shard of what follows that family's own prefix, under `solid/`, `brand/` or `other/` for Font Awesome |
| Reorg.UiShardOfNamedFamily | scripts/reorg-icons.mjs:171-191 | for a family of the pattern table, the loop strips that family's own prefix |
| Reorg.NamedNotSpecial | scripts/reorg-icons.mjs:171-184 | the pattern table holds none of the four families handled before the loop |
| Reorg.LibrarySlug | scripts/reorg-icons.mjs:242 | the slug table lookup fails (a function or an object, not a string, comes back) exactly for a library named like an inherited `Object.prototype` member; `PiDEAS` maps to `pideas` |
| Reorg.RoutableClassified | scripts/reorg-icons.mjs:237-267 | a file gets a destination exactly when it is not a known file whose library names an inherited member |
| Reorg.ClassifyPrecedence | scripts/reorg-icons.mjs:237-268 | the order of the rules: a known file goes by its category (to `pideas` exactly when its library slug is `pideas`), then `sap`, then UI families, else uncategorized |
| Reorg.ClassifyKnown | scripts/reorg-icons.mjs:241-251 | a known file outside `pideas` has no destination exactly when its library names an inherited member (`path.join` then throws); otherwise it goes to its library slug and the slug of its category name |
| Reorg.DestinationEndsWithFileName | scripts/reorg-icons.mjs:237-267 | every destination ends in `/` and the unchanged file name |
| Reorg.DestinationNotOtherLegacy | scripts/reorg-icons.mjs:237-267 | no destination is the legacy path of another file |
| Reorg.TargetOutsideLegacy | scripts/reorg-icons.mjs:237-267 | a destination that differs from the legacy path is not directly in the legacy folder |
| Reorg.ReachedStop | scripts/reorg-icons.mjs:237-268 | the loop reaches a file and goes on past it exactly when that file is routable: it halts at the first file whose library names an inherited member |
| Reorg.ReachedRoutable | scripts/reorg-icons.mjs:237-268 | every file the loop went past was routable |
| Reorg.ReplayStep | scripts/reorg-icons.mjs:196-210 | one more turn of the loop applies `moveFile` to one more file |
| Reorg.LegacyKept | scripts/reorg-icons.mjs:237-268 | until its turn, a listed file is still at its legacy path |
| Reorg.MoveStep | scripts/reorg-icons.mjs:237-268 | the closed form of the moved files (old files minus vacated legacy paths plus occupied destinations) takes exactly one `moveFile` step per routed file |
| Reorg.ReplayClosed | scripts/reorg-icons.mjs:237-268 | the files after any prefix of the loop are the old files minus the legacy paths of the files that moved, plus their destinations |
| Reorg.MadeDirsClosed | scripts/reorg-icons.mjs:198-201 | the folders after any prefix of the loop are the old ones plus the destination folder of every routed file whose destination differs from its legacy path, in a dry run too |
| Reorg.OccupiedOutsideLegacy | scripts/reorg-icons.mjs:237-268 | no moved file lands directly in the legacy folder |
| Reorg.LeftUnmoved | scripts/reorg-icons.mjs:270-272 | every file left directly in the legacy folder is the legacy path of a listed file that did not move |
| Reorg.UnmovedLeft | scripts/reorg-icons.mjs:270-272 | every listed file that did not move is still directly in the legacy folder |
| Reorg.RemainingUnmoved | scripts/reorg-icons.mjs:270-272 | the files `remaining` counts are exactly the legacy paths of the files that did not move |
| Reorg.FileSystem.Place | scripts/reorg-icons.mjs:237-267 | one turn of the loop: reports whether the file is routable and, if so, applies `moveFile` to its legacy path and destination; the file count is kept |
| Reorg.Apart | scripts/reorg-icons.mjs:237-268 | two different listed names have different legacy paths; a routed name's destination is never another name's legacy path; two routed names never share a destination |
| Reorg.FileSystem.MoveFile | scripts/reorg-icons.mjs:196-210 | `moveFile`: renames exactly when source and target differ, the target does not exist and this is not a dry run; it creates the target folder unless source is target; it never overwrites, so the file count stays the same |
| Reorg.FileSystem.MoveAll | scripts/reorg-icons.mjs:237-268 | the file loop halts exactly when a file's library names an inherited member; up to there, the files are those of `moveFile` applied to each file in turn (a file moves exactly when its destination differs from its legacy path, does not exist at that step and this is not a dry run), the folders gain the destination folder of each file whose destination differs, the count is kept, and a dry run changes no file |
| Reorg.FileSystem.Reorganize | scripts/reorg-icons.mjs:212-279 | `main`: fails exactly when the legacy folder is missing, changing nothing; stops with the `TypeError` exactly when the loop halts, leaving the moves made so far; otherwise `remaining` counts the legacy files that did not move, and the files and folders are the moved state, minus everything under the legacy folder when that count is zero outside a dry run |
| Reorg.RemoveLegacyTree | scripts/reorg-icons.mjs:275 | the recursive removal keeps exactly the files outside the legacy folder |
| Reorg.AlnumLibrarySlug | scripts/reorg-icons.mjs:242 | a four-character alphanumeric library name falls through the slug table to its lower-case form |
| Reorg.M365Destination | scripts/reorg-icons.mjs:249 | a file of library slug `m365` lands in a sub-folder of the legacy folder |
| Reorg.LegacyCleanupDeletesRoutedFile | scripts/reorg-icons.mjs:270-276 | as written, a file routed to `m365/<category>/` is invisible to the top-level count and is deleted by the recursive removal |
| Reorg.FileSystem.ReorganizeKeepingMoved | scripts/reorg-icons.mjs:270-276 | `main` with the removal guarded by the whole tree: the files are exactly the moved state, so the file count is kept and no file is lost, and the folder goes only when nothing is left under it |
| Viewer.SplitLastPiece | viewer.js:92-93 | the last piece of a split is the text after the last separator, or the whole string when there is no separator |
| Viewer.GetBaseName | viewer.js:90-94 | `getBaseName`: empty exactly for empty input; otherwise the text after the last `/`, or the whole value when that text is empty |
| Viewer.TrailingDigits | viewer.js:99 | the length of the run of digits that ends the text |
| Viewer.MatchSize | viewer.js:99 | a reported match satisfies the size expression: start or `_`/`-`, 2 to 4 digits, then an optional `px` at the end |
| Viewer.RegexEnd | viewer.js:99 | any match's digits end where the optional `px` begins |
| Viewer.MatchSizeExact | viewer.js:99 | the expression matches at most one way, and `MatchSize` finds it; when it reports none, no match exists |
| Viewer.ParseSizeVariant | viewer.js:96-103 | a reported size is always in `KNOWN_SIZES` |
| Viewer.ParseSizeVariantIff | viewer.js:96-103 | a size is reported exactly when the expression matches the extension-stripped base name and its number is a known size |
| Viewer.KnownMatchIff | viewer.js:99-102 | the same fact on the base name |
| Viewer.BuildFamilyKey | viewer.js:105-113 | the family key is lower-case |
| Viewer.FamilyKeyDropsSize | viewer.js:105-113 | the key drops the size suffix, separator included, exactly when `parseSizeVariant` reports a size; otherwise it is the whole base name |
| Viewer.DropTrailingSlashes | viewer.js:117 | `replace(/\/+$/, '')` removes exactly the trailing slashes |
| Viewer.NormalizeBaseUrl | viewer.js:115-118 | empty for empty input; never ends in `/`; is the trimmed value without its trailing slashes |
| Viewer.CapitalizeWords | viewer.js:75 | `replace(/\b\w/g, upper)` upper-cases exactly the word starts |
| Viewer.CapitalizeFacts | viewer.js:75 | capitalising keeps the length, the word structure and every character up to case |
| Viewer.TrimKeeps | viewer.js:74 | trimming adds no character |
| Viewer.ToTitleSpec | viewer.js:72-76 | the viewer's title has no dash, no space at either end and no lower-case word start; ignoring case, it reads like the trimmed, dash-free value |
| Viewer.ToTitleIdempotent | viewer.js:72-76 | titling a title changes nothing |
| ViewerApp.NonEmptyStrings | viewer.js:558 | `filter(Boolean)` keeps exactly the non-empty strings |
| ViewerApp.SearchText | viewer.js:543-560 | the search text has no upper-case letter |
| ViewerApp.SearchTextFinds | viewer.js:543-560 | every search field, lower-cased, occurs in the search text |
| ViewerApp.SearchTokenFinds | viewer.js:365 | a token found in any field, lower-cased, finds the icon |
| ViewerApp.Words | viewer.js:347 | `split(/\s+/).filter(Boolean)` yields non-empty words without white space |
| ViewerApp.WordsSpec | viewer.js:347 | the words, put back together, are the input without its white space |
| ViewerApp.WordsSplit | viewer.js:347 | a white-space character ends a word: the words of `a`, it and `b` are those of `a` then those of `b` |
| ViewerApp.WordsOfWord | viewer.js:347 | a run without white space is one word, never split, so words are maximal |
| ViewerApp.WordsPadded | viewer.js:346-347 | white space around a text adds no word |
| ViewerApp.SearchTokens | viewer.js:346-347 | the search tokens are non-empty words without white space |
| ViewerApp.SearchTokensWords | viewer.js:346-347 | trimming first changes nothing: the search tokens are the words of the lower-cased search text |
| ViewerApp.FilterIcons | viewer.js:352-366 | `filtered` holds exactly the catalog icons that pass all four filters, and is empty with both extension boxes off |
| ViewerApp.FilterIconsAppend | viewer.js:352-366 | the filter keeps catalog order: filtering a concatenation filters each part |
| ViewerApp.FilterIdempotent | viewer.js:352-366 | filtering the filtered list again changes nothing |
| ViewerApp.PageWindow | viewer.js:392-394 | the page window has at most 180 icons, is non-empty exactly when `page * 180 < len`, and is the slice between the clamped bounds |
| ViewerApp.PageExtends | viewer.js:392-394 | the next window extends what is shown by exactly one page |
| ViewerApp.PagesArePrefix | viewer.js:375-492 | loading page after page shows a prefix of `filtered` without gaps or repeats, and all of it once the pages cover it |
| ViewerApp.Enrich | viewer.js:536-562 | the first pass keeps the record, reports only known sizes and gives a lower-case family key |
| ViewerApp.EnrichAll | viewer.js:536-562 | one enriched record per record, in order |
| ViewerApp.AddToFamilySpec | viewer.js:567-572 | adding an icon adds its size once and counts it |
| ViewerApp.FamilyIndexSpec | viewer.js:564-573 | a key is in `familyIndex` exactly when some icon has it; its count is that number of icons, and its sizes are their size variants, each once, in first-seen order |
| ViewerApp.KeyCountPositive | viewer.js:571 | every icon's own key is counted at least once |
| ViewerApp.AddIcon | viewer.js:566-572 | the body of the `forEach` performs one step of the family index |
| ViewerApp.BuildFamilyIndex | viewer.js:564-573 | the `forEach` builds the family index of all icons |
| ViewerApp.AscendingSpec | viewer.js:580 | the sorted sizes rise strictly and are the family's sizes |
| ViewerApp.WithFamilies | viewer.js:575-583 | one catalog entry per enriched record |
| ViewerApp.Grouped | viewer.js:536-583 | one catalog entry per loaded record |
| ViewerApp.GroupedFamilies | viewer.js:564-583 | each entry's `familyCount` is the number of icons with its key; its `sizeVariants` are exactly that group's sizes, ascending and duplicate-free |
| ViewerApp.GroupIcons | viewer.js:536-583 | the two passes of `loadData` compute the grouped records |
| ViewerApp.ModalTags | viewer.js:238-246 | the detail view's tags are duplicate-free and at most 16 |
| ViewerApp.ModalTagsSpec | viewer.js:239-246 | the detail view's tags are the first 16 distinct of `new`, style, UI set, library and the record's tags, in that order; none is invented; `new` comes first for a new icon |
| ViewerApp.CardTags | viewer.js:453 | a card shows at most three tags, none empty |
| ViewerApp.CardTagsInModal | viewer.js:453 | every tag a card shows is also in the detail view |
| ViewerApp.ViewerState.constructor | viewer.js:22-34 | the initial state: empty catalog and filtered list, page 0, the default filters |
| ViewerApp.ViewerState.RenderIcons | viewer.js:375-492 | `renderIcons`: nothing changes on an empty catalog; a reset sets page 0; with no CDN base URL the grid empties and the button hides; otherwise it appends the page window, advances the page, shows "load more" iff `page * 180 < len`, and keeps the grid equal to the pages shown |
| ViewerApp.ViewerState.ShowNextPage | viewer.js:392-492 | appends the next window, sets the status line, advances the page and sets "load more", keeping the grid equal to the pages shown |
| ViewerApp.ViewerState.ApplyFilters | viewer.js:345-373 | `applyFilters`: catalog and filters unchanged; `filtered` is the filtered catalog; on an empty catalog page, grid, "load more" and status stay; otherwise, in CDN mode without a base URL, page 0, an empty grid, no button and the prompt; else page 1 showing the first window, the button exactly when more than 180 icons match, and the no-match message exactly when none does |
| ViewerApp.ViewerState.SyncFilters | viewer.js:605-611 | the filters become the controls' values, an empty select counting as `all`; the catalog stays; `filtered` is recomputed; page, grid, "load more" and status as in `applyFilters` |
| ViewerApp.ViewerState.SelectCategory | viewer.js:646-652 | a click in the category list changes only the category filter, keeps the catalog, refilters and renders the first page as in `applyFilters` |
| ViewerApp.ViewerState.Load | viewer.js:532-598 | `loadData`: the catalog is the grouped records stably sorted by name (under a total preorder), empty exactly for no records; filters stay; `filtered` is recomputed; the first page is shown unless there are no records |
| ViewerApp.ByNamePreorder | viewer.js:587 | comparing names is a total preorder on catalog entries |

## Left out

- Evaluating the extracted text as JavaScript (`vm.runInNewContext`) is not modelled. The category object is an input: a sequence of `CategoryData` in key order.
- The extractor claims nothing about comments or template literals inside the scanned source, which the scanner does not recognise.
- `reorg-icons.mjs` has its own copies of `extractCategories`, `slugify` and the icon-map loop. They are modelled once, as `Extractor.Extract`, `Naming.Slugify` and `Catalog.BuildLookup`. The reorganizer's map has no `isNew` field; the shared lookup carries one that the reorganizer never reads.
- File-system and process effects become inputs or the sets of `Reorg.FileSystem`:
  - reads, writes and stats of files; directory walks; `existsSync`, `mkdirSync`, `renameSync`, `rmSync`;
  - `resolveSourcePath`, environment variables and the `--dry-run` flag, which is a constructor argument.
  - The walk supplies (relative path, size) pairs. Folder creation records only the target folder, not its ancestors.
- `catalog.json` and `categories.json` are modelled as values. JSON printing, the `GENERATED_AT` timestamp (a parameter) and the console messages are not modelled. `path.basename(sourcePath)` is a parameter.
- `categoryMeta` in `build-catalog.mjs` is filled but never read, so it is not modelled.
- Catalog.UiSetOf: a `ui` file with a single path segment gets no UI set. In the script its `uiSet` is `undefined`, not `null`, which only changes the JSON output.
- `localeCompare` (sorting by path, by name and of the viewer's catalog) is an abstract total preorder parameter. Collation itself is left out because it depends on the locale.
- Text handling is ASCII only. The model has no Unicode case mapping and no Unicode `\w`, `\b` or `\s` beyond the ASCII white-space characters.
- `path.join` is modelled only for plain segments (no `.` or `..`). `path.extname` is modelled only for single names.
- `update-github-stats.mjs` is not part of this model. It is a network client whose only logic is a sum.
- viewer.js browser effects are left out:
  - DOM construction and the card and modal markup;
  - `fetch`, `localStorage` and the clipboard;
  - `debounce`, toasts and `setThumbSize`;
  - event wiring and `init`.
- Also left out of viewer.js:
  - `formatBytes`, because it uses floating-point division and `toFixed`;
  - `getCdnBaseUrl` and the preview URLs, which only build strings for the DOM;
  - `COLLECTION_LABELS`, `buildMetaRows`, `buildSelectOptions`, `buildCategoryList`, `applySourceMode` and `persistBaseUrl`.
- ViewerApp.SourceMode takes only the two values the selector offers (`local` and `cdn`). The input field's text is a parameter.
- ViewerApp.FilterIcons takes the search tokens as a parameter. Every caller passes `SearchTokens(filters.search)`, as `applyFilters` computes them once.
- ViewerApp.ViewerState.Load: membership of the loaded records is implied by the multiset equality and is not restated. Sortedness is promised only when the collation is a total preorder.
- Reorg.FileSystem keeps files and folders as two separate sets of paths. It does not model `existsSync` finding a folder where a file is expected, the creation of the destination folder's parents, or a failing `mkdirSync` or `renameSync`.
- The names treated as inherited `Object.prototype` members are the twelve standard ones in `Text.ObjectPrototypeKeys`. A script that changed `Object.prototype` at run time is not modelled.
- Reorg.LegacyCleanupDeletesRoutedFile is stated for every four-character alphanumeric library name whose lower-case form is `m365` (`M365`, `m365`, ...). It is not stated for any other spelling that slugs to `m365`.

## Findings

| source | as written | input that shows it | evidently intended | confidence | as-written member | corrected member |
|---|---|---|---|---|---|---|
| scripts/reorg-icons.mjs:270-276 | `remaining` counts only the files directly in `icons/m365`, but `rmSync` then deletes the folder recursively | a category with library `M365` and any alphanumeric name: its files are routed to `icons/m365/<category>/<file>`, the count is 0, and the removal deletes those files | remove the legacy folder only when no file at all is left under it, so no moved file is lost | medium, not executed | Reorg.LegacyCleanupDeletesRoutedFile | Reorg.FileSystem.ReorganizeKeepingMoved |
