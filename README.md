# Hexo front-matter classify model

A Dafny model of the core of the vscode-hexo-utils extension. The extension edits
the YAML front matter of Hexo posts: the `---` block at the top of a Markdown
file that holds a post's `title`, `date`, `tags` and `categories`.

The model covers two source files.

- `src/commands/classify.ts`:
  - how `prepareNewValue` serializes a tag or category list;
  - how `getFrontMatterKeyRange` finds a key's line span inside the front matter;
  - how `replaceValueInText` splices the new value over that span, or inserts it
    after the opening `---`, and how `updateEditor` expresses the same change as
    one editor edit;
  - how `normalizeCategory` turns user input into a canonical `a / b / c` path;
  - how `getCurrentValues` reads a post's current values;
  - the list edits of the Add, Rename and Delete commands, and their loop over
    the posts filed under a tag or category.
- `src/utils/utils.ts`:
  - `getFrontMatterRange` with its per-document `rangeCache`;
  - `isInFrontMatter`;
  - the metadata `getMDFileMetadata` builds from a parsed front matter, with
    the `metaCache` hit rule.

The modules follow the program:

- `JsString`: the JavaScript string operations the code relies on: `trim`,
  `trimEnd`, `startsWith`, `includes`, `indexOf`, `split`, `join`, and
  `split(/\r?\n/)`.
- `YamlValue`: parsed YAML as JavaScript values, with truthiness, `||`,
  property access, `String(v)` and `Array.prototype.join`.
- `HexoMetadata`: the two keys the commands edit.
- `FrontMatterLocator`: `getFrontMatterKeyRange`, as a specification
  (`Locate`) and as the source's loops.
- `ValueSerializer`: `prepareNewValue`.
- `PatchEngine`: `replaceValueInText`.
- `DocumentUpdate`: `updateFile` and `updateEditor`.
- `CategoryNormalizer`: `normalizeCategory`.
- `ClassifyCommands`: `getCurrentValues`, the name guards, the list edits and
  the command loops.
- `FrontMatterRange`: `getFrontMatterRange` and `isInFrontMatter`.
- `MetadataReader`: `getMDFileMetadata`.
- `AddTagScenario`: one post worked through end to end.

The main results proved:

- The loops of `getFrontMatterKeyRange` compute the unique key range that
  meets an independent description of what the four indices mean.
- Re-splitting a patched text gives:
  - the untouched lines before the key's span;
  - then the lines of the new value;
  - then the untouched lines after it.
- Patching a present key twice with the same serialized list is the same as
  patching it once, when no line of the post but the last ends in `\r` and no
  value holds a line break.
- For a document whose lines are separated by `\n` alone, the `updateEditor`
  edit, applied to the document, yields exactly the text `replaceValueInText`
  returns.
- `normalizeCategory` maps a slash path to its segments joined by ` / `, whatever
  whitespace each piece carries before and after its segment, provided the path
  does not itself trim to a bracketed list. It is idempotent on slash-form input.
- Each list edit is characterised as a multiset change, keeps the order of
  the other values, and keeps lists without repeats free of repeats.
- The command loops write each changed post once, in order.
- The range cache answers with the stored range on a version hit. When a version
  number identifies one text, as the editor promises, that range is the range of
  the document's current text.

Assumptions of the model:

- The key names of `HexoMetadataKeys` are taken to be `tags`, `categories`,
  `title` and `date`, and the aliases `tag` and `category`, as the source reads
  them. `src/hexoMetadata.ts` is not part of this model.
- The lines of the key search and the range scan are
  `text.split(/\r?\n/)`. This is modelled as a split on `\n` followed by
  removing one `\r` at the end of every piece but the last.
- Whitespace is the ECMAScript `trim` set, taken by code point.

## Model

| member | source | states |
|---|---|---|
| JsString.TrimStartSpec | src/commands/classify.ts:147 | `trimStart` removes exactly the leading whitespace: the result is a suffix, everything removed is whitespace, and the result does not start with whitespace |
| JsString.TrimEndSpec | src/commands/classify.ts:82 | `trimEnd` removes exactly the trailing whitespace: the result is a prefix, everything removed is whitespace, and the result does not end with whitespace |
| JsString.TrimIsInterior | src/commands/classify.ts:147 | `trim` yields a contiguous slice of its input with only whitespace on either side, and the slice has no whitespace at its ends |
| JsString.TrimEndOfConcat | src/commands/classify.ts:82 | `trimEnd` of `a + b` only touches `b` when `b` has a non-whitespace character |
| JsString.IndexOf | src/commands/classify.ts:75 | the separator search inside `split` returns -1 or an index at or after `from` where the separator occurs |
| JsString.IndexOfIsFirst | src/commands/classify.ts:189 | no occurrence lies between `from` and the returned index, and none at all when it is -1 |
| JsString.Split | src/commands/classify.ts:75 | `split` gives at least one piece, and joining the pieces with the separator gives the input back |
| JsString.SplitPiecesAvoidSeparator | src/commands/classify.ts:75 | no piece of a split contains the separator |
| JsString.SplitHasSeveralPiecesIffContains | src/commands/classify.ts:70-76 | a split has more than one piece exactly when the input `includes` the separator |
| JsString.SplitJoin | src/commands/classify.ts:75-77 | splitting the join of parts gives the parts back, when a character that marks the separator occurs in no part |
| JsString.SplitAtFirst | src/commands/classify.ts:189 | splitting `a + sep + b`, with `a` free of the separator's marking character, gives `a` and then the pieces of `b` |
| JsString.JoinConcat | src/commands/classify.ts:111 | joining the concatenation of two non-empty lists is joining each and putting the separator between |
| JsString.SplitLines | src/commands/classify.ts:98 | `split(/\r?\n/)` always gives at least one line |
| JsString.SplitLinesNoLineFeed | src/commands/classify.ts:98 | no line of `split(/\r?\n/)` holds a line feed |
| JsString.SplitLinesJoin | src/commands/classify.ts:98-111 | line-feed-free lines, none but the last ending in `\r`, joined by `\n` and split again by `/\r?\n/`, come back unchanged |
| JsString.LineFeedTextRejoins | src/commands/classify.ts:98-111 | a text without carriage returns is the `\n` join of its own lines |
| YamlValue.Or | src/utils/utils.ts:91 | `a \|\| b` is one of its operands, and is truthy exactly when either operand is |
| YamlValue.Get | src/utils/utils.ts:93 | a property read is `undefined` unless the value is an object that has the key |
| YamlValue.Strings | src/utils/utils.ts:104 | `map(String)` keeps the length and converts each element with `String` |
| YamlValue.JoinOfStrings | src/utils/utils.ts:100 | `join` on an array of strings joins the strings themselves |
| YamlValue.ElementString | src/commands/classify.ts:32 | `join` writes a string element as itself |
| FrontMatterLocator.FirstDelimiterFromSpec | src/commands/classify.ts:146-155 | the search for `---` returns a delimiter line with none before it, and -1 only when there is no delimiter at all |
| FrontMatterLocator.FirstDelimiterFrom | src/commands/classify.ts:146-155 | the search for a `---` line returns -1 or a line index at or after where it started |
| FrontMatterLocator.FirstKeyLineSpec | src/commands/classify.ts:163-165 | the key search returns a line starting with `<key>:` with none before it in range, and -1 only when there is none |
| FrontMatterLocator.FirstKeyLine | src/commands/classify.ts:163-165 | the key search returns -1 or a line strictly inside the front matter |
| FrontMatterLocator.ContinuationEndSpec | src/commands/classify.ts:167-174 | every line skipped is a continuation line, and the scan stops at the first line that is not one |
| FrontMatterLocator.ContinuationEnd | src/commands/classify.ts:167-174 | the continuation scan ends no later than the closing `---` |
| FrontMatterLocator.LocateDelimiters | src/commands/classify.ts:144-161 | the found delimiters are the first two `---` lines, or -1 when missing |
| FrontMatterLocator.LocateFindsFrontMatter | src/commands/classify.ts:157-159 | a front matter is found exactly when two lines trim to `---` |
| FrontMatterLocator.LocateKeySpan | src/commands/classify.ts:163-177 | the key span is the first `<key>:` line inside the front matter and the continuation lines after it |
| FrontMatterLocator.LocateIsKeyRange | src/commands/classify.ts:140-180 | the four indices meet the independent description `IsKeyRangeOf`, and a front matter is found exactly when two lines trim to `---` |
| FrontMatterLocator.KeyRangeIsUnique | src/commands/classify.ts:140-180 | any indices meeting that description are the ones the scan returns |
| FrontMatterLocator.LocateBounds | src/commands/classify.ts:157-179 | the found indices are ordered and lie inside the lines: opening before key before key end before closing |
| FrontMatterLocator.KeyLineNotDelimiter | src/commands/classify.ts:147 | a `<key>:` line, for a key that starts with neither whitespace nor `-`, never trims to `---` |
| FrontMatterLocator.IndentedDashNotDelimiter | src/commands/classify.ts:77-79 | a `  - ` item line never trims to `---` |
| FrontMatterLocator.GetFrontMatterKeyRange | src/commands/classify.ts:140-180 | the source's loops return exactly `Locate` |
| FrontMatterLocator.FindDelimiters | src/commands/classify.ts:144-155 | the first loop finds the first `---` line and the next one, -1 for each one missing |
| FrontMatterLocator.SkipContinuation | src/commands/classify.ts:167-173 | the inner loop stops at the first line that does not continue the key's value |
| ValueSerializer.PrepareNewValue | src/commands/classify.ts:65-95 | the method returns the serialization `Serialize` of the key and values |
| ValueSerializer.AppendItemLines | src/commands/classify.ts:73-81 | the loop appends, for each value in order, its item line and a line feed |
| ValueSerializer.ItemLineOfPath | src/commands/classify.ts:75-77 | a nested path whose segments hold no `/` is written as the flow list `  - [a, b]` of exactly its segments |
| ValueSerializer.ItemLineOfPlain | src/commands/classify.ts:75-79 | a value that is not a nested path is written unchanged after `  - ` |
| ValueSerializer.CategoryBlockLines | src/commands/classify.ts:72-83 | the block form splits into the `categories:` line, one item line per value in order, and the last item line with trailing whitespace trimmed |
| ValueSerializer.TagsFlowListRoundTrip | src/commands/classify.ts:86-87 | several tags give `tags: [...]`, whose inside splits on `, ` back into the tags when no tag holds a comma |
| ValueSerializer.ScalarLine | src/commands/classify.ts:68-71 | every one-line form starts with `<key>:` and holds no line break when the values hold none |
| ValueSerializer.SerializedIsKeyBlock | src/commands/classify.ts:65-95 | the serialized lines form a whole key span for their key and hold no carriage return, when no value holds a line break |
| ValueSerializer.BlockLinesAreKeyBlock | src/commands/classify.ts:73-82 | the block-form lines are a `categories:` line followed by continuation lines, none trimming to `---` |
| ValueSerializer.ItemLineIsContinuation | src/commands/classify.ts:77-79 | an item line, trimmed or not, continues the key's value and is not a delimiter |
| PatchEngine.ReplaceValueInText | src/commands/classify.ts:97-112 | the method returns the patched text `Patched` |
| PatchEngine.PatchWithoutFrontMatter | src/commands/classify.ts:101-103 | without two `---` lines the text comes back unchanged |
| PatchEngine.PatchedLinesWithKey | src/commands/classify.ts:105-106 | re-splitting the result gives the lines before the key's span, the new value's lines, then the lines after the span, unchanged and in order |
| PatchEngine.PatchedLinesWithoutKey | src/commands/classify.ts:107-108 | re-splitting the result gives the original lines with the new value's lines right after the opening `---` |
| PatchEngine.SplitSpliced | src/commands/classify.ts:106-111 | splitting the join of spliced line-feed-free lines gives the kept lines around the value's own lines |
| PatchEngine.LocateAfterSplice | src/commands/classify.ts:140-180 | after a key block replaces the key's span, the key search finds exactly that block, with the closing `---` moved by the change in length |
| PatchEngine.KeyRangeAfterSplice | src/commands/classify.ts:140-180 | the shifted indices meet the description of the key range for the spliced lines |
| PatchEngine.DelimitersAfterSplice | src/commands/classify.ts:144-155 | replacing the key's span by a key block leaves the opening `---` in place and moves the closing one by the change in length |
| PatchEngine.SpliceOverSplice | src/commands/classify.ts:106 | splicing a value over a block spliced in earlier equals splicing it over the original span |
| PatchEngine.RepatchSplicedBlock | src/commands/classify.ts:97-112 | patching lines in which the key's span already is the new value's block gives the same text as patching the original lines |
| PatchEngine.RelinedPatchedLines | src/commands/classify.ts:98-111 | re-reading patched lines with `/\r?\n/` gives the spliced lines |
| PatchEngine.LinesPatchIsIdempotent | src/commands/classify.ts:97-112 | patching the re-read patched lines again reproduces the patched text |
| PatchEngine.BlockPatchIsIdempotent | src/commands/classify.ts:97-112 | patching twice equals patching once, for a text that has the key and in which no line but the last ends in `\r`, and a new value whose lines form a key block and hold no `\r` |
| PatchEngine.PatchIsIdempotent | src/commands/classify.ts:65-112 | writing the same serialized list twice into a post that has the key equals writing it once, when no line of the post but the last ends in `\r` and no value holds a line break |
| DocumentUpdate.OffsetOf | src/commands/classify.ts:128 | a position on an existing line lies within the document text |
| DocumentUpdate.UpdateEditor | src/commands/classify.ts:114-138 | the edit replaces the key's lines from column 0 to the end of its last line, or inserts the value and a line feed at the start of the line after the opening `---`; no edit without a front matter |
| DocumentUpdate.EditExistsIffFrontMatter | src/commands/classify.ts:123-125 | an edit is submitted exactly when two lines trim to `---` |
| DocumentUpdate.EditMatchesPatch | src/commands/classify.ts:114-138 | the submitted edit fits the document, and applying it gives what `replaceValueInText` returns |
| DocumentUpdate.EditMatchesPatchedLines | src/commands/classify.ts:127-137 | on a document with a front matter, an edit exists, fits, and applying it gives the patched lines |
| DocumentUpdate.ReplaceSpansLines | src/commands/classify.ts:128-131 | replacing lines `from` to `through` up to the end of the last one joins the value in their place |
| DocumentUpdate.InsertBeforeLine | src/commands/classify.ts:134-136 | inserting the value and a line feed at the start of a line joins the value in front of that line |
| DocumentUpdate.UpdateFile | src/commands/classify.ts:46-63 | a new text is written exactly when patching changes the text, and it is the patched text |
| CategoryNormalizer.StripQuotesSpec | src/commands/classify.ts:187 | the quote replacement removes one quote at each end where there is one, and nothing else; the empty item and a lone quote both become the empty string |
| CategoryNormalizer.TrimPadded | src/commands/classify.ts:184-189 | trimming whitespace padding around text with no whitespace at its ends gives that text |
| CategoryNormalizer.TrimAll | src/commands/classify.ts:189 | each piece of the slash form is trimmed, one result per piece, in order |
| CategoryNormalizer.StripQuotesAll | src/commands/classify.ts:187 | each item of the bracket form is trimmed and then unquoted, one result per item, in order |
| CategoryNormalizer.SlashPathPieces | src/commands/classify.ts:189 | a padded slash path splits on `/` into pieces that trim back to its segments |
| CategoryNormalizer.NormalizePath | src/commands/classify.ts:182-192 | a slash path with one whitespace string on both sides of every slash, and whitespace at its ends, normalizes to its segments joined by ` / ` |
| CategoryNormalizer.NormalizePaddedPath | src/commands/classify.ts:182-192 | a slash path whose pieces each carry their own whitespace before and after their segment normalizes to its segments joined by ` / `, unless it opens with `[` and closes with `]` |
| CategoryNormalizer.TrimBetween | src/commands/classify.ts:184 | `trim` keeps exactly the text from the first to the last character that is not whitespace |
| CategoryNormalizer.TrimmedPiecesAreSegments | src/commands/classify.ts:189-191 | every piece kept by `filter(Boolean)` is a non-empty segment without a slash or end whitespace |
| CategoryNormalizer.SlashFormIsCanonical | src/commands/classify.ts:188-191 | slash-form output is a canonical path: it splits on ` / ` back into its segments |
| CategoryNormalizer.NormalizeIsIdempotent | src/commands/classify.ts:182-192 | normalizing twice equals normalizing once, for slash-form input whose result does not read as a bracketed list |
| CategoryNormalizer.CanonicalPathIsFixed | src/commands/classify.ts:182-192 | a canonical path that does not read as a bracketed list normalizes to itself |
| CategoryNormalizer.NormalizeEmpty | src/commands/classify.ts:182-192 | the empty input normalizes to the empty string |
| CategoryNormalizer.OnlySeparatorsGiveEmpty | src/commands/classify.ts:189-191 | input made only of slashes and whitespace normalizes to the empty string |
| CategoryNormalizer.BlankPiecesVanish | src/commands/classify.ts:189-191 | whitespace-only pieces are all dropped |
| CategoryNormalizer.WithoutSlashIsTrim | src/commands/classify.ts:188-191 | slash-form input without a slash normalizes to its trimmed self |
| CategoryNormalizer.SlashExample | src/commands/classify.ts:182-192 | `a/b/c` normalizes to `a / b / c` |
| CategoryNormalizer.SpacedExample | src/commands/classify.ts:182-192 | ` a / b / c ` normalizes to `a / b / c` |
| CategoryNormalizer.UnevenExample | src/commands/classify.ts:182-192 | `a /b/  c` normalizes to `a / b / c` |
| CategoryNormalizer.BracketList | src/commands/classify.ts:185-187 | a bracketed comma list of unquoted items normalizes to the trimmed items joined by ` / ` |
| CategoryNormalizer.BracketExample | src/commands/classify.ts:185-191 | `[a, b, c]` normalizes to `a / b / c` |
| CategoryNormalizer.UnquotedItems | src/commands/classify.ts:187 | items with no quotes at their trimmed ends lose nothing to quote stripping and none is empty |
| CategoryNormalizer.NonEmptyKeeps | src/commands/classify.ts:191 | `filter(Boolean)` keeps a list without empty strings unchanged |
| ClassifyCommands.CurrentValues | src/commands/classify.ts:18-44 | no values without a parsed front matter; an array gives each element as `String` converts it, with nested category lists joined by ` / `; a string gives itself; anything else gives nothing |
| ClassifyCommands.CurrentValuesMatchMetadata | src/commands/classify.ts:27-38 | the editor's values equal the cached metadata's values, except when the value read after the `tag`/`category` fallback is the empty string, which happens when the plural key is missing or falsy and the singular one holds `""`: then the editor sees `[""]` and the metadata nothing |
| ClassifyCommands.EmptyAliasDisagrees | src/commands/classify.ts:28 | `tag: ""` alone gives the editor `[""]` and the metadata no tags, while `tags: ""` gives both readers no tags |
| ClassifyCommands.FirstIndex | src/commands/classify.ts:331 | `indexOf` is -1 exactly when the name is absent, and otherwise the first index holding it |
| ClassifyCommands.AddSpec | src/commands/classify.ts:273-276 | a post is written exactly when it lacks the name; the name is appended once, the old values kept in front, and a list without repeats keeps none |
| ClassifyCommands.RemoveAtMultiset | src/commands/classify.ts:335 | `splice(i, 1)` takes one copy of the element out |
| ClassifyCommands.RemoveAtOrder | src/commands/classify.ts:335 | `splice(i, 1)` keeps the other elements in order |
| ClassifyCommands.OtherSurvivesRemoval | src/commands/classify.ts:335 | removing one element keeps every other value present |
| ClassifyCommands.RemoveAtDistinct | src/commands/classify.ts:386 | in a list without repeats, removal leaves no copy of the element and no repeats |
| ClassifyCommands.ReplaceAtMultiset | src/commands/classify.ts:337 | the index assignment swaps one copy of the old name for the new name |
| ClassifyCommands.RenameSpec | src/commands/classify.ts:331-340 | a post is written exactly when it has the old name; its first occurrence is replaced in place, or removed when the new name is already there; the new name ends up present |
| ClassifyCommands.RenameKeepsDistinct | src/commands/classify.ts:331-340 | in a list without repeats, a rename to a different name leaves the old name gone, the new one present, and no repeats |
| ClassifyCommands.ReplaceAtDistinct | src/commands/classify.ts:337 | replacing an element by an absent value keeps a list free of repeats |
| ClassifyCommands.DeleteSpec | src/commands/classify.ts:384-387 | a post is written exactly when it has the name; the first occurrence is removed, and in a list without repeats no copy remains |
| ClassifyCommands.AddName | src/commands/classify.ts:271-276 | the method's change and new list are those of the Add edit |
| ClassifyCommands.RenameName | src/commands/classify.ts:330-339 | the method's change and new list are those of the Rename edit |
| ClassifyCommands.DeleteName | src/commands/classify.ts:383-387 | the method's change and new list are those of the Delete edit |
| ClassifyCommands.PlanWritesFit | src/commands/classify.ts:269-278 | every write is the edit of an existing post, with the patched text of that post |
| ClassifyCommands.PlanIsOrdered | src/commands/classify.ts:328-341 | posts are written in order, each at most once |
| ClassifyCommands.PlanStep | src/commands/classify.ts:269-278 | one more post extends the writes of the earlier posts by at most a write of that post |
| ClassifyCommands.PlanCoversChanged | src/commands/classify.ts:381-389 | every post the edit changes is written |
| ClassifyCommands.UpdatePost | src/commands/classify.ts:269-278 | one turn of the loop writes the post exactly when the edit changes it, with the new list and its patched text |
| ClassifyCommands.UpdatePosts | src/commands/classify.ts:267-278 | the loop makes the planned writes, and the count is the number of posts written |
| ClassifyCommands.EmptyCategoryGetsThrough | src/commands/classify.ts:251-257 | as written, the category input `/` passes the emptiness test and becomes the empty name, for Add and for Rename |
| ClassifyCommands.CheckedAddTarget | src/commands/classify.ts:251-257 | the accepted name is never empty, and is the source's name whenever that one is not empty |
| ClassifyCommands.CheckedRenameTarget | src/commands/classify.ts:309-318 | the accepted name is never empty and never the old name, and is the source's name whenever that one is not empty |
| ClassifyCommands.ClassifyAdd | src/commands/classify.ts:238-286 | with the guard as written (`AddTarget`), nothing is written when the input is empty; otherwise the writes are the Add plan for the normalised name, even when it is empty, and the count is their number |
| ClassifyCommands.ClassifyRename | src/commands/classify.ts:295-345 | with the guard as written (`RenameTarget`), nothing is written when the input is empty or the old name; otherwise the writes are the Rename plan for the normalised name, even when it is empty |
| ClassifyCommands.CheckedClassifyAdd | src/commands/classify.ts:238-286 | the command with the corrected guard: nothing is written when the normalised name is empty; otherwise as `ClassifyAdd` |
| ClassifyCommands.CheckedClassifyRename | src/commands/classify.ts:295-345 | the command with the corrected guard: nothing is written when the normalised name is empty or the old name; otherwise as `ClassifyRename` |
| ClassifyCommands.ClassifyDelete | src/commands/classify.ts:373-389 | the writes are the Delete plan |
| FrontMatterRange.RangeOfSpec | src/utils/utils.ts:32-47 | a range exists exactly when two lines trim to `---`; it runs from the first such line to the next, with no delimiter before or strictly inside it |
| FrontMatterRange.RangeIsLocated | src/utils/utils.ts:36-47 | the range is the front matter that `getFrontMatterKeyRange` finds, whatever the key |
| FrontMatterRange.ScanRange | src/utils/utils.ts:32-47 | the scan on a cache miss returns `RangeOf` of the lines |
| FrontMatterRange.InFrontMatterSpec | src/utils/utils.ts:57-63 | a line inside the front matter exists and is not a delimiter; neither delimiter line is inside |
| FrontMatterRange.StoreKeepsValid | src/utils/utils.ts:49-52 | storing a text's range keeps every cache entry the range of its text |
| FrontMatterRange.RangeCache.constructor | src/utils/utils.ts:19-20 | the cache starts empty and coherent |
| FrontMatterRange.RangeCache.GetFrontMatterRange | src/utils/utils.ts:22-55 | the cache stays coherent; a version hit returns the stored range and changes nothing; a miss scans and replaces the entry; for a faithfully versioned document the answer is the range of its text |
| FrontMatterRange.RangeCache.IsInFrontMatter | src/utils/utils.ts:57-63 | the answer comes from the range `getFrontMatterRange` returns: the stored range on a version hit, even one computed from another text, and a fresh scan on a miss, which is stored; for a faithfully versioned document, true exactly when the line lies strictly between the two delimiters of its text |
| MetadataReader.ParsedData | src/utils/utils.ts:91 | the parsed data is truthy, and is the parse result whenever that is truthy |
| MetadataReader.TagsOf | src/utils/utils.ts:102-107 | an array gives its elements through `String`, a non-empty string gives itself, anything else gives no tags |
| MetadataReader.CategoryEntry | src/utils/utils.ts:100 | a nested list becomes a string; any other element is kept |
| MetadataReader.CategoriesOf | src/utils/utils.ts:93-100 | an array gives its elements with nested lists joined, a non-empty string gives itself, anything else gives none |
| MetadataReader.MetadataOf | src/utils/utils.ts:88-137 | a failed read gives empty lists, the file name, the creation time and modification time 0; a read gives the normalised lists, the title and date with `''` defaults, the file's modification time and the data's keys, which are the index numerals for a string or array |
| MetadataReader.TagsFallBack | src/utils/utils.ts:93-102 | tags fall back to `tag`, and categories to `category`, exactly when the plural key is missing or falsy |
| MetadataReader.ScalarFrontMatterKeys | src/utils/utils.ts:91-117 | a front matter parsed to a string or list gives no tags or categories, and its keys are exactly the numerals of its indices |
| YamlValue.IndexKeys | src/utils/utils.ts:117 | every key `Object.keys` gives for a string or array is a numeral below its length |
| YamlValue.IndexKeysHaveAll | src/utils/utils.ts:117 | every index of a string or array is among its keys |
| YamlValue.NumeralRoundTrip | src/utils/utils.ts:117 | reading back the numeral of an index gives the index, so distinct indices give distinct keys |
| MetadataReader.MetadataCache.constructor | src/utils/utils.ts:18 | the metadata cache starts empty |
| MetadataReader.MetadataCache.GetMDFileMetadata | src/utils/utils.ts:78-138 | a hit returns the stored entry unchanged; a miss builds the metadata afresh and stores it under the URI |
| MetadataReader.StoredEntryHits | src/utils/utils.ts:84-86 | an entry stored after a failed read hits only for modification time 0; one stored after a read hits exactly while the modification time is unchanged |
| AddTagScenario.PostSplits | src/commands/classify.ts:98 | the example post splits back into its five lines |
| AddTagScenario.PostLocated | src/commands/classify.ts:140-180 | in the example post the front matter is lines 0 to 3 and `tags` is line 2 alone |
| AddTagScenario.TwoTags | src/commands/classify.ts:86-87 | `foo` and `bar` serialize as `tags: [foo, bar]` |
| AddTagScenario.PatchedPost | src/commands/classify.ts:97-112 | patching the example post's `tags` replaces that line only |
| AddTagScenario.AddBarToPost | src/commands/classify.ts:269-278 | adding `bar` to the one post tagged `foo` writes it once, with tags `foo, bar` and the expected text |

## Left out

- The lookup of the posts filed under a tag or category (`HexoMetadataUtils.get`,
  `classifies.find`). `src/hexoMetadata.ts` is not part of this model, so the posts
  and their current lists are inputs of the command methods.
- `getType` (classify.ts:8-16) and `SelectTags` (classify.ts:195-230). The key is a
  parameter, and the quick pick is user interaction. The edit `SelectTags` submits is
  `updateEditor`'s and is modelled by `DocumentUpdate.UpdateEditor`.
- The input box, the confirmation dialog, the information messages and the refresh
  command. They are user interface, so the command methods start from the text typed
  and from a confirmed delete.
- File and editor I/O:
  - `workspace.fs.stat` and `readFile`;
  - `openTextDocument`, `applyEdit` and `save`;
  - `editor.edit`.

  The file's times, name and read outcome are inputs. `updateFile`'s whole-document
  range (classify.ts:57) is modelled as writing the whole new text.
- The `yamljs` parser and the front-matter regular expression. A parse is an
  `Option<Yaml>` input, `None` when there is no match or the parser throws.
  `getCurrentValues` and `parseFrontMatter` use the same regular expression, so both
  are given the same parse.
- `path.parse(uri.fsPath).name` and `new Date(stat.ctime)`. The name is an input, and
  the date of a failed read is kept as the creation time.
- `Object.keys(data)` is modelled as a set, so the order of the keys is not captured.
- ClassifyCommands.Post: a post's list is taken as strings. A cached category element
  that is not a string, such as a number kept by `CategoryEntry`, would compare with
  `includes` and `indexOf` by strict equality. It would also reach `prepareNewValue`
  (classify.ts:70-76), where `.includes` or `.split` on a number throws a `TypeError`
  and ends the command. That failure is not modelled.
- Asynchrony: the commands' awaits are taken one after the other. The edit
  `updateEditor` submits is not awaited, and no interleaving is modelled.
- DocumentUpdate.EditMatchesPatch: the edit is applied to the document's lines joined
  with `\n`. Documents with `\r\n` line endings, where editor offsets count the `\r`,
  are not covered.
- PatchEngine.PatchIsIdempotent: proved for a post that already has the key, and
  whose lines other than the last do not end in `\r` (text containing `\r\r\n`). Such
  a text loses that `\r` on the first patch and is re-split differently. When the key
  is absent, the inserted line lands just after the opening `---`. If the old first
  line of the block is blank or indented, a second patch takes it into the key's span
  and removes it.
- Strings are sequences of characters taken as code points, so the index keys of a
  string count characters rather than UTF-16 code units. UTF-16 surrogate pairs
  are not modelled. Document versions and modification times are unbounded integers.
- `askForNext`, `sleep`, `isVirtualWorkspace` and the other source files are not part
  of the core.

## Findings

| source | as written | input that shows it | evidently intended | confidence | as-written member | corrected member |
|---|---|---|---|---|---|---|
| src/commands/classify.ts:251-257 | the emptiness test `!newName` runs before `normalizeCategory`, so a category that normalises to the empty string is accepted; Rename has the same order at classify.ts:309-318 | adding the category `/` to the posts under any category appends the empty category `""` to each post's list | reject a name that is empty after normalisation | medium, not executed | ClassifyCommands.EmptyCategoryGetsThrough | ClassifyCommands.CheckedAddTarget |
