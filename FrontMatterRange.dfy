/** `getFrontMatterRange` and `isInFrontMatter` in `src/utils/utils.ts`:
    the lines of the opening and closing `---` of a document's front
    matter, cached per document and reused while the document's version
    does not change. A document is its URI, its version and its text; the
    editor promises that one version of a document always has one text. */
module FrontMatterRange {
  import opened Wrappers
  import opened JsString
  import opened FrontMatterLocator

  /** The two delimiter lines. */
  datatype Range = Range(start: nat, end: nat)

  /** The front matter's range in a document with lines `lines`: the first
      two lines that trim to `---`, when there are two. */
  function RangeOf(lines: seq<string>): Option<Range> {
    var s := FirstDelimiterFrom(lines, 0);
    var e := if s == -1 then -1 else FirstDelimiterFrom(lines, s + 1);
    if s == -1 || e == -1 then None else Some(Range(s, e))
  }

  /** A range is found exactly when two lines trim to `---`; it runs from
      the first such line to the next, and no line strictly inside it trims
      to `---`. */
  lemma {:induction false} RangeOfSpec(lines: seq<string>)
    ensures RangeOf(lines).Some? <==> HasTwoDelimiters(lines)
    ensures RangeOf(lines).Some? ==>
      var r := RangeOf(lines).value;
      && r.start < r.end < |lines|
      && IsDelimiter(lines[r.start]) && IsDelimiter(lines[r.end])
      && (forall k :: 0 <= k < r.start ==> !IsDelimiter(lines[k]))
      && (forall k :: r.start < k < r.end ==> !IsDelimiter(lines[k]))
  {
    RangeIsLocated(lines, "");
    LocateIsKeyRange(lines, "");
  }

  /** The range is the block `getFrontMatterKeyRange` finds, whatever the
      key. */
  lemma {:induction false} RangeIsLocated(lines: seq<string>, key: string)
    ensures RangeOf(lines).Some? <==> Locate(lines, key).HasFrontMatter()
    ensures RangeOf(lines).Some? ==>
      RangeOf(lines).value == Range(Locate(lines, key).fmStart, Locate(lines, key).fmEnd)
  {
    FirstDelimiterFromSpec(lines, 0);
    var s := FirstDelimiterFrom(lines, 0);
    if s != -1 {
      FirstDelimiterFromSpec(lines, s + 1);
    }
  }

  /** The scan of `getFrontMatterRange` on a cache miss; it is the loop
      `getFrontMatterKeyRange` starts with. */
  method ScanRange(lines: seq<string>) returns (range: Option<Range>)
    ensures range == RangeOf(lines)
  {
    var start, end := FindDelimiters(lines);
    range := if start != -1 && end != -1 then Some(Range(start, end)) else None;
  }

  /** Line `line` lies strictly between the two delimiters of `range`. */
  predicate InRange(range: Option<Range>, line: nat) {
    range.Some? && range.value.start < line < range.value.end
  }

  /** Line `line` lies strictly between the two delimiters. */
  predicate InFrontMatter(lines: seq<string>, line: nat) {
    InRange(RangeOf(lines), line)
  }

  /** A line inside the front matter exists and is not a delimiter, and
      neither delimiter line counts as inside. */
  lemma {:induction false} InFrontMatterSpec(lines: seq<string>, line: nat)
    ensures InFrontMatter(lines, line) ==> line < |lines| && !IsDelimiter(lines[line])
    ensures RangeOf(lines).Some? ==>
      !InFrontMatter(lines, RangeOf(lines).value.start) && !InFrontMatter(lines, RangeOf(lines).value.end)
  {
    RangeOfSpec(lines);
  }

  /** Every entry holds the range of the text it was computed from. */
  ghost predicate Coherent(entries: map<string, CacheEntry>, texts: map<string, string>) {
    && entries.Keys == texts.Keys
    && forall uri :: uri in entries ==> entries[uri].range == RangeOf(SplitLines(texts[uri]))
  }

  /** Storing the range of a text together with that text keeps the cache
      coherent. */
  lemma {:induction false} StoreKeepsValid(entries: map<string, CacheEntry>, texts: map<string, string>,
                        uri: string, entry: CacheEntry, text: string)
    requires Coherent(entries, texts)
    requires entry.range == RangeOf(SplitLines(text))
    ensures Coherent(entries[uri := entry], texts[uri := text])
  {
  }

  /** One cache entry: the document version the range was computed for. */
  datatype CacheEntry = CacheEntry(version: int, range: Option<Range>)

  /** The module-level `rangeCache`, keyed by document URI. */
  class RangeCache {
    var entries: map<string, CacheEntry>
    /** The text each entry was computed from. */
    ghost var texts: map<string, string>

    /** Every entry holds the range of the text it was computed from. */
    ghost predicate Valid()
      reads this
    {
      Coherent(entries, texts)
    }

    /** The editor's promise for the document `uri`: if the cache holds an
        entry for this version, it was computed from this text. */
    ghost predicate Current(uri: string, version: int, text: string)
      reads this
    {
      uri in entries && uri in texts && entries[uri].version == version ==> texts[uri] == text
    }

    constructor()
      ensures entries == map[] && Valid()
    {
      entries := map[];
      texts := map[];
    }

    /** `getFrontMatterRange`: the cached range when the entry is for the
        document's current version, otherwise a fresh scan, which replaces
        the entry. On a document the editor versions faithfully, the answer
        is always the range of its text. */
    method GetFrontMatterRange(uri: string, version: int, text: string) returns (range: Option<Range>)
      requires Valid()
      modifies this
      ensures Valid()
      ensures old(Current(uri, version, text)) ==> range == RangeOf(SplitLines(text))
      ensures old(uri in entries && entries[uri].version == version) ==>
        range == old(entries[uri].range) && entries == old(entries) && texts == old(texts)
      ensures old(!(uri in entries && entries[uri].version == version)) ==>
        entries == old(entries)[uri := CacheEntry(version, range)] && texts == old(texts)[uri := text]
    {
      if uri in entries && entries[uri].version == version {
        return entries[uri].range;
      }
      range := ScanRange(SplitLines(text));
      StoreKeepsValid(entries, texts, uri, CacheEntry(version, range), text);
      entries := entries[uri := CacheEntry(version, range)];
      texts := texts[uri := text];
    }

    /** `isInFrontMatter`: the position's line lies strictly between the two
        delimiters of the range `getFrontMatterRange` answers with, which on
        a hit is the stored range, whatever text it was computed from. On a
        document the editor versions faithfully, that is the front matter of
        its text. */
    method IsInFrontMatter(uri: string, version: int, text: string, line: nat) returns (b: bool)
      requires Valid()
      modifies this
      ensures Valid()
      ensures old(Current(uri, version, text)) ==> (b <==> InFrontMatter(SplitLines(text), line))
      ensures old(uri in entries && entries[uri].version == version) ==>
        (b <==> InRange(old(entries[uri].range), line)) && entries == old(entries) && texts == old(texts)
      ensures old(!(uri in entries && entries[uri].version == version)) ==>
        (b <==> InFrontMatter(SplitLines(text), line))
        && entries == old(entries)[uri := CacheEntry(version, RangeOf(SplitLines(text)))]
        && texts == old(texts)[uri := text]
    {
      var range := GetFrontMatterRange(uri, version, text);
      if range.None? {
        return false;
      }
      b := line > range.value.start && line < range.value.end;
    }
  }
}
