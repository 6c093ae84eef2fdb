/** The metadata `getMDFileMetadata` in `src/utils/utils.ts` keeps for a
    post: the tag and category lists normalised from the parsed front
    matter, the title and date with their defaults, and the per-file cache
    that is reused while the file's modification time stays the same. The
    file system is not modelled: the modification and creation times, the
    file name and the outcome of reading and parsing the file are inputs. */
module MetadataReader {
  import opened Wrappers
  import opened JsString
  import opened YamlValue

  /** How reading the file went: the read failed, or it succeeded and the
      front matter parsed to a value (`None` when there was none to parse
      or the parser threw). */
  datatype ReadOutcome = ReadFailed | Read(parsed: Option<Yaml>)

  /** The date kept for a post: the parsed `date` field, or the file's
      creation time when the file could not be read. */
  datatype Stamp = Parsed(v: Yaml) | Created(ctime: int)

  /** One cache entry. `categories` holds the raw elements of the parsed
      list, except that nested lists are joined into one string. */
  datatype Metadata = Metadata(
    tags: seq<string>,
    categories: seq<Yaml>,
    title: Yaml,
    date: Stamp,
    mtime: int,
    keys: set<string>)

  /** `parseFrontMatter(text) || {}`. */
  function ParsedData(parsed: Option<Yaml>): (data: Yaml)
    ensures Truthy(data)
    ensures parsed.Some? && Truthy(parsed.value) ==> data == parsed.value
  {
    Or(if parsed.Some? then parsed.value else Undefined, Obj(map[]))
  }

  /** The tag list made from the raw `tags` (or `tag`) value: an array
      gives each element as `String` converts it, a non-empty string gives
      itself, and anything else gives no tags. */
  function TagsOf(raw: Yaml): (r: seq<string>)
    ensures raw.Arr? ==> |r| == |raw.items| && forall i :: 0 <= i < |r| ==> r[i] == ToJsString(raw.items[i])
    ensures raw.Str? ==> r == if raw.s == "" then [] else [raw.s]
    ensures !raw.Arr? && !raw.Str? ==> r == []
  {
    var v := Or(raw, Arr([]));
    if v.Arr? then Strings(v.items) else if v.Str? then [v.s] else []
  }

  /** A category list element: a nested list joined with ` / `, anything
      else kept as it is. */
  function CategoryEntry(c: Yaml): (r: Yaml)
    ensures !c.Arr? ==> r == c
    ensures c.Arr? ==> r.Str?
  {
    if c.Arr? then Str(ArrayJoin(c.items, " / ")) else c
  }

  /** The category list made from the raw `categories` (or `category`)
      value: an array gives its elements with nested lists joined, a
      non-empty string gives itself, and anything else gives none. */
  function CategoriesOf(raw: Yaml): (r: seq<Yaml>)
    ensures raw.Arr? ==> |r| == |raw.items| && forall i :: 0 <= i < |r| ==> r[i] == CategoryEntry(raw.items[i])
    ensures raw.Str? ==> r == if raw.s == "" then [] else [raw]
    ensures !raw.Arr? && !raw.Str? ==> r == []
  {
    var v := Or(raw, Arr([]));
    if v.Arr? then seq(|v.items|, i requires 0 <= i < |v.items| => CategoryEntry(v.items[i]))
    else if v.Str? then [v]
    else []
  }

  /** `Object.keys(data)`, as a set: an object's own keys, the index
      numerals of a string or an array, and nothing for a number or a
      boolean. */
  function KeysOf(data: Yaml): set<string> {
    match data
    case Obj(fields) => fields.Keys
    case Str(s) => IndexKeys(|s|)
    case Arr(items) => IndexKeys(|items|)
    case _ => {}
  }

  /** The metadata built for a file whose cache entry missed. */
  function MetadataOf(read: ReadOutcome, mtime: int, ctime: int, name: string): (m: Metadata)
    ensures read.ReadFailed? ==>
      m == Metadata([], [], Str(name), Created(ctime), 0, {})
    ensures read.Read? ==> m.mtime == mtime
    ensures read.Read? ==> var data := ParsedData(read.parsed);
      && m.tags == TagsOf(Or(Get(data, "tags"), Get(data, "tag")))
      && m.categories == CategoriesOf(Or(Get(data, "categories"), Get(data, "category")))
      && (Truthy(Get(data, "title")) ==> m.title == Get(data, "title"))
      && (!Truthy(Get(data, "title")) ==> m.title == Str(""))
      && (Truthy(Get(data, "date")) ==> m.date == Parsed(Get(data, "date")))
      && (!Truthy(Get(data, "date")) ==> m.date == Parsed(Str("")))
      && m.keys == KeysOf(data)
  {
    match read
    case ReadFailed => Metadata([], [], Str(name), Created(ctime), 0, {})
    case Read(parsed) =>
      var data := ParsedData(parsed);
      Metadata(
        TagsOf(Or(Get(data, "tags"), Get(data, "tag"))),
        CategoriesOf(Or(Get(data, "categories"), Get(data, "category"))),
        Or(Get(data, "title"), Str("")),
        Parsed(Or(Get(data, "date"), Str(""))),
        mtime,
        KeysOf(data))
  }

  /** The tag list falls back to `tag` exactly when `tags` is missing or
      falsy. */
  lemma {:induction false} TagsFallBack(read: ReadOutcome, mtime: int, ctime: int, name: string)
    requires read.Read?
    ensures var data := ParsedData(read.parsed);
      var m := MetadataOf(read, mtime, ctime, name);
      && (Truthy(Get(data, "tags")) ==> m.tags == TagsOf(Get(data, "tags")))
      && (!Truthy(Get(data, "tags")) ==> m.tags == TagsOf(Get(data, "tag")))
      && (Truthy(Get(data, "categories")) ==> m.categories == CategoriesOf(Get(data, "categories")))
      && (!Truthy(Get(data, "categories")) ==> m.categories == CategoriesOf(Get(data, "category")))
  {
  }

  /** A front matter that parses to a string or a list, rather than a
      mapping, yields no tags or categories, and its keys are exactly the
      numerals of its indices. */
  lemma {:induction false} ScalarFrontMatterKeys(parsed: Yaml, mtime: int, ctime: int, name: string)
    requires Truthy(parsed) && (parsed.Str? || parsed.Arr?)
    ensures var m := MetadataOf(Read(Some(parsed)), mtime, ctime, name);
      var n := if parsed.Str? then |parsed.s| else |parsed.items|;
      && (forall i :: 0 <= i < n ==> Numeral(i) in m.keys)
      && (forall k :: k in m.keys ==> IsNumeral(k) && NumeralValue(k) < n)
      && m.tags == [] && m.categories == []
  {
    var n := if parsed.Str? then |parsed.s| else |parsed.items|;
    forall i | 0 <= i < n
      ensures Numeral(i) in KeysOf(ParsedData(Some(parsed)))
    {
      IndexKeysHaveAll(n, i);
    }
  }

  /** The cache entry for `uri` is reused for a file whose modification
      time is `mtime`. */
  predicate IsHit(entries: map<string, Metadata>, uri: string, mtime: int) {
    uri in entries && entries[uri].mtime == mtime
  }

  /** The per-file metadata cache of `getMDFileMetadata`. */
  class MetadataCache {
    var entries: map<string, Metadata>

    constructor()
      ensures entries == map[]
    {
      entries := map[];
    }

    /** `getMDFileMetadata`: the cached entry when its modification time is
        the file's, otherwise the metadata built afresh, which replaces the
        entry. */
    method GetMDFileMetadata(uri: string, mtime: int, ctime: int, name: string, read: ReadOutcome)
      returns (m: Metadata)
      modifies this
      ensures IsHit(old(entries), uri, mtime) ==> m == old(entries)[uri] && entries == old(entries)
      ensures !IsHit(old(entries), uri, mtime) ==>
        m == MetadataOf(read, mtime, ctime, name) && entries == old(entries)[uri := m]
      ensures uri in entries && entries[uri] == m
    {
      if uri in entries && entries[uri].mtime == mtime {
        return entries[uri];
      }
      m := MetadataOf(read, mtime, ctime, name);
      entries := entries[uri := m];
    }
  }

  /** An entry stored after a failed read is reused only for a file whose
      modification time is 0; an entry stored after a successful read is
      reused exactly while the modification time stays the same. */
  lemma {:induction false} StoredEntryHits(entries: map<string, Metadata>, uri: string, read: ReadOutcome,
                        mtime: int, ctime: int, name: string, later: int)
    ensures var stored := entries[uri := MetadataOf(read, mtime, ctime, name)];
      && (read.ReadFailed? ==> (IsHit(stored, uri, later) <==> later == 0))
      && (read.Read? ==> (IsHit(stored, uri, later) <==> later == mtime))
  {
  }
}
