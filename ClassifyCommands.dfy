/** The tag and category commands of `src/commands/classify.ts`: reading a
    post's current values from its parsed front matter, the name guards of
    Add and Rename, the edit each command makes to one post's value list,
    and the loops that apply that edit to every post filed under a tag or
    category and write the changed posts back. */
module ClassifyCommands {
  import opened Wrappers
  import opened JsString
  import opened HexoMetadata
  import opened YamlValue
  import opened ValueSerializer
  import opened PatchEngine
  import opened DocumentUpdate
  import opened CategoryNormalizer
  import opened MetadataReader

  // ---------------------------------------------------------------------
  // Current values

  /** The raw value of the key, falling back to its singular alias when
      the key is missing or falsy. */
  function RawValue(data: Yaml, key: ClassifyKey): Yaml {
    Or(Get(data, key.Name()), Get(data, key.Alias()))
  }

  /** `getCurrentValues`: the values of the key in the parsed front matter
      (`None` when there is no front matter or it does not parse). An array
      gives its elements as strings, with nested category lists joined by
      ` / `; a string gives itself, even when empty; anything else gives
      nothing. */
  function CurrentValues(parsed: Option<Yaml>, key: ClassifyKey): (r: seq<string>)
    ensures parsed.None? ==> r == []
    ensures parsed.Some? ==> var val := RawValue(ParsedData(parsed), key);
      && (val.Arr? ==> |r| == |val.items| && forall i :: 0 <= i < |r| ==>
            r[i] == if key == Categories && val.items[i].Arr? then ArrayJoin(val.items[i].items, " / ")
                    else ToJsString(val.items[i]))
      && (val.Str? ==> r == [val.s])
      && (!val.Arr? && !val.Str? ==> r == [])
  {
    if parsed.None? then []
    else
      var val := RawValue(ParsedData(parsed), key);
      if val.Arr? then
        if key == Categories then Strings(CategoriesOf(val)) else Strings(val.items)
      else if val.Str? then [val.s]
      else []
  }

  /** The editor's view and the cached metadata agree on a post's values,
      the categories once converted to strings, except when the value read
      after the `tag`/`category` fallback is the empty string: the editor
      then sees one empty value and the metadata none. That value is read
      only when the plural key is missing or falsy and the singular one
      holds the empty string; an empty plural key falls back in both
      readers alike. */
  lemma {:induction false} CurrentValuesMatchMetadata(parsed: Option<Yaml>, key: ClassifyKey, mtime: int, ctime: int, name: string)
    ensures var m := MetadataOf(Read(parsed), mtime, ctime, name);
      var cached := if key == Tags then m.tags else Strings(m.categories);
      var val := RawValue(ParsedData(parsed), key);
      && (val != Str("") ==> CurrentValues(parsed, key) == cached)
      && (val == Str("") ==> CurrentValues(parsed, key) == [""] && cached == [])
  {
    var data := ParsedData(parsed);
    var val := RawValue(data, key);
    assert key.Name() == (if key == Tags then "tags" else "categories");
    assert key.Alias() == (if key == Tags then "tag" else "category");
    if parsed.None? {
      assert val == Undefined;
    }
  }

  /** The one disagreement arises from the singular alias, not from an
      empty plural key. */
  lemma EmptyAliasDisagrees()
    ensures CurrentValues(Some(Obj(map["tag" := Str("")])), Tags) == [""]
    ensures MetadataOf(Read(Some(Obj(map["tag" := Str("")]))), 0, 0, "").tags == []
    ensures CurrentValues(Some(Obj(map["tags" := Str("")])), Tags) == []
    ensures MetadataOf(Read(Some(Obj(map["tags" := Str("")]))), 0, 0, "").tags == []
  {
    CurrentValuesMatchMetadata(Some(Obj(map["tag" := Str("")])), Tags, 0, 0, "");
    CurrentValuesMatchMetadata(Some(Obj(map["tags" := Str("")])), Tags, 0, 0, "");
  }

  // ---------------------------------------------------------------------
  // Edits of one post's value list

  /** The index of the first occurrence of `x`, or -1 (`indexOf`). */
  function FirstIndex(values: seq<string>, x: string): (r: int)
    ensures -1 <= r < |values|
    ensures r == -1 <==> x !in values
    ensures r != -1 ==> values[r] == x && x !in values[..r]
  {
    if |values| == 0 then -1
    else if values[0] == x then 0
    else
      var r := FirstIndex(values[1..], x);
      if r == -1 then -1
      else
        assert values[..r + 1] == [values[0]] + values[1..][..r];
        r + 1
  }

  /** The list without the element at `i` (`splice(i, 1)`). */
  function RemoveAt(values: seq<string>, i: nat): seq<string>
    requires i < |values|
  {
    values[..i] + values[i + 1..]
  }

  /** What a command does to one post's list. */
  datatype ListEdit =
    | AddEdit(newName: string)
    | RenameEdit(oldName: string, newName: string)
    | DeleteEdit(name: string)

  /** The new list a command writes for a post, or `None` when it leaves
      the post alone. */
  function Edited(e: ListEdit, values: seq<string>): Option<seq<string>> {
    match e
    case AddEdit(newName) =>
      if newName in values then None else Some(values + [newName])
    case RenameEdit(oldName, newName) =>
      var i := FirstIndex(values, oldName);
      if i == -1 then None
      else if newName in values then Some(RemoveAt(values, i))
      else Some(values[i := newName])
    case DeleteEdit(name) =>
      var i := FirstIndex(values, name);
      if i == -1 then None else Some(RemoveAt(values, i))
  }

  /** No value occurs twice. */
  predicate Distinct(values: seq<string>) {
    forall i, j :: 0 <= i < j < |values| ==> values[i] != values[j]
  }

  /** Add writes exactly the posts without the name, appending it once;
      a list without repeats stays without repeats. */
  lemma {:induction false} AddSpec(values: seq<string>, newName: string)
    ensures var r := Edited(AddEdit(newName), values);
      && (r.Some? <==> newName !in values)
      && (r.Some? ==> r.value[..|values|] == values && r.value[|values|..] == [newName])
      && (r.Some? ==> multiset(r.value) == multiset(values) + multiset{newName})
      && (r.Some? && Distinct(values) ==> Distinct(r.value))
  {
    var r := Edited(AddEdit(newName), values);
    if r.Some? {
      assert r.value[..|values|] == values;
      assert multiset(r.value) == multiset(values) + multiset([newName]);
    }
  }

  /** Removing the element at `i` takes one copy of it out of the list. */
  lemma {:induction false} RemoveAtMultiset(values: seq<string>, i: nat)
    requires i < |values|
    ensures multiset(RemoveAt(values, i)) == multiset(values) - multiset{values[i]}
  {
    assert values == values[..i] + [values[i]] + values[i + 1..];
  }

  /** Removing the element at `i` keeps the others in order. */
  lemma {:induction false} RemoveAtOrder(values: seq<string>, i: nat)
    requires i < |values|
    ensures |RemoveAt(values, i)| == |values| - 1
    ensures forall j :: 0 <= j < i ==> RemoveAt(values, i)[j] == values[j]
    ensures forall j :: i <= j < |values| - 1 ==> RemoveAt(values, i)[j] == values[j + 1]
  {
  }

  /** In a list without repeats, removing the element at `i` leaves none of
      it and still no repeats. */
  lemma {:induction false} RemoveAtDistinct(values: seq<string>, i: nat)
    requires i < |values| && Distinct(values)
    ensures Distinct(RemoveAt(values, i)) && values[i] !in RemoveAt(values, i)
  {
    var r := RemoveAt(values, i);
    RemoveAtOrder(values, i);
    forall j | 0 <= j < |r|
      ensures r[j] != values[i]
    {
      if j >= i {
        assert r[j] == values[j + 1];
      }
    }
  }

  /** Replacing the element at `i` by `x` swaps one copy for another. */
  lemma {:induction false} ReplaceAtMultiset(values: seq<string>, i: nat, x: string)
    requires i < |values|
    ensures multiset(values[i := x]) == multiset(values) - multiset{values[i]} + multiset{x}
  {
    assert values == values[..i] + [values[i]] + values[i + 1..];
    assert values[i := x] == values[..i] + [x] + values[i + 1..];
  }

  /** A value other than the removed one stays in the list. */
  lemma {:induction false} OtherSurvivesRemoval(values: seq<string>, i: nat, x: string)
    requires i < |values| && x in values && x != values[i]
    ensures x in RemoveAt(values, i)
  {
    RemoveAtMultiset(values, i);
    assert multiset(values)[x] >= 1;
  }

  /** Rename writes exactly the posts that have the old name. The first
      occurrence is replaced by the new name, or removed when the new name
      is already there; everything else keeps its place. */
  lemma {:induction false} RenameSpec(values: seq<string>, oldName: string, newName: string)
    ensures var r := Edited(RenameEdit(oldName, newName), values);
      var i := FirstIndex(values, oldName);
      && (r.Some? <==> oldName in values)
      && (r.Some? && newName in values ==>
            r.value == RemoveAt(values, i) && multiset(r.value) == multiset(values) - multiset{oldName})
      && (r.Some? && newName !in values ==>
            && |r.value| == |values| && r.value[i] == newName
            && (forall j :: 0 <= j < |values| && j != i ==> r.value[j] == values[j])
            && multiset(r.value) == multiset(values) - multiset{oldName} + multiset{newName})
      && (r.Some? && oldName != newName ==> newName in r.value)
  {
    var i := FirstIndex(values, oldName);
    if i != -1 {
      if newName in values {
        RemoveAtMultiset(values, i);
        if oldName != newName {
          OtherSurvivesRemoval(values, i, newName);
        }
      } else {
        ReplaceAtMultiset(values, i, newName);
      }
    }
  }

  /** In a list without repeats, renaming to a different name leaves the
      old name gone and the new one there exactly once. */
  lemma {:induction false} RenameKeepsDistinct(values: seq<string>, oldName: string, newName: string)
    requires Distinct(values) && oldName in values && oldName != newName
    ensures var r := Edited(RenameEdit(oldName, newName), values).value;
      Distinct(r) && oldName !in r && newName in r
  {
    var i := FirstIndex(values, oldName);
    RenameSpec(values, oldName, newName);
    if newName in values {
      RemoveAtDistinct(values, i);
    } else {
      ReplaceAtDistinct(values, i, newName);
    }
  }

  /** In a list without repeats, replacing an element by a value not in
      the list leaves no repeats and none of the replaced value. */
  lemma {:induction false} ReplaceAtDistinct(values: seq<string>, i: nat, x: string)
    requires i < |values| && Distinct(values) && x !in values
    ensures Distinct(values[i := x]) && values[i] !in values[i := x]
  {
    var r := values[i := x];
    forall j, k | 0 <= j < k < |r|
      ensures r[j] != r[k]
    {
      if j != i && k != i {
        assert r[j] == values[j] && r[k] == values[k];
      } else if j == i {
        assert r[k] == values[k];
      } else {
        assert r[j] == values[j];
      }
    }
  }

  /** Delete writes exactly the posts that have the name and removes its
      first occurrence only. */
  lemma {:induction false} DeleteSpec(values: seq<string>, name: string)
    ensures var r := Edited(DeleteEdit(name), values);
      var i := FirstIndex(values, name);
      && (r.Some? <==> name in values)
      && (r.Some? ==>
            && r.value == RemoveAt(values, i)
            && multiset(r.value) == multiset(values) - multiset{name}
            && (Distinct(values) ==> Distinct(r.value) && name !in r.value))
  {
    var i := FirstIndex(values, name);
    if i != -1 {
      RemoveAtMultiset(values, i);
      if Distinct(values) {
        RemoveAtDistinct(values, i);
      }
    }
  }

  /** `values.includes(newName)` / `values.push(newName)` in `ClassifyAdd`. */
  method AddName(values: seq<string>, newName: string) returns (changed: bool, result: seq<string>)
    ensures (if changed then Some(result) else None) == Edited(AddEdit(newName), values)
  {
    result := values;
    changed := false;
    if newName !in result {
      result := result + [newName];
      changed := true;
    }
  }

  /** The `indexOf` / `splice` / index assignment of `ClassifyRename`. */
  method RenameName(values: seq<string>, oldName: string, newName: string) returns (changed: bool, result: seq<string>)
    ensures (if changed then Some(result) else None) == Edited(RenameEdit(oldName, newName), values)
  {
    result := values;
    changed := false;
    var index := FirstIndex(result, oldName);
    if index != -1 {
      if newName in result {
        result := result[..index] + result[index + 1..];
      } else {
        result := result[index := newName];
      }
      changed := true;
    }
  }

  /** The `indexOf` / `splice` of `ClassifyDelete`. */
  method DeleteName(values: seq<string>, name: string) returns (changed: bool, result: seq<string>)
    ensures (if changed then Some(result) else None) == Edited(DeleteEdit(name), values)
  {
    result := values;
    changed := false;
    var index := FirstIndex(result, name);
    if index != -1 {
      result := result[..index] + result[index + 1..];
      changed := true;
    }
  }

  // ---------------------------------------------------------------------
  // Applying an edit to every post under a tag or category

  /** A post filed under the tag or category: its text and its current
      list for the key. */
  datatype Post = Post(text: string, values: seq<string>)

  /** One call of `updateFile`: which post, the list it was given, and the
      text written back (`None` when patching changed nothing). */
  datatype Write = Write(post: nat, values: seq<string>, written: Option<string>)

  /** The text `updateFile` writes over a post, if any. */
  function FileUpdate(text: string, key: ClassifyKey, values: seq<string>): Option<string> {
    var patched := Patched(text, key.Name(), Serialize(key, values));
    if patched != text then Some(patched) else None
  }

  /** The writes made for the posts in order, one per post the edit
      changes. */
  function Plan(posts: seq<Post>, key: ClassifyKey, e: ListEdit): seq<Write>
    decreases |posts|
  {
    if |posts| == 0 then []
    else
      var n := |posts| - 1;
      var rest := Plan(posts[..n], key, e);
      match Edited(e, posts[n].values)
      case None => rest
      case Some(v) => rest + [Write(n, v, FileUpdate(posts[n].text, key, v))]
  }

  /** The write `w` belongs in the plan: the post exists, the edit changes
      its list to the written list, and the text is the patched text. */
  predicate Fits(posts: seq<Post>, key: ClassifyKey, e: ListEdit, w: Write) {
    && w.post < |posts|
    && Edited(e, posts[w.post].values) == Some(w.values)
    && w.written == FileUpdate(posts[w.post].text, key, w.values)
  }

  /** Every write in the plan is an edit of its post, patched into the
      post's text. */
  lemma {:induction false} PlanWritesFit(posts: seq<Post>, key: ClassifyKey, e: ListEdit)
    ensures forall k :: 0 <= k < |Plan(posts, key, e)| ==> Fits(posts, key, e, Plan(posts, key, e)[k])
  {
    if |posts| > 0 {
      var n := |posts| - 1;
      PlanWritesFit(posts[..n], key, e);
      var rest := Plan(posts[..n], key, e);
      forall k | 0 <= k < |rest|
        ensures Fits(posts, key, e, rest[k])
      {
        assert Fits(posts[..n], key, e, rest[k]);
        assert posts[..n][rest[k].post] == posts[rest[k].post];
      }
    }
  }

  /** The plan writes the posts in order, each at most once. */
  lemma {:induction false} PlanIsOrdered(posts: seq<Post>, key: ClassifyKey, e: ListEdit)
    ensures var p := Plan(posts, key, e);
      && (forall k :: 0 <= k < |p| ==> p[k].post < |posts|)
      && (forall k, l :: 0 <= k < l < |p| ==> p[k].post < p[l].post)
  {
    if |posts| > 0 {
      var n := |posts| - 1;
      PlanIsOrdered(posts[..n], key, e);
      var rest := Plan(posts[..n], key, e);
      var p := Plan(posts, key, e);
      PlanStep(posts, key, e);
      forall k | 0 <= k < |p|
        ensures p[k].post < |posts|
      {
        if k < |rest| {
          assert p[k] == rest[k];
        }
      }
      forall k, l | 0 <= k < l < |p|
        ensures p[k].post < p[l].post
      {
        assert p[k] == rest[k];
        if l < |rest| {
          assert p[l] == rest[l];
        }
      }
    }
  }

  /** The plan for the posts extends the plan for all but the last, by at
      most a write of the last. */
  lemma {:induction false} PlanStep(posts: seq<Post>, key: ClassifyKey, e: ListEdit)
    requires |posts| > 0
    ensures var n := |posts| - 1;
      var rest := Plan(posts[..n], key, e);
      var p := Plan(posts, key, e);
      p[..|rest|] == rest && (|p| == |rest| || (|p| == |rest| + 1 && p[|rest|].post == n))
  {
  }

  /** Every post the edit changes is written. */
  lemma {:induction false} PlanCoversChanged(posts: seq<Post>, key: ClassifyKey, e: ListEdit, f: nat)
    requires f < |posts| && Edited(e, posts[f].values).Some?
    ensures exists k :: 0 <= k < |Plan(posts, key, e)| && Plan(posts, key, e)[k].post == f
  {
    var n := |posts| - 1;
    var p := Plan(posts, key, e);
    if f < n {
      assert posts[..n][f] == posts[f];
      PlanCoversChanged(posts[..n], key, e, f);
      var rest := Plan(posts[..n], key, e);
      var k :| 0 <= k < |rest| && rest[k].post == f;
      assert p[k] == rest[k];
    } else {
      assert p[|p| - 1].post == f;
    }
  }

  /** One turn of the loops below: the post's edit and its write. */
  method UpdatePost(post: Post, index: nat, key: ClassifyKey, e: ListEdit) returns (w: Option<Write>)
    ensures match Edited(e, post.values)
      case None => w.None?
      case Some(v) => w == Some(Write(index, v, FileUpdate(post.text, key, v)))
  {
    var changed: bool, values: seq<string>;
    match e {
      case AddEdit(newName) =>
        changed, values := AddName(post.values, newName);
      case RenameEdit(oldName, newName) =>
        changed, values := RenameName(post.values, oldName, newName);
      case DeleteEdit(name) =>
        changed, values := DeleteName(post.values, name);
    }
    if !changed {
      return None;
    }
    var written := UpdateFile(post.text, key, values);
    return Some(Write(index, values, written));
  }

  /** The loop over the posts shared by the three commands, counting the
      posts written (the count `ClassifyAdd` reports). */
  method UpdatePosts(posts: seq<Post>, key: ClassifyKey, e: ListEdit) returns (writes: seq<Write>, updatedCount: nat)
    ensures writes == Plan(posts, key, e)
    ensures updatedCount == |writes|
  {
    writes, updatedCount := [], 0;
    var i := 0;
    while i < |posts|
      invariant 0 <= i <= |posts|
      invariant writes == Plan(posts[..i], key, e)
      invariant updatedCount == |writes|
    {
      var w := UpdatePost(posts[i], i, key, e);
      assert posts[..i + 1][..i] == posts[..i];
      if w.Some? {
        writes := writes + [w.value];
        updatedCount := updatedCount + 1;
      }
      i := i + 1;
    }
    assert posts[..|posts|] == posts;
  }

  // ---------------------------------------------------------------------
  // Name guards

  /** The new name `ClassifyAdd` goes on with, as written: the input is
      rejected when empty, then normalised for categories. */
  function AddTarget(input: string, key: ClassifyKey): Option<string> {
    if input == "" then None
    else if key == Categories then Some(NormalizeCategory(input))
    else Some(input)
  }

  /** The new name `ClassifyRename` goes on with, as written: the input is
      rejected when empty or unchanged, and for categories also when it
      normalises to the old name. */
  function RenameTarget(input: string, oldName: string, key: ClassifyKey): Option<string> {
    if input == "" || input == oldName then None
    else if key == Categories then
      var n := NormalizeCategory(input);
      if n == oldName then None else Some(n)
    else Some(input)
  }

  /** As written, the emptiness test runs before normalisation, so a
      category made only of slashes gets through as the empty name. */
  lemma EmptyCategoryGetsThrough()
    ensures AddTarget("/", Categories) == Some("")
    ensures RenameTarget("/", "news", Categories) == Some("")
  {
    OnlySeparatorsGiveEmpty("/");
  }

  /** `AddTarget` with the emptiness test also applied after
      normalisation. */
  function CheckedAddTarget(input: string, key: ClassifyKey): (r: Option<string>)
    ensures r.Some? ==> r.value != ""
    ensures r.Some? ==> r == AddTarget(input, key)
    ensures AddTarget(input, key).Some? && AddTarget(input, key).value != "" ==> r.Some?
  {
    var t := AddTarget(input, key);
    if t.Some? && t.value == "" then None else t
  }

  /** `RenameTarget` with the emptiness test also applied after
      normalisation. A renamed name is never empty and never the old
      name. */
  function CheckedRenameTarget(input: string, oldName: string, key: ClassifyKey): (r: Option<string>)
    ensures r.Some? ==> r.value != "" && r.value != oldName
    ensures r.Some? ==> r == RenameTarget(input, oldName, key)
    ensures RenameTarget(input, oldName, key).Some? && RenameTarget(input, oldName, key).value != "" ==> r.Some?
  {
    var t := RenameTarget(input, oldName, key);
    if t.Some? && t.value == "" then None else t
  }

  // ---------------------------------------------------------------------
  // The commands

  /** `ClassifyAdd`: add the new name to every post under the tag or
      category that lacks it; the count is of the posts written. The guard
      is the one the source runs, so a category that normalises to the
      empty name is added as `""`. */
  method ClassifyAdd(input: string, key: ClassifyKey, posts: seq<Post>) returns (writes: seq<Write>, updatedCount: nat)
    ensures var t := AddTarget(input, key);
      && (t.None? ==> writes == [] && updatedCount == 0)
      && (t.Some? ==> writes == Plan(posts, key, AddEdit(t.value)) && updatedCount == |writes|)
  {
    var newName := AddTarget(input, key);
    if newName.None? {
      return [], 0;
    }
    writes, updatedCount := UpdatePosts(posts, key, AddEdit(newName.value));
  }

  /** `ClassifyAdd` with the corrected guard, which also rejects a name
      that is empty after normalisation. */
  method CheckedClassifyAdd(input: string, key: ClassifyKey, posts: seq<Post>) returns (writes: seq<Write>, updatedCount: nat)
    ensures var t := CheckedAddTarget(input, key);
      && (t.None? ==> writes == [] && updatedCount == 0)
      && (t.Some? ==> writes == Plan(posts, key, AddEdit(t.value)) && updatedCount == |writes|)
  {
    var newName := CheckedAddTarget(input, key);
    if newName.None? {
      return [], 0;
    }
    writes, updatedCount := UpdatePosts(posts, key, AddEdit(newName.value));
  }

  /** `ClassifyRename`: rename the tag or category in every post that has
      it. The guard is the one the source runs, so a category that
      normalises to the empty name is renamed to `""`. */
  method ClassifyRename(input: string, oldName: string, key: ClassifyKey, posts: seq<Post>) returns (writes: seq<Write>)
    ensures var t := RenameTarget(input, oldName, key);
      && (t.None? ==> writes == [])
      && (t.Some? ==> writes == Plan(posts, key, RenameEdit(oldName, t.value)))
  {
    var newName := RenameTarget(input, oldName, key);
    if newName.None? {
      return [];
    }
    var updatedCount;
    writes, updatedCount := UpdatePosts(posts, key, RenameEdit(oldName, newName.value));
  }

  /** `ClassifyRename` with the corrected guard, which also rejects a name
      that is empty after normalisation. */
  method CheckedClassifyRename(input: string, oldName: string, key: ClassifyKey, posts: seq<Post>) returns (writes: seq<Write>)
    ensures var t := CheckedRenameTarget(input, oldName, key);
      && (t.None? ==> writes == [])
      && (t.Some? ==> writes == Plan(posts, key, RenameEdit(oldName, t.value)))
  {
    var newName := CheckedRenameTarget(input, oldName, key);
    if newName.None? {
      return [];
    }
    var updatedCount;
    writes, updatedCount := UpdatePosts(posts, key, RenameEdit(oldName, newName.value));
  }

  /** `ClassifyDelete`, once confirmed: remove the tag or category from
      every post that has it. */
  method ClassifyDelete(name: string, key: ClassifyKey, posts: seq<Post>) returns (writes: seq<Write>)
    ensures writes == Plan(posts, key, DeleteEdit(name))
  {
    var updatedCount;
    writes, updatedCount := UpdatePosts(posts, key, DeleteEdit(name));
  }
}
