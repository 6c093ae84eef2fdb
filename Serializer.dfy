/** The value serializer of `src/commands/classify.ts` (`prepareNewValue`):
    renders a tag or category list as the replacement text of its key, in
    Hexo's conventions. Tags use a bare scalar or a flow list `[a, b]`;
    categories use a bare scalar or a block list whose nested paths `a / b`
    become `  - [a, b]`. */
module ValueSerializer {
  import opened JsString
  import opened HexoMetadata
  import opened FrontMatterLocator

  /** One block-list line for a category value: a nested path `a / b / c`
      becomes the flow list `[a, b, c]`, anything else stays as it is. */
  function ItemLine(v: string): string {
    var parts := Split(v, " / ");
    if |parts| > 1 then "  - [" + Join(parts, ", ") + "]" else "  - " + parts[0]
  }

  /** Lines each followed by a line feed: the text a loop of `+= line + "\n"`
      accumulates. */
  function Terminated(lines: seq<string>): string
    decreases |lines|
  {
    if lines == [] then ""
    else Terminated(lines[..|lines| - 1]) + lines[|lines| - 1] + "\n"
  }

  /** Categories take the block form when there are several of them or the
      only one is a nested path. */
  predicate UsesBlockList(values: seq<string>) {
    |values| > 1 || (|values| == 1 && Contains(values[0], " / "))
  }

  /** The text `prepareNewValue` returns for `key` and `values`. */
  function Serialize(key: ClassifyKey, values: seq<string>): string {
    match key
    case Categories =>
      if |values| == 0 then key.Name() + ": []"
      else if !UsesBlockList(values) then key.Name() + ": " + values[0]
      else TrimEnd(key.Name() + ":" + "\n" + Terminated(ItemLineSeq(values)))
    case Tags =>
      if |values| > 1 then key.Name() + ": [" + Join(values, ", ") + "]"
      else if |values| == 1 then key.Name() + ": " + values[0]
      else key.Name() + ": []"
  }

  /** `prepareNewValue`: the block list is built by appending one line per
      value and trimming the trailing whitespace at the end. */
  method PrepareNewValue(key: ClassifyKey, values: seq<string>) returns (newValue: string)
    ensures newValue == Serialize(key, values)
  {
    newValue := "";
    if key == Categories {
      if |values| == 0 {
        newValue := key.Name() + ": []";
      } else if |values| == 1 && !Contains(values[0], " / ") {
        newValue := key.Name() + ": " + values[0];
      } else {
        newValue := AppendItemLines(key.Name() + ":" + "\n", values);
        newValue := TrimEnd(newValue);
      }
    } else {
      if |values| > 1 {
        newValue := key.Name() + ": [" + Join(values, ", ") + "]";
      } else if |values| == 1 {
        newValue := key.Name() + ": " + values[0];
      } else {
        newValue := key.Name() + ": []";
      }
    }
  }

  /** A nested path whose segments hold no `/` becomes the flow list of its
      segments. */
  lemma {:induction false} ItemLineOfPath(segs: seq<string>)
    requires |segs| > 1
    requires forall i :: 0 <= i < |segs| ==> '/' !in segs[i]
    ensures ItemLine(Join(segs, " / ")) == "  - [" + Join(segs, ", ") + "]"
  {
    assert MarkedBy(" / ", '/', 1);
    SplitJoin(segs, " / ", '/', 1);
  }

  /** A value that is not a nested path is written as it is. */
  lemma {:induction false} ItemLineOfPlain(v: string)
    requires !Contains(v, " / ")
    ensures ItemLine(v) == "  - " + v
  {
    SplitWithoutSeparator(v, " / ");
  }

  /** The loop of `prepareNewValue` that appends one item line per value,
      each ended by a line feed, to `header`. */
  method AppendItemLines(header: string, values: seq<string>) returns (text: string)
    ensures text == header + Terminated(ItemLineSeq(values))
  {
    text := header;
    assert ItemLineSeq(values[..0]) == [];
    for i := 0 to |values|
      invariant text == header + Terminated(ItemLineSeq(values[..i]))
    {
      var parts := Split(values[i], " / ");
      var line;
      if |parts| > 1 {
        line := "  - [" + Join(parts, ", ") + "]";
      } else {
        line := "  - " + parts[0];
      }
      AppendItemLineStep(header, values, i);
      text := text + line + "\n";
    }
    assert values[..|values|] == values;
  }

  /** The item lines of `values`, one per value, in order. */
  function ItemLineSeq(values: seq<string>): (r: seq<string>)
    ensures |r| == |values|
  {
    seq(|values|, i requires 0 <= i < |values| => ItemLine(values[i]))
  }

  predicate NoLineBreaks(values: seq<string>) {
    forall i :: 0 <= i < |values| ==> '\n' !in values[i] && '\r' !in values[i]
  }

  /** An item line keeps its `  -` head through `trimEnd`. */
  lemma {:induction false} ItemLineHead(v: string)
    ensures StartsWith(ItemLine(v), "  - ")
    ensures StartsWith(TrimEnd(ItemLine(v)), "  -")
  {
    var l := ItemLine(v);
    assert l[..4] == "  - ";
    TrimEndSpec(l);
    assert !IsWhitespace(l[2]);
    assert 3 <= |TrimEnd(l)|;
    assert TrimEnd(l)[..3] == l[..3];
  }

  /** A value without line breaks gives an item line without line breaks. */
  lemma {:induction false} ItemLineNoBreaks(v: string, c: char)
    requires c == '\n' || c == '\r'
    requires c !in v
    ensures c !in ItemLine(v)
  {
    var parts := Split(v, " / ");
    SplitPiecesAvoid(v, " / ", c);
    JoinAvoids(parts, ", ", c);
  }

  /** The invariant of that loop is kept by appending the next item line. */
  lemma {:induction false} AppendItemLineStep(header: string, values: seq<string>, i: nat)
    requires i < |values|
    ensures header + Terminated(ItemLineSeq(values[..i])) + ItemLine(values[i]) + "\n"
      == header + Terminated(ItemLineSeq(values[..i + 1]))
  {
    ItemLineSeqSnoc(values, i);
    TerminatedSnoc(ItemLineSeq(values[..i]), ItemLine(values[i]));
  }

  /** One more value gives one more item line, at the end. */
  lemma {:induction false} ItemLineSeqSnoc(values: seq<string>, i: nat)
    requires i < |values|
    ensures ItemLineSeq(values[..i + 1]) == ItemLineSeq(values[..i]) + [ItemLine(values[i])]
  {
  }

  /** Appending a line appends it and its line feed to the text. */
  lemma {:induction false} TerminatedSnoc(lines: seq<string>, line: string)
    ensures Terminated(lines + [line]) == Terminated(lines) + line + "\n"
  {
    assert (lines + [line])[..|lines|] == lines;
  }

  /** Terminated lines are the lines joined by line feeds, plus a final
      line feed. */
  lemma {:induction false} TerminatedAsJoin(lines: seq<string>)
    requires |lines| >= 1
    ensures Terminated(lines) == Join(lines, "\n") + "\n"
    decreases |lines|
  {
    var n := |lines|;
    var init := lines[..n - 1];
    if n > 1 {
      TerminatedAsJoin(init);
      assert lines == init + [lines[n - 1]];
      JoinConcat(init, [lines[n - 1]], "\n");
    }
  }

  /** The block form is `categories:` followed by one line per value, in
      order: `  - v`, or `  - [s1, s2, ...]` for a nested path, with trailing
      whitespace trimmed from the last line only. */
  lemma {:induction false} CategoryBlockLines(values: seq<string>)
    requires UsesBlockList(values)
    requires NoLineBreaks(values)
    ensures Split(Serialize(Categories, values), "\n") == BlockLines(values)
  {
    var n := |values|;
    var header := Categories.Name() + ":";
    var init := ItemLineSeq(values[..n - 1]);
    var last := ItemLine(values[n - 1]);
    BlockText(values);
    LastItemLine(values[n - 1]);
    ItemLinesNoLineFeed(values[..n - 1]);
    BlockTextSplits(header, init, last);
  }

  /** An item line is at least `  - ` long, has no line feed when its value
      has none, and its third character is the dash. */
  lemma {:induction false} LastItemLine(v: string)
    requires '\n' !in v
    ensures |ItemLine(v)| >= 3 && !IsWhitespace(ItemLine(v)[2]) && '\n' !in ItemLine(v)
  {
    ItemLineHead(v);
    ItemLineNoBreaks(v, '\n');
  }

  /** Item lines of values without line breaks have no line feed. */
  lemma {:induction false} ItemLinesNoLineFeed(values: seq<string>)
    requires NoLineBreaks(values)
    ensures forall i :: 0 <= i < |ItemLineSeq(values)| ==> '\n' !in ItemLineSeq(values)[i]
  {
    forall i | 0 <= i < |values| ensures '\n' !in ItemLineSeq(values)[i] {
      ItemLineNoBreaks(values[i], '\n');
    }
  }

  /** The block form is the trimmed header and terminated item lines. */
  lemma {:induction false} BlockText(values: seq<string>)
    requires UsesBlockList(values)
    ensures Serialize(Categories, values)
      == TrimEnd(Categories.Name() + ":" + "\n" + Terminated(ItemLineSeq(values[..|values| - 1]) + [ItemLine(values[|values| - 1])]))
  {
    assert ItemLineSeq(values) == ItemLineSeq(values[..|values| - 1]) + [ItemLine(values[|values| - 1])];
  }

  /** The lines of the block form of `values`. */
  function BlockLines(values: seq<string>): seq<string>
    requires |values| >= 1
  {
    [Categories.Name() + ":"] + ItemLineSeq(values[..|values| - 1]) + [TrimEnd(ItemLine(values[|values| - 1]))]
  }

  /** Trimming the end of a header and some terminated lines, the last of
      which has a non-blank character, removes the final line feed and the
      last line's trailing whitespace; splitting on line feeds then gives
      the lines back. */
  lemma {:induction false} BlockTextSplits(header: string, init: seq<string>, last: string)
    requires '\n' !in header && '\n' !in last
    requires forall i :: 0 <= i < |init| ==> '\n' !in init[i]
    requires |last| >= 3 && !IsWhitespace(last[2])
    ensures Split(TrimEnd(header + "\n" + Terminated(init + [last])), "\n")
      == [header] + init + [TrimEnd(last)]
  {
    HeaderAndTerminated(header, init, last);
    var head := Join([header] + init, "\n");
    TrimEndDropsFinalBreak(head, last);
    TrimEndSpec(last);
    assert '\n' !in TrimEnd(last);
    SplitHeaderAndLines(header, init, TrimEnd(last));
  }

  /** A header line above terminated lines is their join, with the last
      line's feed kept apart. */
  lemma {:induction false} HeaderAndTerminated(header: string, init: seq<string>, last: string)
    ensures header + "\n" + Terminated(init + [last])
      == Join([header] + init, "\n") + "\n" + (last + "\n")
  {
    var all := init + [last];
    TerminatedAsJoin(all);
    JoinConcat([header], all, "\n");
    assert [header] + all == ([header] + init) + [last];
    JoinConcat([header] + init, [last], "\n");
    var h := Join([header] + init, "\n");
    calc {
      header + "\n" + Terminated(all);
      header + "\n" + (Join(all, "\n") + "\n");
      (header + "\n" + Join(all, "\n")) + "\n";
      Join([header] + all, "\n") + "\n";
      (h + "\n" + last) + "\n";
      h + "\n" + (last + "\n");
    }
  }

  /** `trimEnd` stops inside a last line that has a non-blank character. */
  lemma {:induction false} TrimEndDropsFinalBreak(head: string, last: string)
    requires |last| >= 3 && !IsWhitespace(last[2])
    ensures TrimEnd(head + "\n" + (last + "\n")) == head + "\n" + TrimEnd(last)
  {
    assert !IsWhitespace((last + "\n")[2]);
    TrimEndOfConcat(head + "\n", last + "\n");
    assert (last + "\n")[..|last + "\n"| - 1] == last;
  }

  /** Lines without line feeds, joined by line feeds, split back into the
      same lines. */
  lemma {:induction false} SplitHeaderAndLines(header: string, init: seq<string>, t: string)
    requires '\n' !in header && '\n' !in t
    requires forall i :: 0 <= i < |init| ==> '\n' !in init[i]
    ensures Split(Join([header] + init, "\n") + "\n" + t, "\n") == [header] + init + [t]
  {
    var lines := [header] + init + [t];
    JoinConcat([header] + init, [t], "\n");
    SplitJoin(lines, "\n", '\n', 0);
  }

  /** Between its brackets, a flow list of several tags splits on `, ` back
      into the tags, provided no tag contains a comma. */
  lemma {:induction false} TagsFlowListRoundTrip(values: seq<string>)
    requires |values| > 1
    requires forall i :: 0 <= i < |values| ==> ',' !in values[i]
    ensures StartsWith(Serialize(Tags, values), "tags: [") && EndsWith(Serialize(Tags, values), "]")
    ensures Split(Serialize(Tags, values)[7..|Serialize(Tags, values)| - 1], ", ") == values
  {
    var s := Serialize(Tags, values);
    assert s[7..|s| - 1] == Join(values, ", ");
    SplitJoin(values, ", ", ',', 0);
  }

  /** No line holds a carriage return. */
  predicate WithoutCR(lines: seq<string>) {
    forall j :: 0 <= j < |lines| ==> '\r' !in lines[j]
  }

  /** The lines of a serialized value form a whole key span for its key, and
      none of them holds a carriage return, as long as no value holds a
      line break. */
  lemma {:induction false} SerializedIsKeyBlock(key: ClassifyKey, values: seq<string>)
    requires NoLineBreaks(values)
    ensures IsKeyBlock(Split(Serialize(key, values), "\n"), key.Name())
    ensures WithoutCR(Split(Serialize(key, values), "\n"))
  {
    var nv := Serialize(key, values);
    if key == Categories && UsesBlockList(values) {
      CategoryBlockLines(values);
      BlockLinesAreKeyBlock(values);
    } else {
      ScalarLine(key, values);
      ScalarIsKeyBlock(nv, key);
    }
  }

  /** A value serialized on one line starts with the key and holds no line
      break. */
  lemma {:induction false} ScalarLine(key: ClassifyKey, values: seq<string>)
    requires NoLineBreaks(values)
    requires !(key == Categories && UsesBlockList(values))
    ensures var nv := Serialize(key, values);
      StartsKey(nv, key.Name()) && '\n' !in nv && '\r' !in nv
  {
    var nv := Serialize(key, values);
    var n := key.Name();
    if key == Tags && |values| > 1 {
      JoinAvoids(values, ", ", '\n');
      JoinAvoids(values, ", ", '\r');
      assert nv == n + ":" + (" [" + Join(values, ", ") + "]");
    } else if |values| == 1 {
      assert nv == n + ":" + (" " + values[0]);
    } else {
      assert nv == n + ":" + " []";
    }
  }

  /** A one-line value that starts with the key forms a key span of one line. */
  lemma {:induction false} ScalarIsKeyBlock(line: string, key: ClassifyKey)
    requires StartsKey(line, key.Name())
    requires '\n' !in line && '\r' !in line
    ensures Split(line, "\n") == [line]
    ensures IsKeyBlock(Split(line, "\n"), key.Name())
    ensures WithoutCR(Split(line, "\n"))
  {
    AbsentCharNotContained(line, '\n');
    SplitWithoutSeparator(line, "\n");
    KeyLineNotDelimiter(line, key.Name());
  }

  /** The lines of the block form make a key span for `categories`. */
  lemma {:induction false} BlockLinesAreKeyBlock(values: seq<string>)
    requires |values| >= 1
    requires NoLineBreaks(values)
    ensures IsKeyBlock(BlockLines(values), Categories.Name())
    ensures WithoutCR(BlockLines(values))
  {
    var n := |values|;
    var header := Categories.Name() + ":";
    var mid := ItemLineSeq(values[..n - 1]);
    var last := TrimEnd(ItemLine(values[n - 1]));
    assert StartsWith(header, header);
    KeyLineNotDelimiter(header, Categories.Name());
    forall i | 0 <= i < |mid| ensures ItemContinues(mid[i]) {
      ItemLineIsContinuation(values[i]);
    }
    ItemLineIsContinuation(values[n - 1]);
    KeyBlockOfParts(header, mid, last, Categories.Name());
  }

  /** A line that may follow a key line inside its span. */
  predicate ItemContinues(line: string) {
    IsContinuation(line) && !IsDelimiter(line) && '\r' !in line
  }

  /** A key line followed by continuation lines is a key span. */
  lemma {:induction false} KeyBlockOfParts(header: string, mid: seq<string>, last: string, key: string)
    requires StartsKey(header, key) && !IsDelimiter(header) && '\r' !in header
    requires forall i :: 0 <= i < |mid| ==> ItemContinues(mid[i])
    requires ItemContinues(last)
    ensures IsKeyBlock([header] + mid + [last], key)
    ensures WithoutCR([header] + mid + [last])
  {
    var lines := [header] + mid + [last];
    forall j | 1 <= j < |lines| ensures ItemContinues(lines[j]) {
      if j <= |mid| {
        assert lines[j] == mid[j - 1];
      }
    }
  }

  /** An item line and its end-trimmed form are continuation lines that do
      not trim to `---` and hold no carriage return. */
  lemma {:induction false} ItemLineIsContinuation(v: string)
    requires '\r' !in v
    ensures IsContinuation(ItemLine(v)) && !IsDelimiter(ItemLine(v)) && '\r' !in ItemLine(v)
    ensures IsContinuation(TrimEnd(ItemLine(v))) && !IsDelimiter(TrimEnd(ItemLine(v)))
    ensures '\r' !in TrimEnd(ItemLine(v))
  {
    var l := ItemLine(v);
    ItemLineHead(v);
    ItemLineNoBreaks(v, '\r');
    assert l[3] == ' ';
    IndentedDashNotDelimiter(l);
    var t := TrimEnd(l);
    TrimEndSpec(l);
    assert |t| > 3 ==> t[3] == ' ';
    IndentedDashNotDelimiter(t);
    assert t[..1] == " ";
  }
}
