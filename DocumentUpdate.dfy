/** How `src/commands/classify.ts` writes a new value back. `updateFile`
    rewrites a whole file with what `replaceValueInText` returns, and only
    when that differs from the file's text. `updateEditor` submits one edit
    on the open document: it replaces the key's line span, or inserts a line
    after the opening `---`. Applied to a document whose lines end in `\n`,
    that edit produces exactly the text `replaceValueInText` computes. */
module DocumentUpdate {
  import opened Wrappers
  import opened JsString
  import opened FrontMatterLocator
  import opened HexoMetadata
  import opened ValueSerializer
  import opened PatchEngine

  /** A zero-based line and character position in a document. */
  datatype Position = Position(line: nat, character: nat)

  /** The two edits `updateEditor` submits: replacing a range, or inserting
      text at a position. */
  datatype Edit =
    | Replace(start: Position, end: Position, text: string)
    | Insert(at: Position, text: string)

  /** The offset in the `\n`-joined text at which line `l` starts. */
  function LineStart(lines: seq<string>, l: nat): nat
    requires l <= |lines|
  {
    if l == 0 then 0 else LineStart(lines, l - 1) + |lines[l - 1]| + 1
  }

  /** A position on an existing line, at most at its end. */
  predicate Within(lines: seq<string>, p: Position) {
    p.line < |lines| && p.character <= |lines[p.line]|
  }

  /** The offset of a position in the `\n`-joined text. */
  function OffsetOf(lines: seq<string>, p: Position): (r: nat)
    requires Within(lines, p)
    ensures r <= |Join(lines, "\n")|
  {
    LineStartBound(lines, p.line + 1);
    LineStart(lines, p.line) + p.character
  }

  /** An edit the document can take: its positions exist and a replaced
      range does not run backwards. */
  predicate EditFits(lines: seq<string>, e: Edit) {
    match e
    case Replace(start, end, _) =>
      Within(lines, start) && Within(lines, end) && OffsetOf(lines, start) <= OffsetOf(lines, end)
    case Insert(at, _) => Within(lines, at)
  }

  /** The text of a document with lines `lines` and `\n` line endings after
      the edit is applied. */
  function ApplyEdit(lines: seq<string>, e: Edit): string
    requires EditFits(lines, e)
  {
    var t := Join(lines, "\n");
    match e
    case Replace(start, end, text) => t[..OffsetOf(lines, start)] + text + t[OffsetOf(lines, end)..]
    case Insert(at, text) => t[..OffsetOf(lines, at)] + text + t[OffsetOf(lines, at)..]
  }

  /** The joined first `l` lines end one character before line `l` starts. */
  lemma {:induction false} JoinPrefixLength(lines: seq<string>, l: nat)
    requires 1 <= l <= |lines|
    ensures |Join(lines[..l], "\n")| + 1 == LineStart(lines, l)
  {
    if l == 1 {
      assert lines[..1] == [lines[0]];
    } else {
      JoinPrefixLength(lines, l - 1);
      assert lines[..l] == lines[..l - 1] + [lines[l - 1]];
      JoinConcat(lines[..l - 1], [lines[l - 1]], "\n");
    }
  }

  /** Every line starts within the joined text, one past its end at most. */
  lemma {:induction false} LineStartBound(lines: seq<string>, l: nat)
    requires 1 <= l <= |lines|
    ensures LineStart(lines, l) <= |Join(lines, "\n")| + 1
  {
    JoinPrefixLength(lines, l);
    if l < |lines| {
      JoinCut(lines, l);
    } else {
      assert lines[..l] == lines;
    }
  }

  /** The joined text, cut in front of line `l`. */
  lemma {:induction false} JoinCut(lines: seq<string>, l: nat)
    requires 1 <= l < |lines|
    ensures Join(lines, "\n") == Join(lines[..l], "\n") + "\n" + Join(lines[l..], "\n")
  {
    assert lines == lines[..l] + lines[l..];
    JoinConcat(lines[..l], lines[l..], "\n");
  }

  /** The edit `updateEditor` submits for a document with lines `lines` and
      the serialized value `newValue`, or `None` when it submits none. */
  function EditFor(lines: seq<string>, key: string, newValue: string): Option<Edit> {
    var r := Locate(lines, key);
    if !r.HasFrontMatter() then None
    else
      LocateBounds(lines, key);
      if r.HasKey() then
        Some(Replace(Position(r.keyStartLine, 0), Position(r.keyEndLine, |lines[r.keyEndLine]|), newValue))
      else
        Some(Insert(Position(r.fmStart + 1, 0), newValue + "\n"))
  }

  /** `updateEditor`: serialize the values, locate the key and build the
      edit; no edit without a front matter. */
  method UpdateEditor(text: string, key: ClassifyKey, values: seq<string>) returns (edit: Option<Edit>)
    ensures edit == EditFor(SplitLines(text), key.Name(), Serialize(key, values))
  {
    var newValue := PrepareNewValue(key, values);
    var lines := SplitLines(text);
    var r := GetFrontMatterKeyRange(lines, key.Name());
    if r.fmStart == -1 || r.fmEnd == -1 {
      return None;
    }
    LocateBounds(lines, key.Name());
    if r.keyStartLine != -1 {
      edit := Some(Replace(Position(r.keyStartLine, 0), Position(r.keyEndLine, |lines[r.keyEndLine]|), newValue));
    } else {
      edit := Some(Insert(Position(r.fmStart + 1, 0), newValue + "\n"));
    }
  }

  /** An edit is submitted exactly when the text has a front matter. */
  lemma {:induction false} EditExistsIffFrontMatter(text: string, key: string, newValue: string)
    ensures EditFor(SplitLines(text), key, newValue).Some? <==> HasTwoDelimiters(SplitLines(text))
  {
    LocateIsKeyRange(SplitLines(text), key);
  }

  /** The editor route and the file route agree: the submitted edit fits the
      document, and applying it gives what `replaceValueInText` returns. */
  lemma {:induction false} EditMatchesPatch(text: string, key: string, newValue: string)
    ensures var lines := SplitLines(text);
      var e := EditFor(lines, key, newValue);
      e.Some? ==> (EditFits(lines, e.value) && ApplyEdit(lines, e.value) == Patched(text, key, newValue))
  {
    var lines := SplitLines(text);
    if Locate(lines, key).HasFrontMatter() {
      EditMatchesPatchedLines(lines, key, newValue);
    }
  }

  /** The same on the lines of a document with a front matter. */
  lemma {:induction false} EditMatchesPatchedLines(lines: seq<string>, key: string, newValue: string)
    requires Locate(lines, key).HasFrontMatter()
    ensures EditFor(lines, key, newValue).Some?
    ensures var e := EditFor(lines, key, newValue).value;
      EditFits(lines, e) && ApplyEdit(lines, e) == PatchedLines(lines, key, newValue)
  {
    var r := Locate(lines, key);
    LocateBounds(lines, key);
    if r.HasKey() {
      ReplaceSpansLines(lines, r.keyStartLine, r.keyEndLine, newValue);
    } else {
      InsertBeforeLine(lines, r.fmStart + 1, newValue);
    }
  }

  /** Replacing lines `from` through `through`, end of line included, by a
      value joins the value in their place. */
  lemma {:induction false} ReplaceSpansLines(lines: seq<string>, from: nat, through: nat, value: string)
    requires 1 <= from <= through < |lines| - 1
    ensures var e := Replace(Position(from, 0), Position(through, |lines[through]|), value);
      EditFits(lines, e) && ApplyEdit(lines, e) == Join(Splice(lines, from, through, value), "\n")
  {
    var p, m, q := Join(lines[..from], "\n"), Join(lines[from..through + 1], "\n"), Join(lines[through + 1..], "\n");
    SpanCut(lines, from, through);
    SpanOffsets(lines, from, through);
    CutAround(p, m, q, value);
    JoinAround(lines[..from], value, lines[through + 1..]);
  }

  /** The joined text around the lines `from` through `through`. */
  lemma {:induction false} SpanCut(lines: seq<string>, from: nat, through: nat)
    requires 1 <= from <= through < |lines| - 1
    ensures Join(lines, "\n")
         == Join(lines[..from], "\n") + "\n" + Join(lines[from..through + 1], "\n") + "\n" + Join(lines[through + 1..], "\n")
  {
    var pre, mid, post := lines[..from], lines[from..through + 1], lines[through + 1..];
    assert lines == pre + mid + post;
    JoinConcat(pre + mid, post, "\n");
    JoinConcat(pre, mid, "\n");
  }

  /** Where the lines `from` through `through` start and end in the joined
      text. */
  lemma {:induction false} SpanOffsets(lines: seq<string>, from: nat, through: nat)
    requires 1 <= from <= through < |lines| - 1
    ensures LineStart(lines, from) == |Join(lines[..from], "\n")| + 1
    ensures LineStart(lines, through) + |lines[through]|
         == |Join(lines[..from], "\n")| + 1 + |Join(lines[from..through + 1], "\n")|
  {
    var upTo := lines[..through + 1];
    JoinPrefixLength(lines, from);
    JoinPrefixLength(lines, through + 1);
    JoinCut(upTo, from);
    assert upTo[..from] == lines[..from] && upTo[from..] == lines[from..through + 1];
  }

  /** Inserting a value and a line feed at the start of line `at` joins the
      value in front of that line. */
  lemma {:induction false} InsertBeforeLine(lines: seq<string>, at: nat, value: string)
    requires 1 <= at < |lines|
    ensures var e := Insert(Position(at, 0), value + "\n");
      EditFits(lines, e) && ApplyEdit(lines, e) == Join(Splice(lines, at, at - 1, value), "\n")
  {
    var pre, post := lines[..at], lines[at..];
    assert Join(lines, "\n") == Join(pre, "\n") + "\n" + Join(post, "\n") by {
      JoinCut(lines, at);
    }
    assert LineStart(lines, at) == |Join(pre, "\n")| + 1 by {
      JoinPrefixLength(lines, at);
    }
    CutBefore(Join(pre, "\n"), Join(post, "\n"), value);
    assert lines[at - 1 + 1..] == post;
    JoinAround(pre, value, post);
  }

  /** Replacing the middle of `p\nm\nq` by `v`. */
  lemma {:induction false} CutAround(p: string, m: string, q: string, v: string)
    ensures var t := p + "\n" + m + "\n" + q;
      t[..|p| + 1] + v + t[|p| + 1 + |m|..] == p + "\n" + v + "\n" + q
  {
    var t := p + "\n" + m + "\n" + q;
    assert t[..|p| + 1] == p + "\n";
    assert t[|p| + 1 + |m|..] == "\n" + q;
  }

  /** Inserting `v\n` at the start of the second line of `p\nq`. */
  lemma {:induction false} CutBefore(p: string, q: string, v: string)
    ensures var t := p + "\n" + q;
      t[..|p| + 1] + (v + "\n") + t[|p| + 1..] == p + "\n" + v + "\n" + q
  {
    var t := p + "\n" + q;
    assert t[..|p| + 1] == p + "\n";
    assert t[|p| + 1..] == q;
  }

  /** `updateFile`: the new text to write over the whole file, or `None`
      when patching leaves the text as it was. */
  method UpdateFile(text: string, key: ClassifyKey, values: seq<string>) returns (written: Option<string>)
    ensures written.Some? <==> Patched(text, key.Name(), Serialize(key, values)) != text
    ensures written.Some? ==> written.value == Patched(text, key.Name(), Serialize(key, values))
  {
    var newValue := PrepareNewValue(key, values);
    var newText := ReplaceValueInText(text, key.Name(), newValue);
    if newText != text {
      written := Some(newText);
    } else {
      written := None;
    }
  }

  /** Lines joined around a value. */
  lemma {:induction false} JoinAround(pre: seq<string>, value: string, post: seq<string>)
    requires |pre| >= 1 && |post| >= 1
    ensures Join(pre + [value] + post, "\n") == Join(pre, "\n") + "\n" + value + "\n" + Join(post, "\n")
  {
    JoinConcat(pre + [value], post, "\n");
    JoinConcat(pre, [value], "\n");
  }
}
