/** The text patch of `src/commands/classify.ts`: `replaceValueInText`
    splices the serialized value over the key's line span, or inserts it
    right after the opening `---` when the key is absent, and re-joins the
    lines with `\n`; `updateEditor` expresses the same change as one range
    edit on the open document. */
module PatchEngine {
  import opened Wrappers
  import opened JsString
  import opened FrontMatterLocator
  import opened HexoMetadata
  import opened ValueSerializer

  /** `lines` with the lines `from` through `through` replaced by the single
      element `value`; with `through == from - 1` nothing is removed and
      `value` is inserted at `from` (`Array.prototype.splice`). */
  function Splice(lines: seq<string>, from: nat, through: int, value: string): seq<string>
    requires from <= through + 1 <= |lines|
  {
    lines[..from] + [value] + lines[through + 1..]
  }

  /** What `replaceValueInText` returns. */
  function Patched(text: string, key: string, newValue: string): string
  {
    var lines := SplitLines(text);
    if Locate(lines, key).HasFrontMatter() then PatchedLines(lines, key, newValue) else text
  }

  /** The lines of a document with a front matter, spliced and re-joined
      with `\n`. */
  function PatchedLines(lines: seq<string>, key: string, newValue: string): string
    requires Locate(lines, key).HasFrontMatter()
  {
    var r := Locate(lines, key);
    LocateBounds(lines, key);
    if r.HasKey() then Join(Splice(lines, r.keyStartLine, r.keyEndLine, newValue), "\n")
    else Join(Splice(lines, r.fmStart + 1, r.fmStart, newValue), "\n")
  }

  /** `replaceValueInText`: split on `\r?\n`, locate the key, splice the
      `lines` array and join it back. */
  method ReplaceValueInText(text: string, key: string, newValue: string) returns (result: string)
    ensures result == Patched(text, key, newValue)
  {
    var lines := SplitLines(text);
    var r := GetFrontMatterKeyRange(lines, key);
    if r.fmStart == -1 || r.fmEnd == -1 {
      return text;
    }
    PatchedIsSplice(text, key, newValue);
    if r.keyStartLine != -1 {
      lines := Splice(lines, r.keyStartLine, r.keyEndLine, newValue);
    } else {
      lines := Splice(lines, r.fmStart + 1, r.fmStart, newValue);
    }
    result := Join(lines, "\n");
  }

  /** Without two lines that trim to `---` the text comes back unchanged. */
  lemma {:induction false} PatchWithoutFrontMatter(text: string, key: string, newValue: string)
    requires !HasTwoDelimiters(SplitLines(text))
    ensures Patched(text, key, newValue) == text
  {
    LocateIsKeyRange(SplitLines(text), key);
  }

  /** Re-reading the patched text line by line gives the lines before the
      key's span, then the lines of the new value, then the lines after the
      span, all unchanged and in order. */
  lemma {:induction false} PatchedLinesWithKey(text: string, key: string, newValue: string)
    requires Locate(SplitLines(text), key).HasKey()
    ensures var lines := SplitLines(text);
      var r := Locate(lines, key);
      && 0 < r.keyStartLine <= r.keyEndLine < |lines| - 1
      && Split(Patched(text, key, newValue), "\n")
         == lines[..r.keyStartLine] + Split(newValue, "\n") + lines[r.keyEndLine + 1..]
  {
    var lines := SplitLines(text);
    var r := Locate(lines, key);
    PatchedIsSplice(text, key, newValue);
    SplitLinesNoLineFeed(text);
    SplitSpliced(lines, r.keyStartLine, r.keyEndLine, newValue);
  }

  /** When the key is absent, re-reading the patched text gives the original
      lines with the new value's lines inserted right after the opening
      `---`. */
  lemma {:induction false} PatchedLinesWithoutKey(text: string, key: string, newValue: string)
    requires Locate(SplitLines(text), key).HasFrontMatter()
    requires !Locate(SplitLines(text), key).HasKey()
    ensures var lines := SplitLines(text);
      var r := Locate(lines, key);
      && 0 <= r.fmStart < |lines| - 1
      && Split(Patched(text, key, newValue), "\n")
         == lines[..r.fmStart + 1] + Split(newValue, "\n") + lines[r.fmStart + 1..]
  {
    var lines := SplitLines(text);
    var r := Locate(lines, key);
    PatchedIsSplice(text, key, newValue);
    SplitLinesNoLineFeed(text);
    SplitSpliced(lines, r.fmStart + 1, r.fmStart, newValue);
  }

  /** The patched text is the spliced lines joined with `\n`. */
  lemma {:induction false} PatchedIsSplice(text: string, key: string, newValue: string)
    requires Locate(SplitLines(text), key).HasFrontMatter()
    ensures var lines := SplitLines(text);
      var r := Locate(lines, key);
      && 0 <= r.fmStart < r.fmEnd < |lines|
      && (r.HasKey() ==>
            && r.fmStart < r.keyStartLine <= r.keyEndLine < r.fmEnd
            && Patched(text, key, newValue) == Join(Splice(lines, r.keyStartLine, r.keyEndLine, newValue), "\n"))
      && (!r.HasKey() ==>
            Patched(text, key, newValue) == Join(Splice(lines, r.fmStart + 1, r.fmStart, newValue), "\n"))
  {
    LocateBounds(SplitLines(text), key);
  }

  /** Splitting a spliced list of lines without line feeds on `\n` gives the
      kept lines around the lines of the inserted value. */
  lemma {:induction false} SplitSpliced(lines: seq<string>, from: nat, through: int, value: string)
    requires 1 <= from <= through + 1 < |lines|
    requires forall i :: 0 <= i < |lines| ==> '\n' !in lines[i]
    ensures Split(Join(Splice(lines, from, through, value), "\n"), "\n")
         == lines[..from] + Split(value, "\n") + lines[through + 1..]
  {
    var pre, post := lines[..from], lines[through + 1..];
    assert forall i :: 0 <= i < |pre| ==> '\n' !in pre[i] by {
      assert forall i :: 0 <= i < |pre| ==> pre[i] == lines[i];
    }
    assert forall i :: 0 <= i < |post| ==> '\n' !in post[i] by {
      assert forall i :: 0 <= i < |post| ==> post[i] == lines[through + 1 + i];
    }
    SplitAroundValue(pre, value, post);
  }

  /** Lines without line feeds around a value that may hold some: splitting
      their join on `\n` keeps the outer lines and splits the value. */
  lemma {:induction false} SplitAroundValue(pre: seq<string>, value: string, post: seq<string>)
    requires |pre| >= 1 && |post| >= 1
    requires forall i :: 0 <= i < |pre| ==> '\n' !in pre[i]
    requires forall i :: 0 <= i < |post| ==> '\n' !in post[i]
    ensures Split(Join(pre + [value] + post, "\n"), "\n") == pre + Split(value, "\n") + post
  {
    var parts := Split(value, "\n");
    SplitPiecesNoLineFeed(value);
    ConcatAvoids(pre, parts, post, '\n');
    JoinAroundValue(pre, value, post);
    SplitJoin(pre + parts + post, "\n", '\n', 0);
  }

  /** A character absent from every element of three lists is absent from
      every element of their concatenation. */
  lemma {:induction false} ConcatAvoids(a: seq<string>, b: seq<string>, c: seq<string>, ch: char)
    requires forall i :: 0 <= i < |a| ==> ch !in a[i]
    requires forall i :: 0 <= i < |b| ==> ch !in b[i]
    requires forall i :: 0 <= i < |c| ==> ch !in c[i]
    ensures forall i :: 0 <= i < |a + b + c| ==> ch !in (a + b + c)[i]
  {
    forall i | 0 <= i < |a + b + c| ensures ch !in (a + b + c)[i] {
      if i < |a| {
        assert (a + b + c)[i] == a[i];
      } else if i < |a| + |b| {
        assert (a + b + c)[i] == b[i - |a|];
      } else {
        assert (a + b + c)[i] == c[i - |a| - |b|];
      }
    }
  }

  /** Joining with a value in the middle is joining with the value's own
      pieces in its place. */
  lemma {:induction false} JoinAroundValue(pre: seq<string>, value: string, post: seq<string>)
    requires |pre| >= 1 && |post| >= 1
    ensures Join(pre + [value] + post, "\n") == Join(pre + Split(value, "\n") + post, "\n")
  {
    var parts := Split(value, "\n");
    JoinConcat(pre + [value], post, "\n");
    JoinConcat(pre, [value], "\n");
    JoinConcat(pre + parts, post, "\n");
    JoinConcat(pre, parts, "\n");
  }

  /** Where the lines of a list with `block` spliced over `[from, through]`
      come from. */
  lemma {:induction false} SplicedIndex(lines: seq<string>, from: nat, through: int, block: seq<string>)
    requires from <= through + 1 <= |lines|
    ensures var s := lines[..from] + block + lines[through + 1..];
      && |s| == |lines| - (through + 1 - from) + |block|
      && (forall k :: 0 <= k < from ==> s[k] == lines[k])
      && (forall k :: from <= k < from + |block| ==> s[k] == block[k - from])
      && (forall k :: from + |block| <= k < |s| ==> s[k] == lines[k - |block| + (through + 1 - from)])
  {
  }

  /** Where the key's span and the closing delimiter land once `n` lines
      replace the key's span `r`. */
  function SplicedRange(r: KeyRange, n: nat): KeyRange {
    KeyRange(r.fmStart, r.fmEnd - (r.keyEndLine + 1 - r.keyStartLine) + n,
             r.keyStartLine, r.keyStartLine + n - 1)
  }

  /** Splicing a key block over a key's span gives a list whose key span is
      exactly the block, with the closing delimiter moved by the change in
      length. */
  lemma {:induction false} KeyRangeAfterSplice(lines: seq<string>, key: string, r: KeyRange, block: seq<string>, s: seq<string>)
    requires IsKeyRangeOf(lines, key, r) && r.HasKey()
    requires IsKeyBlock(block, key)
    requires s == lines[..r.keyStartLine] + block + lines[r.keyEndLine + 1..]
    ensures IsKeyRangeOf(s, key, SplicedRange(r, |block|))
  {
    var c := SplicedRange(r, |block|);
    SplicedIndex(lines, r.keyStartLine, r.keyEndLine, block);
    DelimitersAfterSplice(lines, key, r, block, s);
    assert KeySpanAt(s, key, c) by {
      assert c.keyEndLine + 1 < c.fmEnd ==> s[c.keyEndLine + 1] == lines[r.keyEndLine + 1];
    }
  }

  /** The delimiter half of the splice lemma. */
  lemma {:induction false} DelimitersAfterSplice(lines: seq<string>, key: string, r: KeyRange, block: seq<string>, s: seq<string>)
    requires IsKeyRangeOf(lines, key, r) && r.HasKey()
    requires IsKeyBlock(block, key)
    requires s == lines[..r.keyStartLine] + block + lines[r.keyEndLine + 1..]
    ensures DelimitersAt(s, SplicedRange(r, |block|))
  {
    var d := |block| - (r.keyEndLine + 1 - r.keyStartLine);
    SplicedIndex(lines, r.keyStartLine, r.keyEndLine, block);
    assert s[r.fmEnd + d] == lines[r.fmEnd];
    assert forall k :: r.fmStart < k < r.fmEnd + d ==> !IsDelimiter(s[k]);
  }

  /** Splicing a key block over the key's span: the block is located again
      as the key's whole span, and the closing delimiter moves by the change
      in length. */
  lemma {:induction false} LocateAfterSplice(lines: seq<string>, key: string, r: KeyRange, block: seq<string>, s: seq<string>)
    requires r == Locate(lines, key) && r.HasKey()
    requires 0 < r.keyStartLine <= r.keyEndLine < |lines|
    requires IsKeyBlock(block, key)
    requires s == lines[..r.keyStartLine] + block + lines[r.keyEndLine + 1..]
    ensures Locate(s, key) == SplicedRange(r, |block|)
  {
    LocateIsKeyRange(lines, key);
    KeyRangeAfterSplice(lines, key, r, block, s);
    KeyRangeIsUnique(s, key, SplicedRange(r, |block|));
  }

  /** Patching a present key with a serialized value a second time gives
      the same text as patching it once, provided no value holds a line
      break and no line of the text but the last ends in a carriage return. */
  lemma {:induction false} PatchIsIdempotent(text: string, key: ClassifyKey, values: seq<string>)
    requires Locate(SplitLines(text), key.Name()).HasKey()
    requires NoInnerCR(SplitLines(text))
    requires NoLineBreaks(values)
    ensures var nv := Serialize(key, values);
      Patched(Patched(text, key.Name(), nv), key.Name(), nv) == Patched(text, key.Name(), nv)
  {
    SerializedIsKeyBlock(key, values);
    BlockPatchIsIdempotent(text, key.Name(), Serialize(key, values));
  }

  /** The same for any new value whose lines form a key block without
      carriage returns. */
  lemma {:induction false} BlockPatchIsIdempotent(text: string, key: string, newValue: string)
    requires Locate(SplitLines(text), key).HasKey()
    requires NoInnerCR(SplitLines(text))
    requires IsKeyBlock(Split(newValue, "\n"), key) && WithoutCR(Split(newValue, "\n"))
    ensures Patched(Patched(text, key, newValue), key, newValue) == Patched(text, key, newValue)
  {
    PatchedIsPatchedLines(text, key, newValue);
    SplitLinesNoLineFeed(text);
    LinesPatchIsIdempotent(SplitLines(text), key, newValue);
    PatchedIsPatchedLines(Patched(text, key, newValue), key, newValue);
  }

  /** Idempotence on the lines: re-reading the patched lines and patching
      them again gives the same text. */
  lemma {:induction false} LinesPatchIsIdempotent(lines: seq<string>, key: string, newValue: string)
    requires Locate(lines, key).HasKey()
    requires forall i :: 0 <= i < |lines| ==> '\n' !in lines[i]
    requires NoInnerCR(lines)
    requires IsKeyBlock(Split(newValue, "\n"), key) && WithoutCR(Split(newValue, "\n"))
    ensures var once := PatchedLines(lines, key, newValue);
      && Locate(SplitLines(once), key).HasKey()
      && PatchedLines(SplitLines(once), key, newValue) == once
  {
    var r := Locate(lines, key);
    var block := Split(newValue, "\n");
    var once := PatchedLines(lines, key, newValue);
    RelinedPatchedLines(lines, key, newValue);
    var s := lines[..r.keyStartLine] + block + lines[r.keyEndLine + 1..];
    assert SplitLines(once) == s;
    RepatchSplicedBlock(lines, key, r, block, s, newValue);
    assert PatchedLines(s, key, newValue) == once;
  }

  /** Re-reading patched lines with `\r?\n` gives the lines with the new
      value's lines spliced over the key's span. */
  lemma {:induction false} RelinedPatchedLines(lines: seq<string>, key: string, newValue: string)
    requires Locate(lines, key).HasKey()
    requires forall i :: 0 <= i < |lines| ==> '\n' !in lines[i]
    requires NoInnerCR(lines)
    requires WithoutCR(Split(newValue, "\n"))
    ensures var r := Locate(lines, key);
      && 0 < r.keyStartLine <= r.keyEndLine < |lines| - 1
      && SplitLines(PatchedLines(lines, key, newValue))
         == lines[..r.keyStartLine] + Split(newValue, "\n") + lines[r.keyEndLine + 1..]
  {
    var r := Locate(lines, key);
    LocateBounds(lines, key);
    var once := PatchedLines(lines, key, newValue);
    assert once == Join(Splice(lines, r.keyStartLine, r.keyEndLine, newValue), "\n");
    SplitSpliced(lines, r.keyStartLine, r.keyEndLine, newValue);
    SplitPiecesNoLineFeed(newValue);
    RelinedSplice(lines, r.keyStartLine, r.keyEndLine, Split(newValue, "\n"), once);
  }

  /** Text that splits on `\n` into a splice of carriage-return-free lines
      splits on `\r?\n` into the same lines. */
  lemma {:induction false} RelinedSplice(lines: seq<string>, from: nat, through: int, block: seq<string>, once: string)
    requires from <= through + 1 < |lines|
    requires forall i :: 0 <= i < |lines| ==> '\n' !in lines[i]
    requires NoInnerCR(lines)
    requires forall j :: 0 <= j < |block| ==> '\n' !in block[j]
    requires WithoutCR(block)
    requires Split(once, "\n") == lines[..from] + block + lines[through + 1..]
    ensures SplitLines(once) == lines[..from] + block + lines[through + 1..]
  {
    RelinedAfterSplice(lines, from, through, block);
    RelineSplit(once, lines[..from] + block + lines[through + 1..]);
  }

  /** Patching a text with a front matter patches its lines. */
  lemma {:induction false} PatchedIsPatchedLines(text: string, key: string, newValue: string)
    requires Locate(SplitLines(text), key).HasFrontMatter()
    ensures Patched(text, key, newValue) == PatchedLines(SplitLines(text), key, newValue)
  {
  }

  /** Patching lines in which the key's span already is the block of the
      new value gives the same text as patching the lines before. */
  lemma {:induction false} RepatchSplicedBlock(lines: seq<string>, key: string, r: KeyRange, block: seq<string>, s: seq<string>,
                             newValue: string)
    requires r == Locate(lines, key) && r.HasKey()
    requires 0 < r.keyStartLine <= r.keyEndLine < |lines|
    requires IsKeyBlock(block, key)
    requires s == lines[..r.keyStartLine] + block + lines[r.keyEndLine + 1..]
    ensures Locate(s, key).HasKey()
    ensures PatchedLines(s, key, newValue) == PatchedLines(lines, key, newValue)
  {
    LocateAfterSplice(lines, key, r, block, s);
    SpliceOverSplice(lines, r.keyStartLine, r.keyEndLine, block, newValue);
  }

  /** Splicing a value over a block that was itself spliced in gives what
      splicing the value in directly gives. */
  lemma {:induction false} SpliceOverSplice(lines: seq<string>, from: nat, through: int, block: seq<string>, value: string)
    requires from <= through + 1 <= |lines| && |block| >= 1
    ensures Splice(lines[..from] + block + lines[through + 1..], from, from + |block| - 1, value)
         == Splice(lines, from, through, value)
  {
    var s := lines[..from] + block + lines[through + 1..];
    assert s[..from] == lines[..from];
    assert s[from + |block|..] == lines[through + 1..];
  }

  /** Text that splits on `\n` into lines without inner carriage returns
      splits on `\r?\n` into the same lines. */
  lemma {:induction false} RelineSplit(text: string, lines: seq<string>)
    requires Split(text, "\n") == lines
    requires NoInnerCR(lines)
    ensures SplitLines(text) == lines
  {
    SplitPiecesNoLineFeed(text);
    SplitLinesJoin(lines);
  }

  /** The splice of carriage-return-free lines keeps what `SplitLinesJoin`
      needs: no line feed anywhere, and no carriage return ending a line
      before the last. */
  lemma {:induction false} RelinedAfterSplice(lines: seq<string>, from: nat, through: int, block: seq<string>)
    requires from <= through + 1 < |lines|
    requires forall i :: 0 <= i < |lines| ==> '\n' !in lines[i]
    requires NoInnerCR(lines)
    requires forall j :: 0 <= j < |block| ==> '\n' !in block[j]
    requires WithoutCR(block)
    ensures var s := lines[..from] + block + lines[through + 1..];
      && |s| >= 1
      && (forall i :: 0 <= i < |s| ==> '\n' !in s[i])
      && NoInnerCR(s)
  {
    var s := lines[..from] + block + lines[through + 1..];
    SplicedIndex(lines, from, through, block);
    forall i | 0 <= i < |s| ensures '\n' !in s[i] && (i < |s| - 1 ==> !EndsWith(s[i], "\r")) {
      if from <= i < from + |block| && |s[i]| > 0 {
        assert s[i][|s[i]| - 1..] == [s[i][|s[i]| - 1]];
      }
    }
  }
}
