/** The front-matter locator of `src/commands/classify.ts`
    (`getFrontMatterKeyRange`): the first two lines that trim to `---` delimit
    the block, and a key owns its own line plus the continuation lines below
    it. `Locate` is the specification; `GetFrontMatterKeyRange` is the
    source's loop, proved equal to it. */
module FrontMatterLocator {
  import opened JsString

  /** A line whose trimmed text is `---`. */
  predicate IsDelimiter(line: string) {
    Trim(line) == "---"
  }

  /** A line that starts with `<key>:`. */
  predicate StartsKey(line: string, key: string) {
    StartsWith(line, key + ":")
  }

  /** A line that continues the value of the key above it: indented, a list
      item, or blank. */
  predicate IsContinuation(line: string) {
    StartsWith(line, " ") || StartsWith(line, "-") || Trim(line) == ""
  }

  /** The first delimiter line at or after `from`, or -1. */
  function FirstDelimiterFrom(lines: seq<string>, from: nat): (r: int)
    requires from <= |lines|
    ensures r == -1 || from <= r < |lines|
    decreases |lines| - from
  {
    if from == |lines| then -1
    else if IsDelimiter(lines[from]) then from
    else FirstDelimiterFrom(lines, from + 1)
  }

  /** `FirstDelimiterFrom` finds a delimiter, and no delimiter comes before
      it; -1 means there is none at all. */
  lemma {:induction false} FirstDelimiterFromSpec(lines: seq<string>, from: nat)
    requires from <= |lines|
    ensures var r := FirstDelimiterFrom(lines, from);
      && (r != -1 ==> IsDelimiter(lines[r]))
      && (forall k :: from <= k < |lines| && (r == -1 || k < r) ==> !IsDelimiter(lines[k]))
    decreases |lines| - from
  {
    if from < |lines| && !IsDelimiter(lines[from]) {
      FirstDelimiterFromSpec(lines, from + 1);
    }
  }

  /** The first line in `[from, stop)` that starts with `<key>:`, or -1. */
  function FirstKeyLine(lines: seq<string>, key: string, from: nat, stop: nat): (r: int)
    requires from <= stop <= |lines|
    ensures r == -1 || from <= r < stop
    decreases stop - from
  {
    if from == stop then -1
    else if StartsKey(lines[from], key) then from
    else FirstKeyLine(lines, key, from + 1, stop)
  }

  /** `FirstKeyLine` finds a key line, and no key line comes before it; -1
      means there is none in the range. */
  lemma {:induction false} FirstKeyLineSpec(lines: seq<string>, key: string, from: nat, stop: nat)
    requires from <= stop <= |lines|
    ensures var r := FirstKeyLine(lines, key, from, stop);
      && (r != -1 ==> StartsKey(lines[r], key))
      && (forall k :: from <= k < stop && (r == -1 || k < r) ==> !StartsKey(lines[k], key))
    decreases stop - from
  {
    if from < stop && !StartsKey(lines[from], key) {
      FirstKeyLineSpec(lines, key, from + 1, stop);
    }
  }

  /** The first index at or after `from` that is `stop` or holds a line that
      is not a continuation line. */
  function ContinuationEnd(lines: seq<string>, from: nat, stop: nat): (r: nat)
    requires from <= stop <= |lines|
    ensures from <= r <= stop
    decreases stop - from
  {
    if from == stop || !IsContinuation(lines[from]) then from
    else ContinuationEnd(lines, from + 1, stop)
  }

  /** Every line `ContinuationEnd` passes over is a continuation line, and
      it stops at the first one that is not. */
  lemma {:induction false} ContinuationEndSpec(lines: seq<string>, from: nat, stop: nat)
    requires from <= stop <= |lines|
    ensures var r := ContinuationEnd(lines, from, stop);
      && (forall k :: from <= k < r ==> IsContinuation(lines[k]))
      && (r < stop ==> !IsContinuation(lines[r]))
    decreases stop - from
  {
    if from < stop && IsContinuation(lines[from]) {
      ContinuationEndSpec(lines, from + 1, stop);
    }
  }

  /** The four indices `getFrontMatterKeyRange` returns; -1 stands for
      "not found". */
  datatype KeyRange = KeyRange(fmStart: int, fmEnd: int, keyStartLine: int, keyEndLine: int) {
    predicate HasFrontMatter() {
      fmStart != -1 && fmEnd != -1
    }
    predicate HasKey() {
      keyStartLine != -1
    }
  }

  /** Some two lines trim to `---`. */
  predicate HasTwoDelimiters(lines: seq<string>) {
    exists i, j :: 0 <= i < j < |lines| && IsDelimiter(lines[i]) && IsDelimiter(lines[j])
  }

  /** Where the block and the key's span are: the scan of
      `getFrontMatterKeyRange` stated through the three searches above. */
  function Locate(lines: seq<string>, key: string): KeyRange
  {
    var s := FirstDelimiterFrom(lines, 0);
    var e := if s == -1 then -1 else FirstDelimiterFrom(lines, s + 1);
    if s == -1 || e == -1 then
      KeyRange(s, e, -1, -1)
    else
      var ks := FirstKeyLine(lines, key, s + 1, e);
      if ks == -1 then KeyRange(s, e, -1, -1)
      else KeyRange(s, e, ks, ContinuationEnd(lines, ks + 1, e) - 1)
  }

  /** What the four indices mean, independently of how they are found: the
      front matter opens at the first line that trims to `---` and closes at
      the next one; the key starts at the first block line beginning with
      `<key>:` and extends over the continuation lines that follow it,
      stopping before the closing delimiter; -1 stands for "not found". */
  predicate IsKeyRangeOf(lines: seq<string>, key: string, r: KeyRange) {
    DelimitersAt(lines, r) && KeySpanAt(lines, key, r)
  }

  /** The delimiter half of that description. */
  predicate DelimitersAt(lines: seq<string>, r: KeyRange) {
    && (r.fmStart == -1 ==> r.fmEnd == -1 && forall k :: 0 <= k < |lines| ==> !IsDelimiter(lines[k]))
    && (r.fmStart != -1 ==>
          0 <= r.fmStart < |lines| && IsDelimiter(lines[r.fmStart])
          && forall k :: 0 <= k < r.fmStart ==> !IsDelimiter(lines[k]))
    && (r.fmStart != -1 && r.fmEnd == -1 ==>
          forall k :: r.fmStart < k < |lines| ==> !IsDelimiter(lines[k]))
    && (r.fmEnd != -1 ==>
          0 <= r.fmStart < r.fmEnd < |lines| && IsDelimiter(lines[r.fmEnd])
          && forall k :: r.fmStart < k < r.fmEnd ==> !IsDelimiter(lines[k]))
  }

  /** The key half of that description. */
  predicate KeySpanAt(lines: seq<string>, key: string, r: KeyRange) {
    && (!r.HasKey() ==> r.keyEndLine == -1)
    && (!r.HasKey() && r.HasFrontMatter() ==>
          forall k :: r.fmStart < k < r.fmEnd && 0 <= k < |lines| ==> !StartsKey(lines[k], key))
    && (r.HasKey() ==>
          && r.HasFrontMatter()
          && 0 <= r.fmStart < r.keyStartLine <= r.keyEndLine < r.fmEnd <= |lines|
          && StartsKey(lines[r.keyStartLine], key)
          && (forall k :: r.fmStart < k < r.keyStartLine ==> !StartsKey(lines[k], key))
          && (forall k :: r.keyStartLine < k <= r.keyEndLine ==> IsContinuation(lines[k]))
          && (r.keyEndLine + 1 < r.fmEnd ==> !IsContinuation(lines[r.keyEndLine + 1])))
  }

  /** The scan meets that description, and it finds a front matter exactly
      when two lines trim to `---`. */
  lemma {:induction false} LocateIsKeyRange(lines: seq<string>, key: string)
    ensures IsKeyRangeOf(lines, key, Locate(lines, key))
    ensures Locate(lines, key).HasFrontMatter() <==> HasTwoDelimiters(lines)
  {
    LocateKeySpan(lines, key);
    LocateFindsFrontMatter(lines, key);
  }

  /** The delimiter half of the description. */
  lemma {:induction false} LocateDelimiters(lines: seq<string>, key: string)
    ensures DelimitersAt(lines, Locate(lines, key))
  {
    FirstDelimiterFromSpec(lines, 0);
    var s := FirstDelimiterFrom(lines, 0);
    if s != -1 {
      FirstDelimiterFromSpec(lines, s + 1);
    }
  }

  /** The front matter is found exactly when two lines trim to `---`. */
  lemma {:induction false} LocateFindsFrontMatter(lines: seq<string>, key: string)
    ensures Locate(lines, key).HasFrontMatter() <==> HasTwoDelimiters(lines)
  {
    LocateDelimiters(lines, key);
  }

  /** The key half of the description. */
  lemma {:induction false} LocateKeySpan(lines: seq<string>, key: string)
    ensures DelimitersAt(lines, Locate(lines, key))
    ensures KeySpanAt(lines, key, Locate(lines, key))
  {
    LocateDelimiters(lines, key);
    var r := Locate(lines, key);
    if r.HasFrontMatter() {
      KeySearchSpan(lines, key, r);
    }
  }

  /** Indices found by the key search between two delimiters meet the key
      half of the description. */
  lemma {:induction false} KeySearchSpan(lines: seq<string>, key: string, r: KeyRange)
    requires r.HasFrontMatter() && 0 <= r.fmStart < r.fmEnd < |lines|
    requires r.keyStartLine == FirstKeyLine(lines, key, r.fmStart + 1, r.fmEnd)
    requires r.HasKey() ==> r.keyEndLine == ContinuationEnd(lines, r.keyStartLine + 1, r.fmEnd) - 1
    requires !r.HasKey() ==> r.keyEndLine == -1
    ensures KeySpanAt(lines, key, r)
  {
    FirstKeyLineSpec(lines, key, r.fmStart + 1, r.fmEnd);
    if r.HasKey() {
      ContinuationEndSpec(lines, r.keyStartLine + 1, r.fmEnd);
    }
  }

  /** The index bounds the splice relies on. */
  lemma {:induction false} LocateBounds(lines: seq<string>, key: string)
    ensures var r := Locate(lines, key);
      && (r.HasFrontMatter() ==> 0 <= r.fmStart < r.fmEnd < |lines|)
      && (r.HasKey() ==> r.HasFrontMatter() && r.fmStart < r.keyStartLine <= r.keyEndLine < r.fmEnd)
  {
  }

  /** The description admits one answer only: whatever meets it is what the
      scan returns. */
  lemma {:induction false} KeyRangeIsUnique(lines: seq<string>, key: string, r: KeyRange)
    requires IsKeyRangeOf(lines, key, r)
    ensures r == Locate(lines, key)
  {
    LocateIsKeyRange(lines, key);
  }

  /** Lines that, placed where a key's span was, form that key's whole span
      again: a `<key>:` line, then continuation lines, none of them a
      delimiter. */
  predicate IsKeyBlock(block: seq<string>, key: string) {
    && |block| >= 1
    && StartsKey(block[0], key)
    && (forall j :: 1 <= j < |block| ==> IsContinuation(block[j]))
    && (forall j :: 0 <= j < |block| ==> !IsDelimiter(block[j]))
  }

  /** A line that starts with `<key>:`, for a key whose first character is
      neither whitespace nor `-`, never trims to `---`. */
  lemma {:induction false} KeyLineNotDelimiter(line: string, key: string)
    requires StartsKey(line, key)
    requires |key| >= 1 && !IsWhitespace(key[0]) && key[0] != '-'
    ensures !IsDelimiter(line)
  {
    assert line[0] == key[0];
    var a := TrimIsInterior(line);
    NonWhitespaceSurvivesTrim(line, 0);
    assert a == 0;
    assert Trim(line)[0] == key[0];
  }

  /** A line that starts with two spaces and a dash followed by a space, or
      ends right after the dash, never trims to `---`. */
  lemma {:induction false} IndentedDashNotDelimiter(line: string)
    requires StartsWith(line, "  -")
    requires |line| == 3 || line[3] == ' '
    ensures !IsDelimiter(line)
  {
    assert line[2] == '-' && IsWhitespace(line[0]) && IsWhitespace(line[1]);
    var a := TrimIsInterior(line);
    NonWhitespaceSurvivesTrim(line, 2);
    assert a == 2;
    if |Trim(line)| == 3 {
      assert Trim(line)[1] == line[3];
    }
  }

  /** `getFrontMatterKeyRange`: one loop finds the delimiters, a second
      finds the key line, and an inner loop walks over its continuation
      lines. */
  method GetFrontMatterKeyRange(lines: seq<string>, key: string) returns (r: KeyRange)
    ensures r == Locate(lines, key)
  {
    var fmStart, fmEnd := FindDelimiters(lines);
    if fmStart == -1 || fmEnd == -1 {
      return KeyRange(fmStart, fmEnd, -1, -1);
    }

    var keyStartLine: int, keyEndLine: int := -1, -1;
    var i := fmStart + 1;
    while i < fmEnd
      invariant fmStart + 1 <= i <= fmEnd
      invariant FirstKeyLine(lines, key, fmStart + 1, fmEnd) == FirstKeyLine(lines, key, i, fmEnd)
    {
      if StartsWith(lines[i], key + ":") {
        keyStartLine := i;
        var j := SkipContinuation(lines, i + 1, fmEnd);
        keyEndLine := j - 1;
        break;
      }
      i := i + 1;
    }
    r := KeyRange(fmStart, fmEnd, keyStartLine, keyEndLine);
  }

  /** The first loop of `getFrontMatterKeyRange`: the first two lines that
      trim to `---`, -1 for each one missing. */
  method FindDelimiters(lines: seq<string>) returns (fmStart: int, fmEnd: int)
    ensures fmStart == FirstDelimiterFrom(lines, 0)
    ensures fmEnd == if fmStart == -1 then -1 else FirstDelimiterFrom(lines, fmStart + 1)
  {
    fmStart, fmEnd := -1, -1;
    var i := 0;
    while i < |lines|
      invariant 0 <= i <= |lines|
      invariant fmEnd == -1
      invariant fmStart == -1 ==> FirstDelimiterFrom(lines, 0) == FirstDelimiterFrom(lines, i)
      invariant fmStart != -1 ==>
        0 <= fmStart < i && fmStart == FirstDelimiterFrom(lines, 0)
        && FirstDelimiterFrom(lines, fmStart + 1) == FirstDelimiterFrom(lines, i)
    {
      if Trim(lines[i]) == "---" {
        if fmStart == -1 {
          fmStart := i;
        } else {
          fmEnd := i;
          break;
        }
      }
      i := i + 1;
    }
  }

  /** The inner loop of `getFrontMatterKeyRange`: the first line at or after
      `from` that does not continue the key's value, or `stop`. */
  method SkipContinuation(lines: seq<string>, from: nat, stop: nat) returns (j: nat)
    requires from <= stop <= |lines|
    ensures j == ContinuationEnd(lines, from, stop)
  {
    j := from;
    while j < stop && (StartsWith(lines[j], " ") || StartsWith(lines[j], "-") || Trim(lines[j]) == "")
      invariant from <= j <= stop
      invariant ContinuationEnd(lines, from, stop) == ContinuationEnd(lines, j, stop)
    {
      j := j + 1;
    }
  }
}
