/** The JavaScript string primitives the extension relies on: `trim`,
    `trimEnd`, `startsWith`, `includes`, `split` with a string separator,
    `Array.prototype.join`, and the line split `text.split(/\r?\n/)`. */
module JsString {

  /** The characters `String.prototype.trim` removes: ECMAScript WhiteSpace
      (tab, vertical tab, form feed, space, no-break space, byte order mark and
      the Unicode space separators) and LineTerminator. */
  predicate IsWhitespace(c: char) {
    var n := c as int;
    n == 0x09 || n == 0x0A || n == 0x0B || n == 0x0C || n == 0x0D || n == 0x20 || n == 0xA0
    || n == 0x1680 || (0x2000 <= n && n <= 0x200A) || n == 0x2028 || n == 0x2029
    || n == 0x202F || n == 0x205F || n == 0x3000 || n == 0xFEFF
  }

  /** `s.trimStart()`: the longest suffix that does not start with whitespace. */
  function TrimStart(s: string): string {
    if s != [] && IsWhitespace(s[0]) then TrimStart(s[1..]) else s
  }

  /** `s.trimEnd()`: the longest prefix that does not end with whitespace. */
  function TrimEnd(s: string): string {
    if s != [] && IsWhitespace(s[|s| - 1]) then TrimEnd(s[..|s| - 1]) else s
  }

  /** `trimStart` drops exactly the leading whitespace. */
  lemma {:induction false} TrimStartSpec(s: string)
    ensures |TrimStart(s)| <= |s| && TrimStart(s) == s[|s| - |TrimStart(s)|..]
    ensures forall i :: 0 <= i < |s| - |TrimStart(s)| ==> IsWhitespace(s[i])
    ensures TrimStart(s) == [] || !IsWhitespace(TrimStart(s)[0])
    decreases |s|
  {
    if s != [] && IsWhitespace(s[0]) {
      TrimStartSpec(s[1..]);
    }
  }

  /** `trimEnd` drops exactly the trailing whitespace. */
  lemma {:induction false} TrimEndSpec(s: string)
    ensures |TrimEnd(s)| <= |s| && TrimEnd(s) == s[..|TrimEnd(s)|]
    ensures forall i :: |TrimEnd(s)| <= i < |s| ==> IsWhitespace(s[i])
    ensures TrimEnd(s) == [] || !IsWhitespace(TrimEnd(s)[|TrimEnd(s)| - 1])
    decreases |s|
  {
    if s != [] && IsWhitespace(s[|s| - 1]) {
      TrimEndSpec(s[..|s| - 1]);
    }
  }

  /** `s.trim()`. */
  function Trim(s: string): string {
    TrimStart(TrimEnd(s))
  }

  /** Trim removes whitespace from both ends and nothing else: the result is
      the slice of `s` starting at offset `a`, with only whitespace around it. */
  lemma {:induction false} TrimIsInterior(s: string) returns (a: nat)
    ensures a + |Trim(s)| <= |s| && Trim(s) == s[a..a + |Trim(s)|]
    ensures forall i :: 0 <= i < a ==> IsWhitespace(s[i])
    ensures forall i :: a + |Trim(s)| <= i < |s| ==> IsWhitespace(s[i])
    ensures Trim(s) != [] ==> !IsWhitespace(s[a]) && !IsWhitespace(s[a + |Trim(s)| - 1])
  {
    var t := TrimEnd(s);
    var r := TrimStart(t);
    TrimEndSpec(s);
    TrimStartSpec(t);
    a := |t| - |r|;
    assert r == t[a..];
    assert t == s[..|t|];
    if r != [] {
      assert r[|r| - 1] == t[|t| - 1];
    }
  }

  /** A character that is not whitespace survives `trim`. */
  lemma {:induction false} NonWhitespaceSurvivesTrim(s: string, i: nat)
    requires i < |s| && !IsWhitespace(s[i])
    ensures s[i] in Trim(s)
  {
    var a := TrimIsInterior(s);
    assert a <= i < a + |Trim(s)|;
    assert Trim(s)[i - a] == s[i];
  }

  /** `trimEnd` ignores whatever whitespace-only text follows a character
      that is not whitespace. */
  lemma {:induction false} TrimEndOfConcat(a: string, b: string)
    requires exists i :: 0 <= i < |b| && !IsWhitespace(b[i])
    ensures TrimEnd(a + b) == a + TrimEnd(b)
    decreases |b|
  {
    var i :| 0 <= i < |b| && !IsWhitespace(b[i]);
    assert (a + b)[|a + b| - 1] == b[|b| - 1];
    if IsWhitespace(b[|b| - 1]) {
      assert i < |b| - 1;
      assert (a + b)[..|a + b| - 1] == a + b[..|b| - 1];
      assert b[..|b| - 1][i] == b[i];
      TrimEndOfConcat(a, b[..|b| - 1]);
    }
  }

  predicate StartsWith(s: string, prefix: string) {
    |prefix| <= |s| && s[..|prefix|] == prefix
  }

  predicate EndsWith(s: string, suffix: string) {
    |suffix| <= |s| && s[|s| - |suffix|..] == suffix
  }

  /** `sub` occurs in `s` at index `q`. */
  predicate OccursAt(s: string, sub: string, q: int) {
    0 <= q && q + |sub| <= |s| && s[q..q + |sub|] == sub
  }

  /** `s.includes(sub)`. */
  predicate Contains(s: string, sub: string) {
    exists q | 0 <= q <= |s| :: OccursAt(s, sub, q)
  }

  /** `s.indexOf(sub, from)`: the first occurrence at or after `from`, or -1. */
  function IndexOf(s: string, sub: string, from: nat): (r: int)
    requires from <= |s|
    ensures r == -1 || (from <= r && OccursAt(s, sub, r))
    decreases |s| - from
  {
    if OccursAt(s, sub, from) then from
    else if from == |s| then -1
    else IndexOf(s, sub, from + 1)
  }

  /** `indexOf` finds the first occurrence: there is none between `from`
      and the index it returns, and none at all when it returns -1. */
  lemma {:induction false} IndexOfIsFirst(s: string, sub: string, from: nat)
    requires from <= |s|
    ensures var r := IndexOf(s, sub, from);
      forall q :: from <= q <= |s| && (r == -1 || q < r) ==> !OccursAt(s, sub, q)
    decreases |s| - from
  {
    if !OccursAt(s, sub, from) && from < |s| {
      IndexOfIsFirst(s, sub, from + 1);
    }
  }

  /** `parts.join(sep)`; an empty array joins to the empty string. */
  function Join(parts: seq<string>, sep: string): string
    decreases |parts|
  {
    if |parts| == 0 then ""
    else if |parts| == 1 then parts[0]
    else parts[0] + sep + Join(parts[1..], sep)
  }

  /** `s.split(sep)` for a non-empty separator: the pieces between the
      occurrences of `sep`, found left to right without overlap. The pieces
      joined back with `sep` give `s`, and no piece contains `sep`. */
  function Split(s: string, sep: string): (r: seq<string>)
    requires sep != []
    ensures |r| >= 1
    ensures Join(r, sep) == s
    decreases |s|
  {
    var i := IndexOf(s, sep, 0);
    if i == -1 then
      [s]
    else
      var head, rest := s[..i], Split(s[i + |sep|..], sep);
      assert s == head + sep + s[i + |sep|..];
      [head] + rest
  }

  /** No piece of a split contains the separator. */
  lemma {:induction false} SplitPiecesAvoidSeparator(s: string, sep: string)
    requires sep != []
    ensures forall k :: 0 <= k < |Split(s, sep)| ==> !Contains(Split(s, sep)[k], sep)
    decreases |s|
  {
    var i := IndexOf(s, sep, 0);
    IndexOfIsFirst(s, sep, 0);
    if i == -1 {
      assert !Contains(s, sep);
    } else {
      HeadAvoidsSeparator(s, sep, i);
      SplitPiecesAvoidSeparator(s[i + |sep|..], sep);
    }
  }

  /** The text before the first occurrence of `sep` does not contain it. */
  lemma {:induction false} HeadAvoidsSeparator(s: string, sep: string, i: nat)
    requires sep != [] && i <= |s|
    requires forall q :: 0 <= q < i ==> !OccursAt(s, sep, q)
    ensures !Contains(s[..i], sep)
  {
    var head := s[..i];
    forall q | 0 <= q <= |head| ensures !OccursAt(head, sep, q) {
      if q + |sep| <= |head| {
        assert s[q..q + |sep|] == head[q..q + |sep|];
        assert OccursAt(head, sep, q) ==> OccursAt(s, sep, q);
      }
    }
  }

  /** `s.split(sep)` has more than one piece exactly when `s.includes(sep)`. */
  lemma {:induction false} SplitHasSeveralPiecesIffContains(s: string, sep: string)
    requires sep != []
    ensures |Split(s, sep)| > 1 <==> Contains(s, sep)
  {
    var i := IndexOf(s, sep, 0);
    IndexOfIsFirst(s, sep, 0);
    if i == -1 {
      assert !Contains(s, sep);
    } else {
      assert OccursAt(s, sep, i);
    }
  }

  /** A character absent from `s` is absent from every piece of its split. */
  lemma {:induction false} SplitPiecesAvoid(s: string, sep: string, c: char)
    requires sep != [] && c !in s
    ensures forall k :: 0 <= k < |Split(s, sep)| ==> c !in Split(s, sep)[k]
    decreases |s|
  {
    var i := IndexOf(s, sep, 0);
    if i != -1 {
      var head, tail := s[..i], s[i + |sep|..];
      assert c !in head by {
        forall j | 0 <= j < |head| ensures head[j] != c {
          assert head[j] == s[j];
        }
      }
      assert c !in tail by {
        forall j | 0 <= j < |tail| ensures tail[j] != c {
          assert tail[j] == s[i + |sep| + j];
        }
      }
      SplitPiecesAvoid(tail, sep, c);
    }
  }

  /** A character absent from the parts and from the separator is absent from
      their join. */
  lemma {:induction false} JoinAvoids(parts: seq<string>, sep: string, c: char)
    requires c !in sep
    requires forall k :: 0 <= k < |parts| ==> c !in parts[k]
    ensures c !in Join(parts, sep)
    decreases |parts|
  {
    if |parts| > 1 {
      JoinAvoids(parts[1..], sep, c);
    }
  }

  /** Joining distributes over concatenation of non-empty part lists. */
  lemma {:induction false} JoinConcat(a: seq<string>, b: seq<string>, sep: string)
    requires |a| >= 1 && |b| >= 1
    ensures Join(a + b, sep) == Join(a, sep) + sep + Join(b, sep)
    decreases |a|
  {
    if |a| == 1 {
      assert (a + b)[1..] == b;
    } else {
      assert (a + b)[1..] == a[1..] + b;
      JoinConcat(a[1..], b, sep);
    }
  }

  /** A separator containing a character `c` exactly once, at index `k`. */
  predicate MarkedBy(sep: string, c: char, k: nat) {
    k < |sep| && sep[k] == c && forall j :: 0 <= j < |sep| && j != k ==> sep[j] != c
  }

  /** If the separator carries a character that no part contains, splitting
      the join gives back the parts. */
  lemma {:induction false} SplitJoin(parts: seq<string>, sep: string, c: char, k: nat)
    requires MarkedBy(sep, c, k)
    requires |parts| >= 1
    requires forall i :: 0 <= i < |parts| ==> c !in parts[i]
    ensures Split(Join(parts, sep), sep) == parts
    decreases |parts|
  {
    if |parts| == 1 {
      SplitWithoutMark(parts[0], sep, c, k);
    } else {
      SplitAtFirst(parts[0], sep, Join(parts[1..], sep), c, k);
      SplitJoin(parts[1..], sep, c, k);
    }
  }

  /** Text without the character marking the separator splits into itself. */
  lemma {:induction false} SplitWithoutMark(s: string, sep: string, c: char, k: nat)
    requires MarkedBy(sep, c, k) && c !in s
    ensures Split(s, sep) == [s]
  {
    forall q | 0 <= q <= |s| ensures !OccursAt(s, sep, q) {
      if q + |sep| <= |s| {
        assert s[q..q + |sep|][k] == s[q + k];
      }
    }
    SplitWithoutSeparator(s, sep);
  }

  /** Splitting at a first separator that the text before it cannot hold. */
  lemma {:induction false} SplitAtFirst(a: string, sep: string, b: string, c: char, k: nat)
    requires MarkedBy(sep, c, k) && c !in a
    ensures Split(a + sep + b, sep) == [a] + Split(b, sep)
  {
    var s := a + sep + b;
    NoEarlierOccurrence(a, sep, b, c, k);
    IndexOfIsFirst(s, sep, 0);
    assert IndexOf(s, sep, 0) == |a|;
    assert s[..|a|] == a;
    assert s[|a| + |sep|..] == b;
  }

  /** In `p + sep + rest`, with `c` marking `sep` and absent from `p`, the
      first occurrence of `sep` is the one right after `p`. */
  lemma {:induction false} NoEarlierOccurrence(p: string, sep: string, rest: string, c: char, k: nat)
    requires MarkedBy(sep, c, k) && c !in p
    ensures OccursAt(p + sep + rest, sep, |p|)
    ensures forall q :: 0 <= q < |p| ==> !OccursAt(p + sep + rest, sep, q)
  {
    var s := p + sep + rest;
    assert s[|p|..|p| + |sep|] == sep;
    forall q | 0 <= q < |p| ensures !OccursAt(s, sep, q) {
      if q + |sep| <= |s| {
        assert s[q..q + |sep|][k] == s[q + k];
        if q + k < |p| {
          assert s[q + k] == p[q + k];
        } else {
          assert s[q + k] == sep[q + k - |p|];
        }
      }
    }
  }

  /** Splitting text that does not contain the separator gives the text. */
  lemma {:induction false} SplitWithoutSeparator(s: string, sep: string)
    requires sep != [] && !Contains(s, sep)
    ensures Split(s, sep) == [s]
  {
  }

  /** A single character never found in `s` is not contained in it. */
  lemma {:induction false} AbsentCharNotContained(s: string, c: char)
    requires c !in s
    ensures !Contains(s, [c])
  {
    forall q | 0 <= q <= |s| ensures !OccursAt(s, [c], q) {
      if q < |s| {
        assert s[q..q + 1] == [s[q]];
      }
    }
  }

  function DropTrailingCR(line: string): string {
    if |line| > 0 && line[|line| - 1] == '\r' then line[..|line| - 1] else line
  }

  /** `text.split(/\r?\n/)`: the pieces between line feeds, each but the last
      losing one carriage return in front of its line feed. */
  function SplitLines(text: string): (r: seq<string>)
    ensures |r| >= 1
  {
    var pieces := Split(text, "\n");
    seq(|pieces|, i requires 0 <= i < |pieces| =>
      if i < |pieces| - 1 then DropTrailingCR(pieces[i]) else pieces[i])
  }

  /** No line of a text holds a line feed. */
  lemma {:induction false} SplitLinesNoLineFeed(text: string)
    ensures forall i :: 0 <= i < |SplitLines(text)| ==> '\n' !in SplitLines(text)[i]
  {
    var pieces := Split(text, "\n");
    SplitPiecesNoLineFeed(text);
    forall i | 0 <= i < |pieces| ensures '\n' !in SplitLines(text)[i] {
      var line := SplitLines(text)[i];
      assert forall j :: 0 <= j < |line| ==> line[j] == pieces[i][j];
    }
  }

  /** The pieces of a split on "\n" contain no line feed. */
  lemma {:induction false} SplitPiecesNoLineFeed(text: string)
    ensures forall i :: 0 <= i < |Split(text, "\n")| ==> '\n' !in Split(text, "\n")[i]
  {
    var pieces := Split(text, "\n");
    SplitPiecesAvoidSeparator(text, "\n");
    forall i, j | 0 <= i < |pieces| && 0 <= j < |pieces[i]| ensures pieces[i][j] != '\n' {
      assert pieces[i][j..j + 1] == [pieces[i][j]];
      assert !OccursAt(pieces[i], "\n", j);
    }
  }

  /** No line other than the last ends with a carriage return: the lines
      that a `\n` join turns back into the same lines under `SplitLines`. */
  predicate NoInnerCR(lines: seq<string>) {
    forall i :: 0 <= i < |lines| - 1 ==> !EndsWith(lines[i], "\r")
  }

  /** Re-splitting the "\n" join of line-feed-free lines gives them back,
      provided no line but the last ends with a carriage return. */
  lemma {:induction false} SplitLinesJoin(lines: seq<string>)
    requires |lines| >= 1
    requires forall i :: 0 <= i < |lines| ==> '\n' !in lines[i]
    requires NoInnerCR(lines)
    ensures SplitLines(Join(lines, "\n")) == lines
  {
    var t := Join(lines, "\n");
    SplitJoin(lines, "\n", '\n', 0);
    var pieces := Split(t, "\n");
    assert pieces == lines;
    var r := SplitLines(t);
    SplitLinesShape(t);
    assert |r| == |lines|;
    forall i | 0 <= i < |lines| ensures r[i] == lines[i] {
      if i < |lines| - 1 {
        assert r[i] == DropTrailingCR(lines[i]);
        NoCRKept(lines[i]);
      }
    }
  }

  /** The lines of `text` are the pieces of its split on "\n", each but the
      last without one trailing carriage return. */
  lemma {:induction false} SplitLinesShape(text: string)
    ensures |SplitLines(text)| == |Split(text, "\n")|
    ensures forall i :: 0 <= i < |Split(text, "\n")| - 1 ==>
      SplitLines(text)[i] == DropTrailingCR(Split(text, "\n")[i])
    ensures SplitLines(text)[|SplitLines(text)| - 1] == Split(text, "\n")[|Split(text, "\n")| - 1]
  {
  }

  lemma {:induction false} NoCRKept(line: string)
    requires !EndsWith(line, "\r")
    ensures DropTrailingCR(line) == line
  {
    if |line| > 0 {
      assert line[|line| - 1..] == [line[|line| - 1]];
    }
  }

  /** A text without carriage returns is the `\n` join of its lines. */
  lemma {:induction false} LineFeedTextRejoins(text: string)
    requires '\r' !in text
    ensures Join(SplitLines(text), "\n") == text
  {
    var pieces := Split(text, "\n");
    SplitPiecesAvoid(text, "\n", '\r');
    SplitLinesShape(text);
    forall i | 0 <= i < |pieces| ensures SplitLines(text)[i] == pieces[i] {
      if i < |pieces| - 1 {
        assert pieces[i] == [] || pieces[i][|pieces[i]| - 1] in pieces[i];
      }
    }
    assert SplitLines(text) == pieces;
  }
}
