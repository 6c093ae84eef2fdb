/** `normalizeCategory` of `src/commands/classify.ts`: a category typed by
    the user, either a slash path `a/b/c` or a bracketed list `[a, b, c]`,
    becomes the canonical path `a / b / c` that the metadata readers
    produce. */
module CategoryNormalizer {
  import opened JsString

  predicate IsQuote(c: char) {
    c == '"' || c == '\''
  }

  /** `.replace(/^["']|["']$/g, '')`: one leading quote goes, then one
      trailing quote of what is left. */
  function StripQuotes(s: string): string {
    var t := if |s| > 0 && IsQuote(s[0]) then s[1..] else s;
    if |t| > 0 && IsQuote(t[|t| - 1]) then t[..|t| - 1] else t
  }

  /** `parts.map((s) => s.trim())`. */
  function TrimAll(parts: seq<string>): (r: seq<string>)
    ensures |r| == |parts|
    ensures forall i :: 0 <= i < |parts| ==> r[i] == Trim(parts[i])
  {
    if parts == [] then [] else [Trim(parts[0])] + TrimAll(parts[1..])
  }

  /** `parts.map((s) => s.trim().replace(...))` of the bracket form. */
  function StripQuotesAll(parts: seq<string>): (r: seq<string>)
    ensures |r| == |parts|
    ensures forall i :: 0 <= i < |parts| ==> r[i] == StripQuotes(Trim(parts[i]))
  {
    if parts == [] then [] else [StripQuotes(Trim(parts[0]))] + StripQuotesAll(parts[1..])
  }

  /** `parts.filter(Boolean)`: the non-empty strings, in order. */
  function NonEmpty(parts: seq<string>): seq<string> {
    if parts == [] then []
    else if parts[0] == "" then NonEmpty(parts[1..])
    else [parts[0]] + NonEmpty(parts[1..])
  }

  /** Input that trims to `[...]` is read as a list: `startsWith('[')` and
      `endsWith(']')`, which needs two characters at least. */
  predicate IsBracketed(t: string) {
    |t| >= 2 && t[0] == '[' && t[|t| - 1] == ']'
  }

  /** The segments the normalized category is made of. */
  function Segments(val: string): seq<string> {
    var t := Trim(val);
    if IsBracketed(t) then ListSegments(t) else PathSegments(val)
  }

  /** The segments of the bracket form: the text between the brackets, split
      on commas, each item trimmed and unquoted, empty ones dropped. */
  function ListSegments(t: string): seq<string>
    requires |t| >= 2
  {
    NonEmpty(StripQuotesAll(Split(t[1..|t| - 1], ",")))
  }

  /** The segments of the slash form: the input split on slashes, each piece
      trimmed, empty ones dropped. */
  function PathSegments(val: string): seq<string> {
    NonEmpty(TrimAll(Split(val, "/")))
  }

  /** `normalizeCategory`. */
  function NormalizeCategory(val: string): string {
    Join(Segments(val), " / ")
  }

  predicate AllWhitespace(w: string) {
    forall i :: 0 <= i < |w| ==> IsWhitespace(w[i])
  }

  /** A segment of a canonical path: not empty, no slash, no whitespace at
      either end. */
  predicate IsSegment(s: string) {
    s != [] && '/' !in s && !IsWhitespace(s[0]) && !IsWhitespace(s[|s| - 1])
  }

  predicate AllSegments(segs: seq<string>) {
    forall i :: 0 <= i < |segs| ==> IsSegment(segs[i])
  }

  /** A slash path may not be read back as a bracketed list. */
  predicate OpensAsList(segs: seq<string>)
    requires |segs| >= 1 && AllSegments(segs)
  {
    segs[0][0] == '[' && segs[|segs| - 1][|segs[|segs| - 1]| - 1] == ']'
  }

  /** The quotes `StripQuotes` removes: a quote at each end of a quoted
      segment, nothing from a segment without quotes at its ends. The empty
      segment and a lone quote both give the empty string. */
  lemma {:induction false} StripQuotesSpec(s: string)
    ensures |s| <= 1 && (|s| == 0 || IsQuote(s[0])) ==> StripQuotes(s) == ""
    ensures |s| >= 2 && IsQuote(s[0]) && IsQuote(s[|s| - 1]) ==> StripQuotes(s) == s[1..|s| - 1]
    ensures |s| >= 1 && !IsQuote(s[0]) && !IsQuote(s[|s| - 1]) ==> StripQuotes(s) == s
    ensures |s| >= 1 && IsQuote(s[0]) && !IsQuote(s[|s| - 1]) ==> StripQuotes(s) == s[1..]
    ensures |s| >= 1 && !IsQuote(s[0]) && IsQuote(s[|s| - 1]) ==> StripQuotes(s) == s[..|s| - 1]
  {
    if |s| >= 2 && IsQuote(s[0]) {
      assert s[1..][|s| - 2] == s[|s| - 1];
    }
  }

  /** Trailing whitespace after a character that is not whitespace is what
      `trimEnd` removes. */
  lemma {:induction false} TrimEndWhitespaceTail(a: string, z: string)
    requires a == [] || !IsWhitespace(a[|a| - 1])
    requires AllWhitespace(z)
    ensures TrimEnd(a + z) == a
    decreases |z|
  {
    if z == [] {
      assert a + z == a;
    } else {
      assert (a + z)[..|a + z| - 1] == a + z[..|z| - 1];
      TrimEndWhitespaceTail(a, z[..|z| - 1]);
    }
  }

  /** Leading whitespace before a character that is not whitespace is what
      `trimStart` removes. */
  lemma {:induction false} TrimStartWhitespaceHead(w: string, a: string)
    requires a == [] || !IsWhitespace(a[0])
    requires AllWhitespace(w)
    ensures TrimStart(w + a) == a
    decreases |w|
  {
    if w == [] {
      assert w + a == a;
    } else {
      assert (w + a)[1..] == w[1..] + a;
      TrimStartWhitespaceHead(w[1..], a);
    }
  }

  /** Trimming whitespace padding around a text that has none at its ends. */
  lemma {:induction false} TrimPadded(w: string, s: string, z: string)
    requires s != [] && !IsWhitespace(s[0]) && !IsWhitespace(s[|s| - 1])
    requires AllWhitespace(w) && AllWhitespace(z)
    ensures Trim(w + s + z) == s
  {
    assert (w + s)[|w + s| - 1] == s[|s| - 1];
    TrimEndWhitespaceTail(w + s, z);
    TrimStartWhitespaceHead(w, s);
  }

  /** A slash path whose separators and ends carry whitespace padding splits
      on `/` into pieces that trim back to its segments. */
  lemma {:induction false} SlashPathPieces(w: string, segs: seq<string>, g: string, z: string)
    requires |segs| >= 1 && AllSegments(segs)
    requires AllWhitespace(w) && AllWhitespace(g) && AllWhitespace(z)
    ensures TrimAll(Split(w + Join(segs, g + "/" + g) + z, "/")) == segs
    decreases |segs|
  {
    var s0 := segs[0];
    assert IsSegment(s0);
    if |segs| == 1 {
      assert '/' !in w + s0 + z;
      AbsentCharNotContained(w + s0 + z, '/');
      SplitWithoutSeparator(w + s0 + z, "/");
      TrimPadded(w, s0, z);
    } else {
      var rest := Join(segs[1..], g + "/" + g);
      SlashPathFirstPiece(w, segs, g, z);
      TrimPadded(w, s0, g);
      SlashPathPieces(g, segs[1..], g, z);
      var pieces := Split(w + Join(segs, g + "/" + g) + z, "/");
      assert pieces[1..] == Split(g + rest + z, "/");
      assert segs == [s0] + segs[1..];
    }
  }

  /** The first piece of a padded slash path of several segments is its
      first segment with its padding. */
  lemma {:induction false} SlashPathFirstPiece(w: string, segs: seq<string>, g: string, z: string)
    requires |segs| >= 2 && AllSegments(segs)
    requires AllWhitespace(w) && AllWhitespace(g)
    ensures var rest := Join(segs[1..], g + "/" + g);
      Split(w + Join(segs, g + "/" + g) + z, "/") == [w + segs[0] + g] + Split(g + rest + z, "/")
  {
    var s0 := segs[0];
    assert IsSegment(s0);
    var rest := Join(segs[1..], g + "/" + g);
    assert w + Join(segs, g + "/" + g) + z == (w + s0 + g) + "/" + (g + rest + z);
    assert '/' !in w + s0 + g;
    SplitAtFirst(w + s0 + g, "/", g + rest + z, '/', 0);
  }

  /** A joined list starts with its first part's first character and ends
      with its last part's last character. */
  lemma {:induction false} JoinEnds(segs: seq<string>, sep: string)
    requires |segs| >= 1 && AllSegments(segs)
    ensures |Join(segs, sep)| >= 1
    ensures Join(segs, sep)[0] == segs[0][0]
    ensures Join(segs, sep)[|Join(segs, sep)| - 1] == segs[|segs| - 1][|segs[|segs| - 1]| - 1]
    decreases |segs|
  {
    assert IsSegment(segs[0]);
    if |segs| > 1 {
      JoinEnds(segs[1..], sep);
    }
  }

  /** A slash path with one whitespace string on both sides of every slash,
      and whitespace at its ends, normalizes to its segments joined by
      ` / `. This is the case of `NormalizePaddedPath` where every piece
      carries the same padding; it is kept in this form because the
      canonical separator ` / ` is written with it directly. */
  lemma {:induction false} NormalizePath(w: string, segs: seq<string>, g: string, z: string)
    requires |segs| >= 1 && AllSegments(segs) && !OpensAsList(segs)
    requires AllWhitespace(w) && AllWhitespace(g) && AllWhitespace(z)
    ensures NormalizeCategory(w + Join(segs, g + "/" + g) + z) == Join(segs, " / ")
  {
    PathIsNotBracketed(w, segs, g, z);
    SlashPathPieces(w, segs, g, z);
    assert forall i :: 0 <= i < |segs| ==> segs[i] != [] by {
      assert forall i :: 0 <= i < |segs| ==> IsSegment(segs[i]);
    }
    NonEmptyKeeps(segs);
  }

  /** A padded slash path that does not open as a list does not trim to a
      bracketed text. */
  lemma {:induction false} PathIsNotBracketed(w: string, segs: seq<string>, g: string, z: string)
    requires |segs| >= 1 && AllSegments(segs) && !OpensAsList(segs)
    requires AllWhitespace(w) && AllWhitespace(g) && AllWhitespace(z)
    ensures !IsBracketed(Trim(w + Join(segs, g + "/" + g) + z))
  {
    var path := Join(segs, g + "/" + g);
    JoinEnds(segs, g + "/" + g);
    TrimPadded(w, path, z);
  }

  /** A slash path whose every piece carries its own whitespace padding,
      before and after its segment, normalizes to its segments joined by
      ` / `. */
  lemma {:induction false} NormalizePaddedPath(pieces: seq<string>, l: seq<string>, segs: seq<string>, r: seq<string>)
    requires |segs| >= 1 && AllSegments(segs) && !OpensAsList(segs)
    requires |pieces| == |segs| && |l| == |segs| && |r| == |segs|
    requires forall i :: 0 <= i < |segs| ==> pieces[i] == l[i] + segs[i] + r[i]
    requires forall i :: 0 <= i < |segs| ==> AllWhitespace(l[i]) && AllWhitespace(r[i])
    ensures NormalizeCategory(Join(pieces, "/")) == Join(segs, " / ")
  {
    var s := Join(pieces, "/");
    forall i | 0 <= i < |segs| ensures '/' !in pieces[i] && Trim(pieces[i]) == segs[i] {
      PaddedPiece(l[i], segs[i], r[i]);
    }
    assert MarkedBy("/", '/', 0);
    SplitJoin(pieces, "/", '/', 0);
    assert TrimAll(Split(s, "/")) == segs;
    PaddedPathIsNotBracketed(pieces, l, segs, r);
    assert forall i :: 0 <= i < |segs| ==> segs[i] != [] by {
      assert forall i :: 0 <= i < |segs| ==> IsSegment(segs[i]);
    }
    NonEmptyKeeps(segs);
  }

  /** A segment with whitespace padding holds no slash and trims back to the
      segment. */
  lemma {:induction false} PaddedPiece(w: string, seg: string, z: string)
    requires IsSegment(seg) && AllWhitespace(w) && AllWhitespace(z)
    ensures '/' !in w + seg + z && Trim(w + seg + z) == seg
  {
    assert !IsWhitespace('/');
    TrimPadded(w, seg, z);
  }

  /** The trimmed text of a padded slash path runs from its first segment's
      first character to its last segment's last character. */
  lemma {:induction false} PaddedPathIsNotBracketed(pieces: seq<string>, l: seq<string>, segs: seq<string>, r: seq<string>)
    requires |segs| >= 1 && AllSegments(segs) && !OpensAsList(segs)
    requires |pieces| == |segs| && |l| == |segs| && |r| == |segs|
    requires forall i :: 0 <= i < |segs| ==> pieces[i] == l[i] + segs[i] + r[i]
    requires forall i :: 0 <= i < |segs| ==> AllWhitespace(l[i]) && AllWhitespace(r[i])
    ensures !IsBracketed(Trim(Join(pieces, "/")))
  {
    var s := Join(pieces, "/");
    var n := |segs|;
    var first, last := pieces[0], pieces[n - 1];
    assert IsSegment(segs[0]) && IsSegment(segs[n - 1]);
    JoinEdges(pieces, "/");
    var i0 := |l[0]|;
    var j := |s| - |r[n - 1]| - 1;
    assert s[i0] == first[i0] == segs[0][0] by {
      assert s[..|first|][i0] == first[i0];
    }
    assert s[j] == segs[n - 1][|segs[n - 1]| - 1] by {
      assert s[|s| - |last|..][|last| - |r[n - 1]| - 1] == last[|last| - |r[n - 1]| - 1];
    }
    forall k | 0 <= k < i0 ensures IsWhitespace(s[k]) {
      assert s[..|first|][k] == first[k] == l[0][k];
    }
    forall k | j < k < |s| ensures IsWhitespace(s[k]) {
      var q := k - (|s| - |last|);
      assert s[|s| - |last|..][q] == last[q] == r[n - 1][q - |l[n - 1]| - |segs[n - 1]|];
    }
    TrimBetween(s, i0, j);
  }

  /** A joined list starts with its first part and ends with its last. */
  lemma {:induction false} JoinEdges(parts: seq<string>, sep: string)
    requires |parts| >= 1
    ensures |Join(parts, sep)| >= |parts[0]| && Join(parts, sep)[..|parts[0]|] == parts[0]
    ensures |Join(parts, sep)| >= |parts[|parts| - 1]|
    ensures Join(parts, sep)[|Join(parts, sep)| - |parts[|parts| - 1]|..] == parts[|parts| - 1]
    decreases |parts|
  {
    if |parts| > 1 {
      JoinEdges(parts[1..], sep);
      var rest := Join(parts[1..], sep);
      assert Join(parts, sep) == parts[0] + (sep + rest);
    }
  }

  /** Trimming a text whose only whitespace lies before index `i` and after
      index `j`, both of which hold other characters. */
  lemma {:induction false} TrimBetween(s: string, i: nat, j: nat)
    requires i < |s| && j < |s| && !IsWhitespace(s[i]) && !IsWhitespace(s[j])
    requires forall k :: 0 <= k < i ==> IsWhitespace(s[k])
    requires forall k :: j < k < |s| ==> IsWhitespace(s[k])
    ensures i <= j && Trim(s) == s[i..j + 1]
  {
    var z := s[j + 1..];
    assert s == s[..j + 1] + z;
    assert AllWhitespace(z) by {
      forall k | 0 <= k < |z| ensures IsWhitespace(z[k]) {
        assert z[k] == s[j + 1 + k];
      }
    }
    TrimEndWhitespaceTail(s[..j + 1], z);
    assert s[..j + 1] == s[..i] + s[i..j + 1];
    TrimStartWhitespaceHead(s[..i], s[i..j + 1]);
  }

  /** Every trimmed piece that survives the filter of the slash form is a
      segment. */
  lemma {:induction false} TrimmedPiecesAreSegments(pieces: seq<string>)
    requires forall i :: 0 <= i < |pieces| ==> '/' !in pieces[i]
    ensures AllSegments(NonEmpty(TrimAll(pieces)))
    decreases |pieces|
  {
    if pieces != [] {
      TrimmedPieceIsSegment(pieces[0]);
      TrimmedPiecesAreSegments(pieces[1..]);
      assert TrimAll(pieces)[1..] == TrimAll(pieces[1..]);
    }
  }

  /** A piece without a slash trims to nothing or to a segment. */
  lemma {:induction false} TrimmedPieceIsSegment(p: string)
    requires '/' !in p
    ensures Trim(p) == "" || IsSegment(Trim(p))
  {
    var a := TrimIsInterior(p);
    var t := Trim(p);
    assert '/' !in t by {
      forall i | 0 <= i < |t| ensures t[i] != '/' {
        assert t[i] == p[a + i];
      }
    }
  }

  /** The pieces of a split on `/` hold no slash. */
  lemma {:induction false} SlashPiecesAvoidSlash(val: string)
    ensures forall i :: 0 <= i < |Split(val, "/")| ==> '/' !in Split(val, "/")[i]
  {
    SplitPiecesAvoidSeparator(val, "/");
    forall i | 0 <= i < |Split(val, "/")| ensures '/' !in Split(val, "/")[i] {
      var p := Split(val, "/")[i];
      forall q | 0 <= q < |p| ensures p[q] != '/' {
        assert p[q..q + 1] == [p[q]];
        assert !OccursAt(p, "/", q);
      }
    }
  }

  /** In the slash form the normalized category is a canonical path: it
      splits on ` / ` back into its segments, each non-empty, without a
      slash and without whitespace at its ends. */
  lemma {:induction false} SlashFormIsCanonical(val: string)
    requires !IsBracketed(Trim(val))
    ensures AllSegments(Segments(val))
    ensures |Segments(val)| >= 1 ==> Split(NormalizeCategory(val), " / ") == Segments(val)
  {
    SlashPiecesAvoidSlash(val);
    TrimmedPiecesAreSegments(Split(val, "/"));
    var segs := Segments(val);
    if |segs| >= 1 {
      assert forall i :: 0 <= i < |segs| ==> '/' !in segs[i] by {
        assert forall i :: 0 <= i < |segs| ==> IsSegment(segs[i]);
      }
      SplitJoin(segs, " / ", '/', 1);
    }
  }

  /** Normalizing twice gives what normalizing once gives, for slash-form
      input whose result does not itself read as a bracketed list. */
  lemma {:induction false} NormalizeIsIdempotent(val: string)
    requires !IsBracketed(Trim(val))
    requires !IsBracketed(NormalizeCategory(val))
    ensures NormalizeCategory(NormalizeCategory(val)) == NormalizeCategory(val)
  {
    var segs := Segments(val);
    var n := NormalizeCategory(val);
    assert n == Join(segs, " / ");
    SlashFormIsCanonical(val);
    if |segs| == 0 {
      NormalizeEmpty();
    } else {
      assert !OpensAsList(segs) by {
        JoinEnds(segs, " / ");
      }
      CanonicalPathIsFixed(segs);
    }
  }

  /** A canonical path that does not read as a bracketed list normalizes to
      itself. */
  lemma {:induction false} CanonicalPathIsFixed(segs: seq<string>)
    requires |segs| >= 1 && AllSegments(segs) && !OpensAsList(segs)
    ensures NormalizeCategory(Join(segs, " / ")) == Join(segs, " / ")
  {
    var sep := " " + "/" + " ";
    assert sep == " / ";
    var path := Join(segs, sep);
    assert "" + path + "" == path;
    assert AllWhitespace(" ");
    NormalizePath("", segs, " ", "");
  }

  /** The empty category stays empty. */
  lemma NormalizeEmpty()
    ensures NormalizeCategory("") == ""
  {
    assert Split("", "/") == [""];
    assert TrimAll([""]) == [""];
  }

  /** Text made only of slashes and whitespace normalizes to the empty
      string: empty segments are dropped. */
  lemma {:induction false} OnlySeparatorsGiveEmpty(val: string)
    requires forall i :: 0 <= i < |val| ==> val[i] == '/' || IsWhitespace(val[i])
    ensures NormalizeCategory(val) == ""
  {
    var a := TrimIsInterior(val);
    assert !IsBracketed(Trim(val)) by {
      if |Trim(val)| > 0 {
        assert Trim(val)[0] == val[a];
      }
    }
    var pieces := Split(val, "/");
    SlashPiecesAvoidSlash(val);
    forall i | 0 <= i < |pieces| ensures AllWhitespace(pieces[i]) {
      forall q | 0 <= q < |pieces[i]| ensures IsWhitespace(pieces[i][q]) {
        var c := pieces[i][q];
        if c !in val {
          SplitPiecesAvoid(val, "/", c);
        }
      }
    }
    BlankPiecesVanish(pieces);
  }

  /** Pieces made of whitespace all trim to empty strings and are dropped. */
  lemma {:induction false} BlankPiecesVanish(pieces: seq<string>)
    requires forall i :: 0 <= i < |pieces| ==> AllWhitespace(pieces[i])
    ensures NonEmpty(TrimAll(pieces)) == []
    decreases |pieces|
  {
    if pieces != [] {
      var p := pieces[0];
      var a := TrimIsInterior(p);
      assert Trim(p) == [];
      BlankPiecesVanish(pieces[1..]);
      assert TrimAll(pieces)[1..] == TrimAll(pieces[1..]);
    }
  }

  /** Slash-form input without a slash normalizes to its trimmed self. */
  lemma {:induction false} WithoutSlashIsTrim(val: string)
    requires '/' !in val && !IsBracketed(Trim(val))
    ensures NormalizeCategory(val) == Trim(val)
  {
    AbsentCharNotContained(val, '/');
    SplitWithoutSeparator(val, "/");
    assert TrimAll([val]) == [Trim(val)];
    assert Segments(val) == NonEmpty([Trim(val)]);
    if Trim(val) == "" {
      assert Segments(val) == [];
    } else {
      assert Segments(val) == [Trim(val)];
    }
  }

  /** `a/b/c` is the path `a / b / c`. */
  lemma SlashExample()
    ensures NormalizeCategory("a/b/c") == "a / b / c"
  {
    var segs := ["a", "b", "c"];
    assert AllSegments(segs) by {
      assert IsSegment("a") && IsSegment("b") && IsSegment("c");
    }
    var sep := "" + "/" + "";
    assert sep == "/";
    var path := Join(segs, sep);
    assert path == "a/b/c";
    assert "" + path + "" == path;
    assert Join(segs, " / ") == "a / b / c";
    NormalizePath("", segs, "", "");
  }

  /** Whitespace around the slashes and at the ends is dropped. */
  lemma SpacedExample()
    ensures NormalizeCategory(" a / b / c ") == "a / b / c"
  {
    var segs := ["a", "b", "c"];
    assert AllSegments(segs) by {
      assert IsSegment("a") && IsSegment("b") && IsSegment("c");
    }
    var sep := " " + "/" + " ";
    assert sep == " / ";
    var path := Join(segs, sep);
    assert path == "a / b / c";
    assert " " + path + " " == " a / b / c ";
    assert AllWhitespace(" ");
    NormalizePath(" ", segs, " ", " ");
  }

  /** Each slash may carry its own padding, on one side only. */
  lemma UnevenExample()
    ensures NormalizeCategory("a /b/  c") == "a / b / c"
  {
    var segs := ["a", "b", "c"];
    assert AllSegments(segs) by {
      assert IsSegment("a") && IsSegment("b") && IsSegment("c");
    }
    var l, r := ["", "", "  "], [" ", "", ""];
    assert AllWhitespace(" ") && AllWhitespace("  ") && AllWhitespace("");
    var pieces := ["a ", "b", "  c"];
    assert Join(pieces, "/") == "a /b/  c";
    assert Join(segs, " / ") == "a / b / c";
    NormalizePaddedPath(pieces, l, segs, r);
  }

  /** A bracketed list of comma-separated items whose trimmed forms are
      not empty and carry no quote at their ends normalizes to the trimmed
      items joined by ` / `. */
  lemma {:induction false} BracketList(items: seq<string>)
    requires |items| >= 1
    requires forall i :: 0 <= i < |items| ==> ',' !in items[i]
    requires forall i :: 0 <= i < |items| ==> Unquoted(Trim(items[i]))
    ensures NormalizeCategory("[" + Join(items, ",") + "]") == Join(TrimAll(items), " / ")
  {
    var val := "[" + Join(items, ",") + "]";
    BracketedTrim(Join(items, ","));
    BracketItems(items);
    assert Segments(val) == ListSegments(val);
  }

  /** Text between brackets trims to itself. */
  lemma {:induction false} BracketedTrim(inner: string)
    ensures Trim("[" + inner + "]") == "[" + inner + "]"
    ensures IsBracketed("[" + inner + "]")
  {
    var val := "[" + inner + "]";
    assert AllWhitespace("");
    assert val[0] == '[' && val[|val| - 1] == ']';
    TrimPadded("", val, "");
    assert "" + val + "" == val;
  }

  /** The segments of a bracketed list of unquoted items. */
  lemma {:induction false} BracketItems(items: seq<string>)
    requires |items| >= 1
    requires forall i :: 0 <= i < |items| ==> ',' !in items[i]
    requires forall i :: 0 <= i < |items| ==> Unquoted(Trim(items[i]))
    ensures ListSegments("[" + Join(items, ",") + "]") == TrimAll(items)
  {
    var inner := Join(items, ",");
    var val := "[" + inner + "]";
    assert val[1..|val| - 1] == inner;
    SplitJoin(items, ",", ',', 0);
    UnquotedItems(items);
    NonEmptyKeeps(TrimAll(items));
  }

  /** A non-empty text without a quote at either end. */
  predicate Unquoted(t: string) {
    t != [] && !IsQuote(t[0]) && !IsQuote(t[|t| - 1])
  }

  /** Items whose trimmed forms are unquoted lose nothing to quote
      stripping, and none of them trims to the empty string. */
  lemma {:induction false} UnquotedItems(items: seq<string>)
    requires forall i :: 0 <= i < |items| ==> Unquoted(Trim(items[i]))
    ensures StripQuotesAll(items) == TrimAll(items)
    ensures forall i :: 0 <= i < |items| ==> TrimAll(items)[i] != []
    decreases |items|
  {
    if items != [] {
      var t := Trim(items[0]);
      assert Unquoted(t);
      assert StripQuotes(t) == t;
      UnquotedItems(items[1..]);
      assert TrimAll(items)[1..] == TrimAll(items[1..]);
    }
  }

  /** Filtering a list without empty strings keeps it. */
  lemma {:induction false} NonEmptyKeeps(parts: seq<string>)
    requires forall i :: 0 <= i < |parts| ==> parts[i] != []
    ensures NonEmpty(parts) == parts
    decreases |parts|
  {
    if parts != [] {
      NonEmptyKeeps(parts[1..]);
    }
  }

  /** The bracket form trims each item. */
  lemma BracketExample()
    ensures NormalizeCategory("[a, b, c]") == "a / b / c"
  {
    var items := ["a", " b", " c"];
    ExampleItems();
    BracketList(items);
    ExampleJoin();
  }

  /** The items of `[a, b, c]`, rejoined and bracketed. */
  lemma ExampleJoin()
    ensures "[" + Join(["a", " b", " c"], ",") + "]" == "[a, b, c]"
  {
    var tail := Join([" c"], ",");
    assert tail == " c";
    var mid := Join([" b", " c"], ",");
    assert mid == " b" + "," + tail;
    var whole := Join(["a", " b", " c"], ",");
    assert whole == "a" + "," + mid;
    assert whole == "a, b, c";
  }

  /** The items of `[a, b, c]` are unquoted and trim to `a`, `b` and `c`. */
  lemma ExampleItems()
    ensures var items := ["a", " b", " c"];
      && (forall i :: 0 <= i < |items| ==> ',' !in items[i] && Unquoted(Trim(items[i])))
      && Join(TrimAll(items), " / ") == "a / b / c"
  {
    var items := ["a", " b", " c"];
    var trimmed := ["a", "b", "c"];
    assert AllWhitespace(" ") && AllWhitespace("");
    TrimPadded("", "a", "");
    TrimPadded(" ", "b", "");
    TrimPadded(" ", "c", "");
    assert "" + "a" + "" == "a" && " " + "b" + "" == " b" && " " + "c" + "" == " c";
    assert TrimAll(items) == trimmed;
    assert Join(trimmed, " / ") == "a / b / c";
  }
}
