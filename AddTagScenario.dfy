/** One post worked through end to end: adding the tag `bar` to a post
    tagged `foo` rewrites its `tags` line as the flow list `[foo, bar]` and
    leaves every other line as it was. */
module AddTagScenario {
  import opened Wrappers
  import opened JsString
  import opened FrontMatterLocator
  import opened HexoMetadata
  import opened ValueSerializer
  import opened PatchEngine
  import opened CategoryNormalizer
  import opened ClassifyCommands

  /** The post before: `---`, `title: Hello`, `tags: foo`, `---`, `body`. */
  const Before: string := "---\ntitle: Hello\n" + "tags: foo" + "\n---\nbody"
  /** The post after: its `tags` line is `tags: [foo, bar]`. */
  const After: string := "---\ntitle: Hello\n" + "tags: [foo, bar]" + "\n---\nbody"

  /** The lines of a five-line post whose third line is `tagLine`. */
  function PostLines(tagLine: string): seq<string> {
    ["---", "title: Hello", tagLine, "---", "body"]
  }

  /** The post's lines joined with line feeds. */
  lemma {:induction false} PostText(tagLine: string)
    ensures Join(PostLines(tagLine), "\n") == "---\ntitle: Hello\n" + tagLine + "\n---\nbody"
  {
    var lines := PostLines(tagLine);
    var tail := "\n---\nbody";
    assert Join(lines[3..], "\n") == "---\nbody";
    assert Join(lines[2..], "\n") == tagLine + tail;
    assert Join(lines[1..], "\n") == "title: Hello\n" + (tagLine + tail);
    assert Join(lines, "\n") == "---\n" + ("title: Hello\n" + (tagLine + tail));
  }

  /** Splitting the post gives its lines back. */
  lemma {:induction false} PostSplits(tagLine: string)
    requires '\n' !in tagLine && '\r' !in tagLine
    ensures SplitLines(Join(PostLines(tagLine), "\n")) == PostLines(tagLine)
  {
    var lines := PostLines(tagLine);
    assert forall i :: 0 <= i < |lines| ==> '\n' !in lines[i] && '\r' !in lines[i];
    forall i | 0 <= i < |lines| - 1
      ensures !EndsWith(lines[i], "\r")
    {
      if |lines[i]| > 0 {
        assert lines[i][|lines[i]| - 1] in lines[i];
      }
    }
    SplitLinesJoin(lines);
  }

  /** Which of the post's lines are delimiters. */
  lemma {:induction false} PostDelimiters(tagLine: string)
    requires |tagLine| > 3 && !IsWhitespace(tagLine[0]) && !IsWhitespace(tagLine[|tagLine| - 1])
    ensures IsDelimiter("---") && !IsDelimiter("title: Hello") && !IsDelimiter(tagLine)
  {
    assert AllWhitespace("");
    var dashes, title := "---", "title: Hello";
    TrimPadded("", dashes, "");
    assert "" + dashes + "" == dashes;
    TrimPadded("", title, "");
    assert "" + title + "" == title;
    TrimPadded("", tagLine, "");
    assert "" + tagLine + "" == tagLine;
  }

  /** The post's front matter is lines 0 to 3 and its `tags` key is line 2
      alone. */
  lemma {:induction false} PostLocated(tagLine: string)
    requires |tagLine| > 3 && !IsWhitespace(tagLine[0]) && !IsWhitespace(tagLine[|tagLine| - 1])
    requires StartsKey(tagLine, "tags")
    ensures Locate(PostLines(tagLine), "tags") == KeyRange(0, 3, 2, 2)
  {
    var lines := PostLines(tagLine);
    PostDelimiters(tagLine);
    assert FirstDelimiterFrom(lines, 0) == 0;
    assert FirstDelimiterFrom(lines, 3) == 3;
    assert FirstDelimiterFrom(lines, 1) == 3;
    assert !StartsKey(lines[1], "tags") by {
      assert lines[1][..5][1] == 'i';
    }
    assert FirstKeyLine(lines, "tags", 2, 3) == 2;
    assert FirstKeyLine(lines, "tags", 1, 3) == 2;
    assert ContinuationEnd(lines, 3, 3) == 3;
  }

  /** Two tags serialise as a flow list. */
  lemma TwoTags()
    ensures Serialize(Tags, ["foo", "bar"]) == "tags: [foo, bar]"
  {
    var values := ["foo", "bar"];
    assert Join(values[1..], ", ") == "bar";
    assert Join(values, ", ") == "foo" + ", " + "bar";
  }

  /** The post splits into its five lines. */
  lemma BeforeSplits()
    ensures SplitLines(Before) == PostLines("tags: foo")
  {
    PostText("tags: foo");
    PostSplits("tags: foo");
  }

  /** The post's `tags` key is line 2 alone. */
  lemma BeforeLocated()
    ensures Locate(PostLines("tags: foo"), "tags") == KeyRange(0, 3, 2, 2)
  {
    assert StartsKey("tags: foo", "tags") by {
      assert "tags: foo"[..|"tags:"|] == "tags:";
    }
    PostLocated("tags: foo");
  }

  /** Patching the post's `tags` line replaces that line only. */
  lemma PatchedPost()
    ensures Patched(Before, "tags", "tags: [foo, bar]") == After
  {
    var lines := PostLines("tags: foo");
    var newValue := "tags: [foo, bar]";
    BeforeSplits();
    BeforeLocated();
    PatchAtLineTwo(Before, lines, newValue);
    SplicedPost("tags: foo", newValue);
  }

  /** Splicing a new line over the post's `tags` line gives the post with
      that line. */
  lemma {:induction false} SplicedPost(tagLine: string, newLine: string)
    ensures Join(Splice(PostLines(tagLine), 2, 2, newLine), "\n") == "---\ntitle: Hello\n" + newLine + "\n---\nbody"
  {
    assert Splice(PostLines(tagLine), 2, 2, newLine) == PostLines(newLine);
    PostText(newLine);
  }

  /** Patching a text whose `tags` key is line 2 alone splices line 2. */
  lemma {:induction false} PatchAtLineTwo(text: string, lines: seq<string>, newValue: string)
    requires |lines| == 5 && SplitLines(text) == lines
    requires Locate(lines, "tags") == KeyRange(0, 3, 2, 2)
    ensures Patched(text, "tags", newValue) == Join(Splice(lines, 2, 2, newValue), "\n")
  {
  }

  /** Adding `bar` to the one post tagged `foo` writes that post once, with
      the tags `foo, bar` and the text whose `tags` line is `[foo, bar]`. */
  lemma AddBarToPost()
    ensures Plan([Post(Before, ["foo"])], Tags, AddEdit("bar")) == [Write(0, ["foo", "bar"], Some(After))]
  {
    var posts := [Post(Before, ["foo"])];
    assert Edited(AddEdit("bar"), ["foo"]) == Some(["foo", "bar"]) by {
      assert "bar"[0] != "foo"[0];
      assert ["foo"] + ["bar"] == ["foo", "bar"];
    }
    TwoTags();
    PatchedPost();
    assert After != Before by {
      assert |After| != |Before|;
    }
    assert FileUpdate(Before, Tags, ["foo", "bar"]) == Some(After);
    assert posts[..0] == [];
  }
}
