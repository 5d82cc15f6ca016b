/** `display_formatted_response` in main.py: a response is cut at its code
    fences; the prose between fences goes out as Markdown and each fenced part
    as a code block whose first line, when it names one of twelve languages, is
    turned into a comment of that language. The page's widget calls become
    output events. */
module Render {
  import opened Wrappers
  import opened Strings

  /** What the page hands to the UI framework, in order. */
  datatype Output =
    | Markdown(text: string)                           // st.markdown(text)
    | Code(body: string, language: Option<string>)     // st.code(body[, language=...]); None: the framework's default
    | Write(text: string)                              // st.write(text)
    | Expander(title: string, body: string)            // st.write(body) inside st.expander(title)
    | Spacer                                           // st.write of three non-breaking spaces

  /** The code-fence delimiter. */
  const Fence: string := "```"

  /** The twelve recognised language tags, and the four groups of the
      comment rewrite. */
  const Tags: seq<string> :=
    ["cpp", "c++", "python", "java", "javascript", "csharp", "html", "css", "sql", "plsql", "ruby", "php"]
  const SlashTags: seq<string> := ["cpp", "c++", "java", "javascript", "csharp"]
  const BlockTags: seq<string> := ["css", "sql", "plsql", "ruby", "php"]

  /** The tag a code line names: trimmed and lower-cased. */
  function TagOf(line: string): string
  {
    Lower(Strip(line))
  }

  /** The comment the first line of a code part becomes, for a recognised
      `language`; the line itself keeps its original case. */
  function CommentedTagLine(line: string, language: string): string
  {
    if language in SlashTags then "// " + line
    else if language == "python" then "# " + line
    else if language == "html" then "<!-- " + line + " -->"
    else if language in BlockTags then "/* " + line + " */"
    else line
  }

  /** The per-line edit: a recognised first line is commented out and every
      other line stays as it is. */
  function RewriteFirstLine(lines: seq<string>): (r: seq<string>)
    ensures |r| == |lines|
    ensures forall k :: 0 < k < |lines| ==> r[k] == lines[k]
    ensures lines != [] && TagOf(lines[0]) !in Tags ==> r == lines
  {
    if lines != [] && TagOf(lines[0]) in Tags then
      lines[0 := CommentedTagLine(lines[0], TagOf(lines[0]))]
    else lines
  }

  /** The body of the code block shown for one fenced part. */
  function CodeBlock(part: string): string
  {
    JoinLines(RewriteFirstLine(Lines(Strip(part))))
  }

  /** The output for part `k` of a response split at its fences: even parts
      are prose, odd parts are code. */
  function Segment(parts: seq<string>, k: nat): Output
    requires k < |parts|
  {
    if k % 2 == 0 then Markdown(parts[k]) else Code(CodeBlock(parts[k]), None)
  }

  /** The outputs for all parts, in order. */
  function Segments(parts: seq<string>): (r: seq<Output>)
  {
    seq(|parts|, k requires 0 <= k < |parts| => Segment(parts, k))
  }

  /** The renderer itself, following the loop over `enumerate(parts)`; the
      first code line is overwritten in place. */
  method DisplayFormattedResponse(responseText: string) returns (out: seq<Output>)
    ensures out == Segments(Split(responseText, Fence))
  {
    var parts := Split(responseText, Fence);
    out := [];
    var i := 0;
    while i < |parts|
      invariant 0 <= i <= |parts|
      invariant out == Segments(parts)[..i]
    {
      var part := parts[i];
      if i % 2 == 0 {
        out := out + [Markdown(part)];
      } else {
        var codeLines := CodeLines(part);
        out := out + [Code(JoinLines(codeLines), None)];
      }
      assert Segments(parts)[..i + 1] == Segments(parts)[..i] + [Segments(parts)[i]];
      i := i + 1;
    }
    assert Segments(parts)[..i] == Segments(parts);
  }

  /** The lines of one code part, its first line overwritten in place when it
      names a recognised language. */
  method CodeLines(part: string) returns (codeLines: seq<string>)
    ensures codeLines == RewriteFirstLine(Lines(Strip(part)))
  {
    codeLines := Lines(Strip(part));
    if codeLines != [] && TagOf(codeLines[0]) in Tags {
      var language := TagOf(codeLines[0]);
      if language in SlashTags {
        codeLines := codeLines[0 := "// " + codeLines[0]];
      } else if language == "python" {
        codeLines := codeLines[0 := "# " + codeLines[0]];
      } else if language == "html" {
        codeLines := codeLines[0 := "<!-- " + codeLines[0] + " -->"];
      } else if language in BlockTags {
        codeLines := codeLines[0 := "/* " + codeLines[0] + " */"];
      }
    }
  }

  // ---------------------------------------------------------------------------
  // Properties of the rewrite
  // ---------------------------------------------------------------------------

  /** An independent table of the comment syntax each tag is given: the
      opening and closing text put around the line. */
  const CommentSyntax: map<string, (string, string)> := map[
    "cpp" := ("// ", ""), "c++" := ("// ", ""), "java" := ("// ", ""),
    "javascript" := ("// ", ""), "csharp" := ("// ", ""),
    "python" := ("# ", ""),
    "html" := ("<!-- ", " -->"),
    "css" := ("/* ", " */"), "sql" := ("/* ", " */"), "plsql" := ("/* ", " */"),
    "ruby" := ("/* ", " */"), "php" := ("/* ", " */")]

  /** The table has an entry for exactly the twelve tags. */
  lemma TagsAreTableKeys(language: string)
    ensures language in Tags <==> language in CommentSyntax
  {
  }

  /** The four groups of the rewrite cover the twelve tags, and each
      recognised tag is rewritten by the comment syntax of its table entry. */
  lemma TagGroupsCoverTags(line: string, language: string)
    requires language in Tags
    ensures CommentedTagLine(line, language) ==
      CommentSyntax[language].0 + line + CommentSyntax[language].1
  {
  }

  /** Every recognised tag line is changed by the rewrite, and no newline is
      introduced: it stays one line. */
  lemma {:induction false} CommentedTagLineIsOneLine(line: string, language: string)
    requires language in Tags
    requires '\n' !in line
    ensures CommentedTagLine(line, language) != line
    ensures '\n' !in CommentedTagLine(line, language)
  {
    TagsAreTableKeys(language);
    TagGroupsCoverTags(line, language);
    var (open, close) := CommentSyntax[language];
    assert |open| > 0;
    assert '\n' !in open && '\n' !in close;
    var r := open + line + close;
    assert |r| > |line|;
    forall k | 0 <= k < |r| ensures r[k] != '\n' {
      if k < |open| {
        assert r[k] == open[k];
      } else if k < |open| + |line| {
        assert r[k] == line[k - |open|];
      } else {
        assert r[k] == close[k - |open| - |line|];
      }
    }
  }

  /** The lines of an emitted code block are those of the stripped part with
      only line 0 rewritten: the line count and every other line are kept. */
  lemma {:induction false} CodeBlockLines(part: string)
    ensures Lines(CodeBlock(part)) == RewriteFirstLine(Lines(Strip(part)))
  {
    var lines := Lines(Strip(part));
    SplitPartsFree(Strip(part), '\n');
    var r := RewriteFirstLine(lines);
    if TagOf(lines[0]) in Tags {
      CommentedTagLineIsOneLine(lines[0], TagOf(lines[0]));
    }
    forall k | 0 <= k < |r| ensures '\n' !in r[k] {
      if k > 0 {
        assert r[k] == lines[k];
      }
    }
    SplitJoin(r, '\n');
  }

  /** A part whose first line is not a recognised tag is emitted as the part
      with its surrounding whitespace stripped. */
  lemma {:induction false} CodeBlockUnrecognized(part: string)
    requires TagOf(Lines(Strip(part))[0]) !in Tags
    ensures CodeBlock(part) == Strip(part)
  {
    JoinSplit(Strip(part), "\n");
  }

  /** A part whose first line `L` is a recognised tag is emitted as the
      stripped part with `L` replaced by its comment and the rest unchanged;
      so "Python" becomes "# Python". */
  lemma {:induction false} CodeBlockRecognized(part: string)
    requires TagOf(Lines(Strip(part))[0]) in Tags
    ensures var first := Lines(Strip(part))[0];
      |first| <= |Strip(part)| &&
      Strip(part)[..|first|] == first &&
      CodeBlock(part) == CommentedTagLine(first, TagOf(first)) + Strip(part)[|first|..]
  {
    var text := Strip(part);
    var lines := Lines(text);
    JoinSplit(text, "\n");
    JoinReplaceFirst(lines, "\n", CommentedTagLine(lines[0], TagOf(lines[0])));
  }

  /** A response gives one output per part of its split at the fences, one
      more than there are fences: the even parts unchanged as Markdown, the
      odd parts as Code with the default language. Joining the parts with the
      fence gives back the response, and a response without a fence is a
      single prose part. */
  lemma {:induction false} SegmentationRoundTrip(responseText: string)
    ensures var parts, out := Split(responseText, Fence), Segments(Split(responseText, Fence));
      |out| == |parts| == Count(responseText, Fence) + 1 &&
      (forall k :: 0 <= k < |out| && k % 2 == 0 ==> out[k] == Markdown(parts[k])) &&
      (forall k :: 0 <= k < |out| && k % 2 == 1 ==> out[k] == Code(CodeBlock(parts[k]), None)) &&
      Join(parts, Fence) == responseText &&
      (!Contains(responseText, Fence) ==> out == [Markdown(responseText)])
  {
    JoinSplit(responseText, Fence);
    SplitCount(responseText, Fence);
    SplitSingleIff(responseText, Fence);
  }

  /** A response with one fenced block, "before```code```after", where no
      part holds a backtick, splits into exactly those three parts: the prose
      before, the code, and the prose after. */
  lemma {:induction false} SingleBlockSplit(before: string, code: string, after: string)
    requires '`' !in before && '`' !in code && '`' !in after
    ensures Split(before + Fence + code + Fence + after, Fence) == [before, code, after]
  {
    var tail := code + Fence + after;
    assert before + Fence + code + Fence + after == before + Fence + tail;
    SplitAtFirst(before, Fence, tail);
    SplitAtFirst(code, Fence, after);
    SplitNone(after, Fence);
  }

  /** An example: the code part "python\nprint(1)\n" of a response
      is shown with "# python" on its first line. */
  lemma ExampleCodeBlock()
    ensures CodeBlock("python\nprint(1)\n") == "# python\nprint(1)"
  {
    calc {
      CodeBlock("python\nprint(1)\n");
      JoinLines(RewriteFirstLine(Lines(Strip("python\nprint(1)\n"))));
      { ExampleStrip(); }
      JoinLines(RewriteFirstLine(Lines("python\nprint(1)")));
      { ExampleLines(); }
      JoinLines(RewriteFirstLine(["python", "print(1)"]));
      { ExampleTag(); assert CommentedTagLine("python", "python") == "# python"; }
      JoinLines(["# python", "print(1)"]);
      "# python" + "\n" + "print(1)";
      "# python\nprint(1)";
    }
  }

  /** A capitalised tag is recognised and keeps its case in the comment:
      the code part "Python\nx" is shown as "# Python\nx". */
  lemma ExampleCapitalisedTag()
    ensures CodeBlock("Python\nx") == "# Python\nx"
  {
    calc {
      CodeBlock("Python\nx");
      JoinLines(RewriteFirstLine(Lines(Strip("Python\nx"))));
      { StripUnspaced("Python\nx"); }
      JoinLines(RewriteFirstLine(Lines("Python\nx")));
      { ExampleCapitalisedLines(); }
      JoinLines(RewriteFirstLine(["Python", "x"]));
      { ExampleCapitalisedTagOf(); assert CommentedTagLine("Python", "python") == "# Python"; }
      JoinLines(["# Python", "x"]);
      "# Python" + "\n" + "x";
      "# Python\nx";
    }
  }

  lemma ExampleCapitalisedLines()
    ensures Lines("Python\nx") == ["Python", "x"]
  {
    assert "Python\nx" == "Python" + "\n" + "x";
    SplitAtFirst("Python", "\n", "x");
    SplitNone("x", "\n");
  }

  lemma ExampleCapitalisedTagOf()
    ensures TagOf("Python") == "python"
  {
    StripUnspaced("Python");
    LowerSpec("Python");
    assert Lower("Python")[0] == 'p';
  }

  lemma ExampleStrip()
    ensures Strip("python\nprint(1)\n") == "python\nprint(1)"
  {
    var part := "python\nprint(1)\n";
    assert TrimStart(part) == part;
    assert TrimEnd(part) == "python\nprint(1)";
  }

  lemma ExampleLines()
    ensures Lines("python\nprint(1)") == ["python", "print(1)"]
  {
    assert "python\nprint(1)" == "python" + "\n" + "print(1)";
    SplitAtFirst("python", "\n", "print(1)");
    SplitNone("print(1)", "\n");
  }

  lemma ExampleTag()
    ensures TagOf("python") == "python"
  {
    StripUnspaced("python");
    LowerUnchanged("python");
  }
}
