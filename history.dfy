/** `display_chat_history` in main.py: every turn of the transcript is shown as
    "role: text"; a text of more than three lines shows its first three and
    puts the rest behind a "READ MORE" expander, a short text with code fences
    is split at them, and a spacer separates each Bot turn from what follows. */
module History {
  import opened Wrappers
  import opened Strings
  import opened Render

  /** One entry of the transcript: the speaker ("You" or "Bot") and the text. */
  datatype Turn = Turn(role: string, text: string)

  const BotRole: string := "Bot"
  const ReadMoreTitle: string := "READ MORE"

  /** How many lines a turn shows before the rest goes behind the expander. */
  const InlineLines: nat := 3

  /** The outputs of the short-text branch for a text split at its fences:
      prose parts prefixed with the role, code parts stripped and shown with
      the empty language. */
  function FencedOutputs(role: string, blocks: seq<string>): seq<Output>
  {
    seq(|blocks|, j requires 0 <= j < |blocks| =>
      if j % 2 == 0 then Write(role + ": " + blocks[j])
      else Code(JoinLines(Lines(Strip(blocks[j]))), Some("")))
  }

  /** The outputs for one turn, before any spacer. */
  function TurnOutputs(t: Turn): seq<Output>
  {
    var lines := Lines(t.text);
    if |lines| > InlineLines then
      [Write(t.role + ": " + JoinLines(lines[..InlineLines])),
       Expander(ReadMoreTitle, JoinLines(lines[InlineLines..]))]
    else if Contains(t.text, Fence) then
      FencedOutputs(t.role, Split(t.text, Fence))
    else
      [Write(t.role + ": " + t.text)]
  }

  /** A spacer follows entry `i`: a Bot turn that is not the last one. */
  predicate SpacerAfter(history: seq<Turn>, i: nat)
    requires i < |history|
  {
    history[i].role == BotRole && i < |history| - 1
  }

  /** What the first `n` entries of `history` put on the page. */
  function Shown(history: seq<Turn>, n: nat): seq<Output>
    requires n <= |history|
  {
    if n == 0 then []
    else
      var spacer := if SpacerAfter(history, n - 1) then [Spacer] else [];
      Shown(history, n - 1) + TurnOutputs(history[n - 1]) + spacer
  }

  /** The display loop; the short branch has its own loop over the parts. */
  method DisplayChatHistory(chatHistory: seq<Turn>) returns (out: seq<Output>)
    ensures out == Shown(chatHistory, |chatHistory|)
  {
    out := [];
    var i := 0;
    while i < |chatHistory|
      invariant 0 <= i <= |chatHistory|
      invariant out == Shown(chatHistory, i)
    {
      var role, text := chatHistory[i].role, chatHistory[i].text;
      var shown := DisplayTurn(role, text);
      out := out + shown;
      if role == "Bot" && i < |chatHistory| - 1 {
        out := out + [Spacer];
      }
      i := i + 1;
    }
  }

  /** One turn of the display loop, before the spacer. */
  method DisplayTurn(role: string, text: string) returns (out: seq<Output>)
    ensures out == TurnOutputs(Turn(role, text))
  {
    var lines := Lines(text);
    if |lines| > 3 {
      var shortText := JoinLines(lines[..3]);
      var remainingText := JoinLines(lines[3..]);
      out := [Write(role + ": " + shortText)];
      out := out + [Expander(ReadMoreTitle, remainingText)];
    } else if Contains(text, Fence) {
      var codeBlocks := Split(text, Fence);
      out := WriteFencedParts(role, codeBlocks);
    } else {
      out := [Write(role + ": " + text)];
    }
  }

  /** The loop of the short branch over the parts of a fenced text. */
  method WriteFencedParts(role: string, codeBlocks: seq<string>) returns (out: seq<Output>)
    ensures out == FencedOutputs(role, codeBlocks)
  {
    out := [];
    var j := 0;
    while j < |codeBlocks|
      invariant 0 <= j <= |codeBlocks|
      invariant out == FencedOutputs(role, codeBlocks)[..j]
    {
      if j % 2 == 0 {
        out := out + [Write(role + ": " + codeBlocks[j])];
      } else {
        var codeLines := Lines(Strip(codeBlocks[j]));
        out := out + [Code(JoinLines(codeLines), Some(""))];
      }
      assert FencedOutputs(role, codeBlocks)[..j + 1] ==
        FencedOutputs(role, codeBlocks)[..j] + [FencedOutputs(role, codeBlocks)[j]];
      j := j + 1;
    }
    assert FencedOutputs(role, codeBlocks)[..j] == FencedOutputs(role, codeBlocks);
  }

  // ---------------------------------------------------------------------------
  // Truncation
  // ---------------------------------------------------------------------------

  /** For a text of more than three lines the inline head has exactly three
      lines, the hidden tail the remaining `n - 3`, and head, newline and tail
      make up the text. */
  lemma {:induction false} TruncationSplit(text: string)
    requires |Lines(text)| > InlineLines
    ensures var lines := Lines(text);
      var head := JoinLines(lines[..InlineLines]);
      var tail := JoinLines(lines[InlineLines..]);
      Lines(head) == lines[..InlineLines] &&
      Lines(tail) == lines[InlineLines..] &&
      |Lines(tail)| == |lines| - InlineLines &&
      head + "\n" + tail == text
  {
    var lines := Lines(text);
    SplitPartsFree(text, '\n');
    JoinSplit(text, "\n");
    JoinCut(lines, "\n", InlineLines);
    SplitJoin(lines[..InlineLines], '\n');
    SplitJoin(lines[InlineLines..], '\n');
  }

  /** An expander is on the page for a turn exactly when its text has more
      than three lines; so a text of exactly three lines is shown in full. */
  lemma ExpanderIffLong(t: Turn)
    ensures (exists k :: 0 <= k < |TurnOutputs(t)| && TurnOutputs(t)[k].Expander?) <==>
      |Lines(t.text)| > InlineLines
  {
    if |Lines(t.text)| > InlineLines {
      assert TurnOutputs(t)[1].Expander?;
    }
  }

  /** A long turn shows the role and the three-line head, then the expander
      holding the tail (no fence splitting either way). */
  lemma {:induction false} LongTurnOutputs(t: Turn)
    requires |Lines(t.text)| > InlineLines
    ensures exists head, tail ::
      |Lines(head)| == InlineLines && head + "\n" + tail == t.text &&
      TurnOutputs(t) == [Write(t.role + ": " + head), Expander(ReadMoreTitle, tail)]
  {
    TruncationSplit(t.text);
    var lines := Lines(t.text);
    var head := JoinLines(lines[..InlineLines]);
    var tail := JoinLines(lines[InlineLines..]);
    assert |Lines(head)| == InlineLines && head + "\n" + tail == t.text;
    assert TurnOutputs(t) == [Write(t.role + ": " + head), Expander(ReadMoreTitle, tail)];
  }

  // ---------------------------------------------------------------------------
  // The short branch
  // ---------------------------------------------------------------------------

  /** A short turn with fences gives one output per part: the even parts
      written after the role, the odd parts as stripped code with the empty
      language and no tag rewrite. */
  lemma {:induction false} ShortFencedTurn(t: Turn)
    requires |Lines(t.text)| <= InlineLines && Contains(t.text, Fence)
    ensures var parts := Split(t.text, Fence);
      |TurnOutputs(t)| == |parts| >= 2 &&
      (forall k :: 0 <= k < |parts| && k % 2 == 0 ==>
        TurnOutputs(t)[k] == Write(t.role + ": " + parts[k])) &&
      (forall k :: 0 <= k < |parts| && k % 2 == 1 ==>
        TurnOutputs(t)[k] == Code(Strip(parts[k]), Some("")))
  {
    var parts := Split(t.text, Fence);
    SplitSingleIff(t.text, Fence);
    forall k | 0 <= k < |parts| && k % 2 == 1
      ensures TurnOutputs(t)[k] == Code(Strip(parts[k]), Some(""))
    {
      JoinSplit(Strip(parts[k]), "\n");
    }
  }

  /** A short turn without fences is one write of "role: text"; splitting it at
      the (absent) fences would give the same output, so the `in` check only
      short-cuts the split. */
  lemma {:induction false} ShortPlainTurn(t: Turn)
    requires |Lines(t.text)| <= InlineLines && !Contains(t.text, Fence)
    ensures TurnOutputs(t) == [Write(t.role + ": " + t.text)]
    ensures FencedOutputs(t.role, Split(t.text, Fence)) == TurnOutputs(t)
  {
    SplitSingleIff(t.text, Fence);
    JoinSplit(t.text, Fence);
  }

  // ---------------------------------------------------------------------------
  // Spacers
  // ---------------------------------------------------------------------------

  function CountSpacers(outs: seq<Output>): nat
  {
    if outs == [] then 0
    else CountSpacers(outs[..|outs| - 1]) + (if outs[|outs| - 1] == Spacer then 1 else 0)
  }

  /** The number of Bot turns in `turns`. */
  function CountBots(turns: seq<Turn>): nat
  {
    if turns == [] then 0
    else CountBots(turns[..|turns| - 1]) + (if turns[|turns| - 1].role == BotRole then 1 else 0)
  }

  lemma {:induction false} CountSpacersAppend(a: seq<Output>, b: seq<Output>)
    ensures CountSpacers(a + b) == CountSpacers(a) + CountSpacers(b)
    decreases |b|
  {
    if b == [] {
      assert a + b == a;
    } else {
      CountSpacersAppend(a, b[..|b| - 1]);
      assert (a + b)[..|a + b| - 1] == a + b[..|b| - 1];
    }
  }

  /** A turn's own outputs are never spacers. */
  lemma {:induction false} TurnHasNoSpacer(t: Turn)
    ensures TurnOutputs(t) != []
    ensures forall k :: 0 <= k < |TurnOutputs(t)| ==> TurnOutputs(t)[k] != Spacer
    ensures CountSpacers(TurnOutputs(t)) == 0
  {
    var outs := TurnOutputs(t);
    SpacerFree(outs);
  }

  lemma {:induction false} SpacerFree(outs: seq<Output>)
    requires forall k :: 0 <= k < |outs| ==> outs[k] != Spacer
    ensures CountSpacers(outs) == 0
    decreases |outs|
  {
    if outs != [] {
      SpacerFree(outs[..|outs| - 1]);
    }
  }

  /** The output of entry `i` ends with a spacer exactly when entry `i` is a
      Bot turn other than the last. */
  lemma {:induction false} SpacerAfterEntry(history: seq<Turn>, i: nat)
    requires i < |history|
    ensures var shown := Shown(history, i + 1);
      shown[|shown| - 1] == Spacer <==> (history[i].role == BotRole && i < |history| - 1)
  {
    TurnHasNoSpacer(history[i]);
  }

  /** The page holds one spacer per Bot turn, not counting a Bot turn that
      ends the transcript. */
  lemma {:induction false} SpacerCount(history: seq<Turn>)
    requires history != []
    ensures CountSpacers(Shown(history, |history|)) == CountBots(history[..|history| - 1])
  {
    var n := |history|;
    SpacersUpTo(history, n - 1);
    TurnHasNoSpacer(history[n - 1]);
    CountSpacersAppend(Shown(history, n - 1), TurnOutputs(history[n - 1]));
    assert !SpacerAfter(history, n - 1);
    assert Shown(history, n) == Shown(history, n - 1) + TurnOutputs(history[n - 1]);
  }

  lemma {:induction false} SpacersUpTo(history: seq<Turn>, n: nat)
    requires n < |history|
    ensures CountSpacers(Shown(history, n)) == CountBots(history[..n])
    decreases n
  {
    if n > 0 {
      SpacersUpTo(history, n - 1);
      var prev := Shown(history, n - 1);
      var t := history[n - 1];
      var spacer := if SpacerAfter(history, n - 1) then [Spacer] else [];
      var bot := if t.role == BotRole then 1 else 0;
      assert Shown(history, n) == prev + TurnOutputs(t) + spacer;
      TurnHasNoSpacer(t);
      CountSpacersAppend(prev, TurnOutputs(t));
      CountSpacersAppend(prev + TurnOutputs(t), spacer);
      assert CountSpacers(spacer) == bot;
      assert history[..n][..n - 1] == history[..n - 1];
      assert CountBots(history[..n]) == CountBots(history[..n - 1]) + bot;
    }
  }
}
