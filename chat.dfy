/** `handle_input` in main.py: a non-empty input is sent to the model, the
    user's turn is appended, the streamed reply is accumulated chunk by chunk
    and appended as the Bot's turn, and the input box is cleared. Any
    exception ends the handler where it was raised. */
module Chat {
  import opened Wrappers
  import opened History

  const UserRole: string := "You"

  /** What the model call produces. `SendFailed`: `send_message` raised. A
      `Stream` lists the chunks in order; `None` is a chunk whose `.text`
      raises. */
  datatype Reply = SendFailed | Stream(chunks: seq<Option<string>>)

  /** The part of the session the handler reads and writes. */
  datatype State = State(history: seq<Turn>, input: string)

  /** The text accumulated from `chunks` by `response_text += chunk.text`, or
      None when some chunk has no text. */
  function Accumulate(chunks: seq<Option<string>>): Option<string>
  {
    if chunks == [] then Some("")
    else
      match Accumulate(chunks[..|chunks| - 1])
      case None => None
      case Some(text) =>
        match chunks[|chunks| - 1]
        case None => None
        case Some(piece) => Some(text + piece)
  }

  /** The state after one run of the handler. */
  function Step(s: State, reply: Reply): State
  {
    if s.input == "" then s
    else
      match reply
      case SendFailed => s
      case Stream(chunks) =>
        match Accumulate(chunks)
        case None => State(s.history + [Turn(UserRole, s.input)], s.input)
        case Some(text) => State(s.history + [Turn(UserRole, s.input), Turn(BotRole, text)], "")
  }

  /** The session: the transcript and the input box. */
  class Session {
    var history: seq<Turn>
    var input: string

    constructor ()
      ensures history == [] && input == ""
    {
      history := [];
      input := "";
    }

    /** The handler, with its loop over the streamed chunks. */
    method HandleInput(reply: Reply)
      modifies this
      ensures State(history, input) == Step(old(State(history, input)), reply)
    {
      if input != "" {
        match reply {
          case SendFailed =>
            // send_message raised: nothing has been appended yet
          case Stream(chunks) =>
            history := history + [Turn(UserRole, input)];
            var responseText := "";
            var i := 0;
            while i < |chunks|
              invariant 0 <= i <= |chunks|
              invariant history == old(history) + [Turn(UserRole, old(input))]
              invariant input == old(input)
              invariant Accumulate(chunks[..i]) == Some(responseText)
            {
              assert chunks[..i + 1][..i] == chunks[..i];
              match chunks[i] {
                case None =>
                  // chunk.text raised: the Bot turn is never appended
                  AccumulateFailsIff(chunks);
                  AccumulateFailsIff(chunks[..i + 1]);
                  assert chunks[..i + 1][i] == chunks[i];
                  return;
                case Some(piece) =>
                  responseText := responseText + piece;
              }
              i := i + 1;
            }
            assert chunks[..i] == chunks;
            history := history + [Turn(BotRole, responseText)];
            input := "";
        }
      }
    }
  }

  // ---------------------------------------------------------------------------
  // The accumulated text
  // ---------------------------------------------------------------------------

  /** The in-order concatenation of the texts of chunks that all have one. */
  function Texts(chunks: seq<Option<string>>): string
    requires forall k :: 0 <= k < |chunks| ==> chunks[k].Some?
  {
    if chunks == [] then "" else chunks[0].value + Texts(chunks[1..])
  }

  /** Accumulation fails exactly when some chunk has no text: bad chunks are
      not skipped. */
  lemma {:induction false} AccumulateFailsIff(chunks: seq<Option<string>>)
    ensures Accumulate(chunks) == None <==> exists k :: 0 <= k < |chunks| && chunks[k] == None
    decreases |chunks|
  {
    if chunks != [] {
      var init := chunks[..|chunks| - 1];
      AccumulateFailsIff(init);
      if exists k :: 0 <= k < |init| && init[k] == None {
        var k :| 0 <= k < |init| && init[k] == None;
        assert chunks[k] == None;
      }
      if exists k :: 0 <= k < |chunks| && chunks[k] == None {
        var k :| 0 <= k < |chunks| && chunks[k] == None;
        if k < |init| {
          assert init[k] == None;
        }
      }
    }
  }

  lemma {:induction false} TextsSnoc(chunks: seq<Option<string>>)
    requires chunks != []
    requires forall k :: 0 <= k < |chunks| ==> chunks[k].Some?
    ensures Texts(chunks) == Texts(chunks[..|chunks| - 1]) + chunks[|chunks| - 1].value
    decreases |chunks|
  {
    if |chunks| > 1 {
      TextsSnoc(chunks[1..]);
      assert chunks[1..][..|chunks| - 2] == chunks[..|chunks| - 1][1..];
    }
  }

  /** When every chunk has text, the accumulated text is their in-order
      concatenation. */
  lemma {:induction false} AccumulateAllTexts(chunks: seq<Option<string>>)
    requires forall k :: 0 <= k < |chunks| ==> chunks[k].Some?
    ensures Accumulate(chunks) == Some(Texts(chunks))
    decreases |chunks|
  {
    if chunks != [] {
      AccumulateAllTexts(chunks[..|chunks| - 1]);
      TextsSnoc(chunks);
    }
  }

  // ---------------------------------------------------------------------------
  // The transition
  // ---------------------------------------------------------------------------

  /** An empty input changes nothing and no model call happens. */
  lemma EmptyInputNoOp(s: State, reply: Reply)
    requires s.input == ""
    ensures Step(s, reply) == s
  {
  }

  /** A failing `send_message` leaves the history and the input unchanged. */
  lemma SendFailureNoOp(s: State)
    ensures Step(s, SendFailed) == s
  {
  }

  /** On success exactly ("You", input) and ("Bot", the chunk texts in order)
      are appended and the input is cleared. */
  lemma {:induction false} StepSuccess(s: State, chunks: seq<Option<string>>)
    requires s.input != ""
    requires forall k :: 0 <= k < |chunks| ==> chunks[k].Some?
    ensures Step(s, Stream(chunks)) ==
      State(s.history + [Turn(UserRole, s.input), Turn(BotRole, Texts(chunks))], "")
  {
    AccumulateAllTexts(chunks);
  }

  /** A chunk without text leaves the lone user turn at the end of the history
      and the input not cleared. */
  lemma {:induction false} StepChunkFailure(s: State, chunks: seq<Option<string>>, k: nat)
    requires s.input != ""
    requires k < |chunks| && chunks[k] == None
    ensures Step(s, Stream(chunks)) == State(s.history + [Turn(UserRole, s.input)], s.input)
  {
    AccumulateFailsIff(chunks);
  }

  /** The history only grows, by at most two turns: earlier turns are never
      changed or removed. */
  lemma AppendOnly(s: State, reply: Reply)
    ensures |s.history| <= |Step(s, reply).history| <= |s.history| + 2
    ensures Step(s, reply).history[..|s.history|] == s.history
  {
  }

  // ---------------------------------------------------------------------------
  // Many cycles
  // ---------------------------------------------------------------------------

  /** Turns alternate "You", "Bot", "You", ... from the start. */
  predicate Alternating(history: seq<Turn>)
  {
    forall k :: 0 <= k < |history| ==> history[k].role == (if k % 2 == 0 then UserRole else BotRole)
  }

  /** A cycle whose input is non-empty and whose reply streams text only. */
  predicate Succeeds(event: (string, Reply))
  {
    event.0 != "" && event.1.Stream? &&
    forall k :: 0 <= k < |event.1.chunks| ==> event.1.chunks[k].Some?
  }

  /** The session after each event's input is typed and handled in turn. */
  function Run(s: State, events: seq<(string, Reply)>): State
    decreases |events|
  {
    if events == [] then s
    else Run(Step(State(s.history, events[0].0), events[0].1), events[1..])
  }

  /** After N successful cycles the history has grown by exactly 2N turns and
      still alternates You, Bot, You, Bot, ... */
  lemma {:induction false} RunAlternates(s: State, events: seq<(string, Reply)>)
    requires Alternating(s.history) && |s.history| % 2 == 0
    requires forall e :: e in events ==> Succeeds(e)
    ensures |Run(s, events).history| == |s.history| + 2 * |events|
    ensures Alternating(Run(s, events).history)
    decreases |events|
  {
    if events != [] {
      var (typed, reply) := events[0];
      assert Succeeds(events[0]);
      var start := State(s.history, typed);
      StepSuccess(start, reply.chunks);
      var next := Step(start, reply);
      assert next.history == s.history + [Turn(UserRole, typed), Turn(BotRole, Texts(reply.chunks))];
      assert Alternating(next.history);
      forall e | e in events[1..] ensures Succeeds(e) {
        assert e in events;
      }
      RunAlternates(next, events[1..]);
    }
  }

  /** Because a chunk without text leaves the input in place and the user's
      turn recorded, handling the same input again records it twice when the
      retried send succeeds: the transcript is then You, You, Bot and no
      longer alternates. (A retried send that fails appends nothing.) */
  lemma RetryAfterChunkFailure()
    ensures var events := [("hi", Stream([None])), ("hi", Stream([Some("ok")]))];
      Run(State([], ""), events).history ==
        [Turn(UserRole, "hi"), Turn(UserRole, "hi"), Turn(BotRole, "ok")] &&
      !Alternating(Run(State([], ""), events).history)
  {
    var events := [("hi", Stream([None])), ("hi", Stream([Some("ok")]))];
    StepChunkFailure(State([], "hi"), [None], 0);
    var first := Step(State([], "hi"), Stream([None]));
    assert first == State([Turn(UserRole, "hi")], "hi");
    StepSuccess(State(first.history, "hi"), [Some("ok")]);
    assert Texts([Some("ok")]) == "ok";
    var second := Step(State(first.history, "hi"), Stream([Some("ok")]));
    assert second.history == [Turn(UserRole, "hi"), Turn(UserRole, "hi"), Turn(BotRole, "ok")];
    assert events[1..] == [("hi", Stream([Some("ok")]))];
    assert Run(first, events[1..]) == Run(second, []);
    assert second.history[1].role != BotRole;
  }
}
