# techbire-AI chat page: fence rendering, history display and transcript update

`main.py` is a single Streamlit page that forwards what the user types to a
hosted language model and shows the conversation. Three parts of it do real
string and list work, and this project models those three and proves what
they do:

- **Fence rendering** (`display_formatted_response`). A response is split at
  the triple-backtick fence. Even parts are prose and go out as Markdown. Odd
  parts are code: each is stripped and cut into lines. If the first line,
  trimmed and lower-cased, names one of twelve languages, it is turned into a
  comment of that language (`// L`, `# L`, `<!-- L -->` or `/* L */`, with `L`
  in its original case).
- **History display** (`display_chat_history`). Each turn is written as
  `role: text`. A text of more than three lines shows its first three lines
  and puts the rest in a "READ MORE" expander. A shorter text with fences is
  split at them, with no language rewrite. A spacer follows every Bot turn
  except the last.
- **Transcript update** (`handle_input`). An empty input does nothing.
  Otherwise the user's turn ("You", input) is appended, the streamed chunks
  are concatenated in order, the Bot's turn is appended and the input box is
  cleared. An exception stops the handler where it was raised.

Every widget call becomes an output event of `Render.Output`: `Markdown`,
`Code(body, language)`, `Write`, `Expander(title, body)` and `Spacer`. The
model call becomes a `Chat.Reply`. `SendFailed` means `send_message` raised.
`Stream(chunks)` is the sequence of chunks, where `None` is a chunk whose
`.text` raises.

Files:

- `wrappers.dfy`: `Option`.
- `strings.dfy`: Python's `split`, `join`, `in`, `strip` and `lower`.
  Joining the parts of a split gives back the text for every non-empty
  separator. The reverse, splitting a join, is proved only for a
  one-character separator and parts that do not contain it, which covers the
  newline but not the fence. `Strings.Count` counts non-overlapping
  occurrences; `main.py` never calls `str.count`, and `Count` is only the
  reference the number of parts is stated against.
- `render.dfy`: `display_formatted_response` as a method with a loop. The
  functions it is proved against come with lemmas about the tag rewrite.
- `history.dfy`: `display_chat_history` as a loop over the turns, with one
  turn's outputs and the inner loop over fenced parts in methods of their
  own. It is proved against `History.Shown`, with lemmas on truncation,
  the short branch and spacers.
- `chat.dfy`: the session as a class whose `HandleInput` method loops over
  the chunks. It is proved against the transition function `Chat.Step`,
  which has its own lemmas.

Behaviour of `main.py` a reader might not expect:

- A chunk without text aborts accumulation; it is not skipped. The user's
  turn stays recorded, no Bot turn is added and the input is not cleared
  (`Chat.StepChunkFailure`). Handling the same input again records it twice
  when the retried send succeeds (`Chat.RetryAfterChunkFailure`); a retried
  send that fails appends nothing (`Chat.SendFailureNoOp`).
- A failing `send_message` happens before anything is appended, so the
  history is left unchanged, with no unanswered user turn.
- The recognised language is not passed to `st.code`: the rewritten block is
  shown with the framework's default language (`Code(body, None)`).
- The history display does not run the fence renderer. Long texts are not
  split at fences, and fenced parts of short texts get no rewrite.
- Code parts are stripped, so joining the fenced parts back does not give the
  original text. Only the raw split is lossless (`Strings.JoinSplit`).

## Model

| member | source | states |
|---|---|---|
| Strings.Split | main.py:64 | `str.split` on a non-empty separator gives at least one part |
| Strings.Join | main.py:82 | `sep.join(parts)`: the parts with the separator between consecutive ones, also used for `lines[:3]` and `lines[3:]` at main.py:89-90 |
| Strings.JoinSplit | main.py:64 | joining the parts of a split with the separator gives back the text |
| Strings.SplitCount | main.py:64 | the number of parts is the number of separator occurrences plus one |
| Strings.SplitSingleIff | main.py:95-96 | a split has a single part exactly when the separator does not occur (`in` versus `split`) |
| Strings.Contains | main.py:95 | `sep in s`: the separator occurs at some position of the text |
| Strings.SplitPartsFree | main.py:71 | no line of a split on a newline contains a newline |
| Strings.SplitAtFirst | main.py:64 | a text `p + sep + rest`, where `p` has no character that starts `sep`, is cut right after `p` |
| Strings.SplitNone | main.py:64 | a text with no character that starts the separator splits into itself |
| Strings.SplitJoin | main.py:71 | splitting the newline-join of newline-free lines gives the lines back |
| Strings.JoinCut | main.py:89-90 | joining all lines is joining the first `n`, a separator, and the rest |
| Strings.JoinReplaceFirst | main.py:75-82 | replacing line 0 before the join replaces exactly the text before the first newline |
| Strings.Lines | main.py:87 | `text.split('\n')` has at least one line |
| Strings.Strip | main.py:71 | `str.strip()` as `rstrip` after `lstrip`, also at main.py:72-73 and main.py:101; its meaning is `Strings.StripSpec` |
| Strings.TrimStartSpec | main.py:71 | `lstrip` drops exactly the leading spaces: the rest is the suffix after them and does not start with a space |
| Strings.TrimEndSpec | main.py:71 | `rstrip` drops exactly the trailing spaces: the rest is a prefix, only spaces follow it, and it does not end with a space |
| Strings.StripSpec | main.py:71-72 | `strip` keeps the slice that starts after the leading spaces; only spaces lie outside it, and none at either end |
| Strings.StripUnspaced | main.py:72 | a text with no space at either end is its own strip |
| Strings.Lower | main.py:72 | `lower` keeps the length; what each character becomes is `Strings.LowerSpec` |
| Strings.LowerSpec | main.py:72 | `lower` maps each of `A` to `Z` to `a` to `z` and keeps every other character, at every index |
| Strings.LowerUnchanged | main.py:72 | a text with no upper-case letter is its own lower case |
| Render.RewriteFirstLine | main.py:71-81 | the line count is kept, every line but line 0 is kept, and an unrecognised line 0 leaves all lines unchanged |
| Render.TagOf | main.py:72-73 | the tag a code line names: the line stripped and lower-cased |
| Render.CommentedTagLine | main.py:74-81 | the if/elif chain that turns a recognised line into `// L`, `# L`, `<!-- L -->` or `/* L */` |
| Render.CodeBlock | main.py:71-82 | the body shown for one code part: its stripped lines, line 0 rewritten, joined with newlines |
| Render.Segments | main.py:65-82 | one output per part in order: even parts Markdown, odd parts Code of `Render.CodeBlock` with the default language |
| Render.DisplayFormattedResponse | main.py:63-82 | the outputs are `Render.Segments` of the fence split: one per part, in order (their shape is `Render.SegmentationRoundTrip`) |
| Render.CodeLines | main.py:71-81 | the code lines are the stripped part's lines with line 0 overwritten by `Render.RewriteFirstLine` |
| Render.TagsAreTableKeys | main.py:72 | the recognised tags are exactly the keys of an independent per-tag comment table |
| Render.TagGroupsCoverTags | main.py:74-81 | every recognised tag falls in one of the four comment groups and gets the comment syntax of its table entry |
| Render.CommentedTagLineIsOneLine | main.py:74-81 | every recognised tag line is changed by the rewrite and stays a single line |
| Render.CodeBlockLines | main.py:71-82 | the lines of the emitted block are the stripped part's lines with only line 0 rewritten |
| Render.CodeBlockUnrecognized | main.py:71-72 | with an unrecognised first line the block is the part with surrounding whitespace stripped |
| Render.CodeBlockRecognized | main.py:72-82 | with a recognised first line `L` the block is the comment of `L` followed by the rest of the stripped part unchanged |
| Render.SegmentationRoundTrip | main.py:64-82 | one output per part, fences plus one; even parts are Markdown of the part unchanged, odd parts Code of the rewritten block with the default language; the parts join back to the response, and a response with no fence is one prose part |
| Render.SingleBlockSplit | main.py:64 | a response `before```code```after` with no other backtick splits into exactly the prose before, the code and the prose after |
| Render.ExampleCodeBlock | main.py:71-82 | the code part "python\nprint(1)\n" is shown as "# python\nprint(1)" |
| Render.ExampleCapitalisedTag | main.py:71-82 | the code part "Python\nx" is recognised and shown as "# Python\nx", the line keeping its case |
| History.DisplayChatHistory | main.py:85-108 | the outputs are those of every turn in order, each followed by a spacer exactly when `History.SpacerAfter` holds |
| History.Shown | main.py:86-108 | the outputs of the first `n` entries: each turn's outputs in order, then a spacer after a Bot turn that is not the last |
| History.TurnOutputs | main.py:87-104 | one turn: head and READ MORE expander for more than three lines, else the fenced parts when the text has a fence, else `role: text` |
| History.FencedOutputs | main.py:96-102 | the short fenced branch: even parts `role: part`, odd parts the stripped part with the empty language |
| History.DisplayTurn | main.py:87-104 | the outputs for one turn are `History.TurnOutputs` of it |
| History.WriteFencedParts | main.py:96-102 | the outputs of the loop over the fenced parts are `History.FencedOutputs` of them |
| History.TruncationSplit | main.py:87-90 | for more than three lines the head has exactly three lines and the tail the other `n - 3`, and head, newline and tail make up the text |
| History.ExpanderIffLong | main.py:88-94 | a turn gets an expander exactly when its text has more than three lines, so a three-line text gets none |
| History.LongTurnOutputs | main.py:88-93 | a long turn is `role: head` for a three-line head, then the expander holding the tail |
| History.ShortFencedTurn | main.py:95-102 | a short fenced turn gives one output per part: even parts as `role: part`, odd parts as the stripped part with the empty language and no rewrite |
| History.ShortPlainTurn | main.py:95-104 | a short turn without fences is one `role: text`, the same output a split would give |
| History.TurnHasNoSpacer | main.py:86-104 | a turn's own outputs are non-empty and contain no spacer |
| History.SpacerAfterEntry | main.py:107-108 | entry `i`'s outputs end in a spacer exactly when it is a Bot turn and `i < len - 1` |
| History.SpacerCount | main.py:106-108 | the number of spacers is the number of Bot turns, not counting a final one |
| Chat.Session.constructor | main.py:32-33 | a session starts with an empty history and an empty input |
| Chat.Session.HandleInput | main.py:41-56 | the new history and input are `Chat.Step` of the old ones and the reply |
| Chat.Step | main.py:41-56 | the handler as a transition: empty input or failing send leaves the state; a chunk failure appends only the user turn; success appends both turns and clears the input |
| Chat.Accumulate | main.py:49-51 | `response_text += chunk.text` over the chunks in order, or no text when a chunk has none |
| Chat.AccumulateFailsIff | main.py:49-51 | accumulation fails exactly when some chunk has no text |
| Chat.AccumulateAllTexts | main.py:49-51 | when every chunk has text, the result is their concatenation in order |
| Chat.EmptyInputNoOp | main.py:42 | an empty input changes neither history nor input |
| Chat.SendFailureNoOp | main.py:45 | a failing `send_message` changes neither history nor input |
| Chat.StepSuccess | main.py:45-53 | on success exactly ("You", input) and ("Bot", the chunk texts in order) are appended and the input becomes "" |
| Chat.StepChunkFailure | main.py:48-56 | a chunk without text leaves the history with the lone ("You", input) turn appended and the input not cleared |
| Chat.AppendOnly | main.py:48-52 | earlier turns are never changed or removed, and the history grows by at most two turns |
| Chat.RunAlternates | main.py:41-53 | after N successful cycles the history has grown by exactly 2N turns and still alternates You, Bot |
| Chat.RetryAfterChunkFailure | main.py:48-56 | a chunk failure followed by a retry of the same input gives You, You, Bot, which does not alternate |

## Left out

- Rendering: the Streamlit calls themselves (`st.markdown`, `st.code`, `st.write`, `st.expander`) are output events, not rendering. The page layout, `st.set_page_config`, the text box and the button are left out.
- Widget wiring: `on_change` / `on_click` and the session-state store are left out. `Chat.Session.HandleInput` is called directly, and `Chat.Run` stands for typing an input and then handling it.
- Startup: loading the environment and `.env`, the missing-key `ValueError`, `genai.configure`, building the model and `start_chat` (main.py:16-38) are startup I/O and foreign SDK calls. The chat context is not modelled, and the reply is a parameter.
- Streaming: the stream is a finite sequence given in advance. An exception raised by the iteration itself, not by `.text`, is modelled like a chunk without text.
- Logging and error banners: `logging.error` and the error `st.write` calls (main.py:28-29, 37-38, 55-56) are left out. Only their effect on the history and the input is modelled.
- Strings.Strip: strips only the ASCII characters Python's `str.isspace` accepts (tab, line feed, vertical tab, form feed, carriage return, code points 28 to 31, space), not Unicode spaces such as U+00A0. A tag line that ends in such a space is recognised by the page but not by the model.
- Strings.Lower: lower-cases only ASCII `A` to `Z` and leaves every other character as it is. Python's full lower-casing maps a few non-ASCII letters to ASCII ones (the Kelvin sign becomes `k`), but none of them gives a letter of the twelve tags.
- Top-level calls: the call of `display_chat_history` at main.py:110-112 and the commented-out block at main.py:114-117 are UI wiring. `display_formatted_response` is never called in main.py, but it is modelled all the same.
