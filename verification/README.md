# IT helpdesk chat client — Dafny model

This project models the protocol core of a small front end for a locally hosted Ollama
chat server (`/api/chat`). There are two front ends: a Streamlit web page (`app.py`) and
a terminal loop (`chat_client.py`). Both post the whole conversation history and read
the reply as newline-delimited JSON records of the form
`{"message": {"content": ...}, "done": ...}`. They skip blank lines and append every
non-empty fragment to a growing answer. They stop after the first record whose `done`
is set. The web page's generator `stream_ollama` yields every intermediate answer. The
terminal's `ollama_chat` returns only the final one, and it also has a non-streaming
mode that returns one record's content.

The model is purely functional:

- `Wire`: the data that crosses the network. `Message`, `Request`, `Line`
  (`Blank | Malformed(error) | Frame(content, done)`) and `Response`
  (`HttpFailure(error) | Body(lines)`).
- `Frames`: the reference meaning of a body, stated without any loop. It says how many
  lines are read (`ReadCount`), which fragments count (`Chunks`), the finished answer
  (`FinalAnswer`) and whether reading ends on a parse error (`FailsOn`).
- `StreamDecoder`: `stream_ollama` as a recursive function returning the yielded
  snapshots and an outcome (`Ended | ProtocolError | TransportError`).
- `ChatClient`: `ollama_chat` in both modes, returning `Result<string, ChatError>`.
- `WebSession`: the web page's turn handling (append the user message, stream, store
  the last snapshot or an error message) and "Clear chat".
- `Commands`: the terminal's input handling: `str.strip()`, case-insensitive
  `/quit`, `/exit` and `/reset`, and ignored blank input. Stripping is stated for any
  set of characters, as Python's `str.strip(chars)`; `str.strip()` is that with the
  set `Whitespace` of the characters `str.isspace()` accepts.
- `Terminal`: the terminal main loop as a state machine over the history.
- `Agreement`: the two front ends compared on the same reply.

The server is a parameter. Every turn takes the `Response` the server would give. The
functions return the `Request` they post, so properties about the payload can be stated.

Two behaviours of the source worth noting:

- On an error, the web page stores `"Error talking to Ollama: " + error`. This
  *replaces* any partial answer already shown; it is not appended to it
  (app.py:73-75).
- The terminal loop has no exception handler. A failed call ends the program after
  the user message was appended but before any reply. So the terminal's history is not
  always made of complete turns (chat_client.py:58-61).

## Model

| member | source | states |
|---|---|---|
| Frames.ReadCount | app.py:47-56 | the loop reads exactly up to and including the first line that fails to parse or has `done` set, or the whole body when no line does; no earlier line stops it |
| StreamDecoder.DecodeFrom | app.py:46-56 | every yielded snapshot strictly extends the accumulator it started from, each snapshot is a proper prefix of the next, the generator never yields more snapshots than there are lines, and it ends normally or with a protocol error |
| StreamDecoder.StreamOllama | app.py:37-56 | a failed HTTP call raises before any line is read and yields nothing; otherwise the snapshots are the reference accumulations of the non-empty fragments read and the outcome is a protocol error exactly when reading stops on a malformed line |
| StreamDecoder.DecodeMatchesReference | app.py:46-56 | the generator yields, for the i-th non-empty fragment read, the accumulator followed by the first i+1 fragments, and ends with the reference outcome |
| StreamDecoder.LastSnapshotIsAnswer | app.py:46-56 | one snapshot per non-empty fragment read; the last snapshot equals the joined fragments up to and including the first done record, and when no fragment is read nothing is yielded and the answer is "" |
| StreamDecoder.SilentLineIgnored | app.py:47-52 | a blank line, or a record whose `message`/`content` is missing or empty and that is not done, can be removed anywhere without changing the snapshots or the outcome |
| StreamDecoder.IgnoresAfterStop | app.py:50-56 | once the body holds a done record or a malformed line, appending any further lines changes nothing |
| StreamDecoder.EmptyDoneKeepsText | app.py:51-56 | a done record with no content ends the stream normally and keeps every snapshot yielded before it |
| StreamDecoder.BlankSeparatedExample | app.py:47-56 | blank lines around records with "A" and then "B" (done) yield "A" then "AB" |
| StreamDecoder.MalformedAfterTwoFragmentsExample | app.py:50-54 | a malformed line after "Hi" and " there" raises a protocol error after "Hi" and "Hi there" were yielded; the later record is never read |
| ChatClient.CollectMatchesReference | chat_client.py:28-40 | the streaming loop returns the accumulator followed by the joined non-empty fragments up to and including the first done record, or raises the parse error of the line it stops on |
| ChatClient.Collect | chat_client.py:28-40 | the streaming branch returns the final answer of the body, or the protocol error when reading stops on a malformed line |
| ChatClient.OllamaChat | chat_client.py:14-40 | an HTTP failure raises before decoding; the streaming branch returns the final answer or the protocol error; the non-streaming branch reads the whole body as one record |
| ChatClient.NonStreamingReturnsContent | chat_client.py:24-26 | without streaming, a body holding one record returns its `message.content` verbatim, even when empty and whatever its `done` flag; a record without content raises instead of defaulting to "" |
| ChatClient.NonStreamingHelloExample | chat_client.py:24-26 | the non-streaming reply `{"message": {"content": "hello"}}` returns exactly "hello" |
| ChatClient.NonBlank | chat_client.py:24-25 | the records of a body are exactly its non-blank lines (every record is a line of the body, and every non-blank line is a record), never more than the lines; there are none exactly when every line is blank |
| ChatClient.NonBlankAppend | chat_client.py:24-25 | the records of two pieces of a body are the records of the first piece followed by those of the second, so records keep the order of their lines |
| ChatClient.NonBlankPadded | chat_client.py:24-25 | a single record surrounded by blank lines is the body's one and only record |
| ChatClient.ReadWhole | chat_client.py:24-26 | an empty or all-blank body is not a JSON document and raises |
| ChatClient.SeveralRecordsInvalid | chat_client.py:24-25 | a body with two or more records is not one JSON document and raises, whatever the records |
| ChatClient.NonStreamingMalformed | chat_client.py:24-25 | a non-streaming body whose one record does not parse raises that parse error |
| WebSession.TurnAnswer | app.py:66-75 | the stored answer is the final answer of the body ("" when nothing was yielded); on an HTTP or parse failure it is "Error talking to Ollama: " followed by the error, whatever partial text came before |
| WebSession.WebStep | app.py:59-77 | "Clear chat" empties the history; an empty input changes nothing and sends nothing; a message posts the history with the user message appended (never the reply) and adds exactly the user message and the stored answer; a paired history stays paired |
| WebSession.WebRun | app.py:59-77 | over any series of reruns that run to completion, a history of complete turns stays one |
| WebSession.WebRunShape | app.py:23-24 | over any series of events whose reruns run to completion, the history stays paired and its length is twice the number of turns since the last clear (plus the starting history when never cleared), even when turns failed |
| WebSession.FreshSessionShape | app.py:27-30 | a new session, which starts empty, holds exactly two messages per turn since the last clear, user then assistant |
| WebSession.ClearThenTurn | app.py:23-24 | clearing and then sending a message leaves exactly that one turn, and its request carries only that message |
| Commands.LeadingRunIn | chat_client.py:48 | every character `strip` removes from the front is one of the characters being stripped |
| Commands.LeadingRunUnique | chat_client.py:48 | the front run `strip` removes is the only length whose characters are all stripped and that stops at a character that is not |
| Commands.TrailingRunIn | chat_client.py:48 | every character `strip` removes from the end is one of the characters being stripped |
| Commands.TrailingRunUnique | chat_client.py:48 | the end run `strip` removes is the only length whose characters are all stripped and that is preceded by a character that is not |
| Commands.StripChars | chat_client.py:48 | the stripped text is empty exactly when the input consists of stripped characters only, and otherwise starts and ends with a character that is not stripped; it is never longer than the input |
| Commands.StripIsMiddle | chat_client.py:48 | when the input does not consist of stripped characters only, the two runs do not meet and the stripped text is exactly the input between them |
| Commands.StripPadded | chat_client.py:48 | stripped characters added around a text are removed together with the text's own, leaving the same result |
| Commands.StripKeepsTrimmed | chat_client.py:48 | a text that neither starts nor ends with a stripped character is left unchanged |
| Commands.Lower | chat_client.py:51-53 | lowercasing keeps the length, leaves no upper-case ASCII letter, and changes a character only into the lower-case letter of an upper-case one |
| Commands.LowerIs | chat_client.py:51-53 | for a lower-case word, an input lowercases to it exactly when it has the same length and each character is the word's own or its upper-case letter |
| Commands.Classify | chat_client.py:48-58 | an input is skipped exactly when it is all whitespace; it quits exactly when its stripped, lowercased form is `/quit` or `/exit`, resets exactly when that form is `/reset`, and is sent otherwise; a message that is sent is the stripped input, non-empty and without surrounding whitespace |
| Commands.ClassifyIgnoresPadding | chat_client.py:48 | whitespace around an input never changes how it is read |
| Commands.ExitAnyCase | chat_client.py:48-52 | any spelling of `/quit` or `/exit` in any mix of cases, with any whitespace around it, is read as the quit command |
| Commands.ExitExample | chat_client.py:51-52 | `/Exit` is read as the quit command |
| Commands.ResetAnyCase | chat_client.py:48-53 | any spelling of `/reset` in any mix of cases, with any whitespace around it, is read as the reset command |
| Commands.ResetPaddedExample | chat_client.py:48-53 | `/Reset` padded with spaces and a tab is read as the reset command |
| Terminal.TerminalStep | chat_client.py:47-61 | blank input changes nothing; quit ends the loop with the history untouched; reset empties the history; a request is sent exactly for a message, carrying the history plus the stripped message; an answered message adds the user message and the final answer; a failed call ends the loop with the user message appended and no reply |
| Terminal.StepWellFormed | chat_client.py:47-61 | one pass of the loop keeps complete turns complete, and a crash leaves only the last question unanswered |
| Terminal.TerminalRun | chat_client.py:47-61 | over any input lines, started from complete turns, the history while running or after quitting holds only complete user/assistant turns; after a crash it holds complete turns and one unanswered user message |
| Terminal.NothingReadAfterStop | chat_client.py:51-52 | after a quit or a crash, further input lines change nothing |
| Terminal.ExitStops | chat_client.py:48-52 | an input whose stripped, lowercased form is `/quit` or `/exit` ends the loop with the history untouched and sends no request |
| Terminal.ResetClears | chat_client.py:48-56 | an input whose stripped, lowercased form is `/reset` empties the history and sends no request |
| Terminal.FirstTurn | chat_client.py:58-61 | on an empty history, a question is sent alone and an answer leaves exactly that one turn |
| Terminal.ResetThenTurn | chat_client.py:53-61 | any spelling of reset followed by an answered question leaves exactly that turn, with nothing from before the reset |
| Agreement.StreamMatchesChat | chat_client.py:28-40 | the terminal loop's answer equals the last snapshot of the web page's generator (app.py:46-56), or "" when it yields none; one raises exactly when the other does, with the same parse error |
| Agreement.SuccessfulTurnAgrees | chat_client.py:58-61 | for a trimmed, non-command message answered without error, the terminal and the web page (default sidebar settings, app.py:59-77) post the same request and reach the same history |
| Agreement.FailedTurnDiffers | app.py:69-77 | on a failed call the web page records the error message as the reply, while the terminal loop (chat_client.py:58-61) ends with the question unanswered |

## Left out

- HTTP transport: the URL, `requests.post`, the 600-second timeout, `raise_for_status` and `iter_lines` chunking. A failure before any line is read (the request, the status check) is the abstract `HttpFailure(error)`. A failure inside `iter_lines()` after some lines arrived (a read timeout, a dropped connection, a chunked-encoding error) is represented as a `Malformed(error)` line at the point of failure; it has the same effect as the source's exception: the web page stores the error message, and the terminal loop ends. The body is an already split `seq<Line>`. Releasing the connection (`with`) is not modelled.
- JSON parsing and UTF-8 decoding: a line is already classified as `Blank`, `Malformed` or `Frame`. Inputs that make the source raise after parsing are folded into `Malformed`: a top-level value that is not an object, a `message` that is not an object, or a truthy non-string `content` that `full += chunk` rejects. A `content` of `null` or another falsy non-string (`0`, `false`, `[]`, `{}`) is treated like a missing one, as the `if chunk:` test skips it.
- Wire.Temperature: the temperature is a `real` passed through unchanged; floating point and the slider's 0.0–1.0 range are not modelled.
- ChatClient.ReadWhole: the non-streaming body is one JSON document. It is modelled as parsing when its non-blank lines are exactly one record; a document spread over several lines is outside the line abstraction. A `content` of `null` returns `None` in the source but is reported as missing here. The `KeyError` for a missing `message` and for a missing `content` are one error, `MissingContent`. A record whose `content` is a truthy non-string (say `5`) is a `Malformed` line, so the non-streaming branch reports a protocol error where the source returns that value without raising; the streaming loops do raise on it, at `full += chunk`. A record whose `content` is a falsy non-string (`0`, `false`, `[]`, `{}`) is a `Frame` without content, which both streaming loops skip at `if chunk:` as the source does; the non-streaming branch then reports `MissingContent` where the source returns that value.
- Commands.Lower: lowercasing is ASCII-only, where `user.lower()` (chat_client.py:51 and 53) is Python's full Unicode lowercasing; `Commands.Classify` inherits this. For equality with `/quit`, `/exit` and `/reset` this agrees with Python's full Unicode `lower()`. No non-ASCII character lowercases to one of the single ASCII characters in these words; U+212A KELVIN SIGN becomes `k`, and U+0130 becomes two characters.
- Rendering and terminal I/O: Streamlit calls (`st.*`, `placeholder.markdown`, `st.rerun`, history display) and `print`/`input`. The printed chunks in the streaming loop are not modelled; only the returned string is.
- `transcript_markdown` (app.py:83-95): it reads the wall clock and is plain string formatting for export.
- run_tests.py: a fixed question list, a one-shot non-streaming call and file writing. It does not call `ollama_chat`; its own `ask` (run_tests.py:34-43) repeats the steps of the non-streaming branch, which is modelled in `ChatClient.OllamaChat`.
- WebSession.WebRunShape: every rerun is modelled as running to completion. The Streamlit runtime, which is not part of this model, stops a running script when the user clicks "Clear chat", moves the slider or submits again while a reply streams. It does so with an exception that `except Exception` (app.py:73) does not catch, so such an interrupted run leaves the user message appended at app.py:61 without an assistant reply, and the history is then not made of complete turns. `WebSession.WebRun` and `WebSession.FreshSessionShape` rest on the same assumption.
- Concurrency: within one session the model is sequential; overlapping reruns appear only through the interruption described above, which is not modelled.
