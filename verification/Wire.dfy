/** What travels between the client and the inference server: chat messages,
    the request payload, and the response body already split into lines. */
module Wire {
  import opened Wrappers

  /** Model name used by the terminal client and offered by the web sidebar. */
  const DefaultModel := "helpdesk"

  /** The sampling temperature; a float passed through to the server unchanged. */
  datatype Temperature = Temperature(value: real)

  /** Temperature used by the terminal client and offered by the web sidebar. */
  const DefaultTemperature := Temperature(0.2)

  datatype Role = User | Assistant

  /** One `{role, content}` entry of the conversation history. */
  datatype Message = Message(role: Role, content: string)

  /** The JSON payload posted to the chat endpoint. */
  datatype Request = Request(model: string, messages: seq<Message>, temperature: Temperature, stream: bool)

  /** One line of the response body, as the JSON parser sees it.
      `Blank` is a line with no bytes. `Malformed` is any line at which reading raises;
      `error` is the text of the exception. That covers a line that does not decode to a
      JSON object whose `message` (if any) is an object, a truthy non-string `content`
      (say `5`) that the accumulator cannot take, and a transport failure inside the line
      iterator after earlier lines arrived (a read timeout, a dropped connection), placed
      where it happened. `Frame` is a record: `content` is `message.content` (None when
      either key is absent, or the value is null or another falsy non-string such as `0`,
      `false`, `[]` or `{}`, which both loops skip) and `done` is the truth value of
      `done`. */
  datatype Line = Blank | Malformed(error: string) | Frame(content: Option<string>, done: bool)

  /** What the HTTP call produces: a failure raised by the request itself or by
      `raise_for_status` before any line is read, or a body delivered line by line. */
  datatype Response = HttpFailure(error: string) | Body(lines: seq<Line>)

  /** A history made of complete turns: user and assistant messages alternate,
      starting with the user, and every user message has its reply. */
  predicate Paired(history: seq<Message>) {
    |history| % 2 == 0 &&
    forall i :: 0 <= i < |history| ==> history[i].role == (if i % 2 == 0 then User else Assistant)
  }

  /** Appending one user message and one assistant message keeps a history paired. */
  lemma PairedExtend(history: seq<Message>, question: string, answer: string)
    requires Paired(history)
    ensures Paired(history + [Message(User, question), Message(Assistant, answer)])
  {
    var h := history + [Message(User, question), Message(Assistant, answer)];
    forall i | 0 <= i < |h|
      ensures h[i].role == (if i % 2 == 0 then User else Assistant)
    {
      if i < |history| {
        assert h[i] == history[i];
      }
    }
  }
}
