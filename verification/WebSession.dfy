/** The web UI: the session's history, one submitted turn streamed into an assistant
    reply (with any exception turned into an error message), and "Clear chat". */
module WebSession {
  import opened Wrappers
  import opened Wire
  import opened Frames
  import opened StreamDecoder

  /** The text stored in place of the answer when streaming raised. */
  const ErrorPrefix := "Error talking to Ollama: "

  /** The sidebar's model name and temperature at the time of a turn. */
  datatype Settings = Settings(model: string, temperature: Temperature)

  /** What the sidebar shows before the user changes anything. */
  const DefaultSettings := Settings(DefaultModel, DefaultTemperature)

  /** The history a new session starts with. */
  const InitialHistory: seq<Message> := []

  /** What one rerun of the page receives: a click on "Clear chat", or the chat input's
      value (empty when nothing was submitted) with the server's reply to it. */
  datatype Event = ClearChat | Submit(text: string, settings: Settings, reply: Response)

  /** The history after an event, and the request posted while handling it, if any. */
  datatype Exchange = Exchange(history: seq<Message>, sent: Option<Request>)

  /** The assistant text a turn stores: the last snapshot the generator yielded, or ""
      when it yielded none; if the generator raised, the error message instead, which
      replaces any text already shown. */
  function TurnAnswer(reply: Response): (final: string)
    ensures reply.HttpFailure? ==> final == ErrorPrefix + reply.error
    ensures reply.Body? && !FailsOn(reply.lines) ==> final == FinalAnswer(reply.lines)
    ensures reply.Body? && FailsOn(reply.lines) ==> final == ErrorPrefix + FailureText(reply.lines)
  {
    var d := StreamOllama(reply);
    match d.outcome
    case Ended =>
      LastSnapshotIsAnswer(reply.lines);
      if |d.snapshots| == 0 then "" else d.snapshots[|d.snapshots| - 1]
    case ProtocolError(e) => ErrorPrefix + e
    case TransportError(e) => ErrorPrefix + e
  }

  /** One rerun of the page. A submitted message is appended as a user message, the
      whole history including it is posted, and the stored answer is appended as the
      assistant message, so the reply never appears in its own request. */
  function WebStep(history: seq<Message>, event: Event): (x: Exchange)
    ensures event.ClearChat? ==> x == Exchange([], None)
    ensures event.Submit? && event.text == "" ==> x == Exchange(history, None)
    ensures event.Submit? && event.text != "" ==>
      x.sent == Some(Request(event.settings.model, history + [Message(User, event.text)], event.settings.temperature, true))
    ensures event.Submit? && event.text != "" ==>
      x.history == history + [Message(User, event.text), Message(Assistant, TurnAnswer(event.reply))]
    ensures Paired(history) ==> Paired(x.history)
  {
    match event
    case ClearChat => Exchange([], None)
    case Submit(text, settings, reply) =>
      if text == "" then Exchange(history, None)
      else
        var asked := history + [Message(User, text)];
        var request := Request(settings.model, asked, settings.temperature, true);
        var answered := asked + [Message(Assistant, TurnAnswer(reply))];
        assert answered == history + [Message(User, text), Message(Assistant, TurnAnswer(reply))];
        assert Paired(history) ==> Paired(answered) by {
          if Paired(history) {
            PairedExtend(history, text, TurnAnswer(reply));
          }
        }
        Exchange(answered, Some(request))
  }

  /** The history after a series of reruns, the last event handled last; a history of
      complete turns stays one. */
  function WebRun(history: seq<Message>, events: seq<Event>): (h: seq<Message>)
    ensures Paired(history) ==> Paired(h)
    decreases |events|
  {
    if |events| == 0 then history
    else WebStep(WebRun(history, events[..|events| - 1]), events[|events| - 1]).history
  }

  /** Some event of the series clears the chat. */
  predicate Cleared(events: seq<Event>) {
    exists i :: 0 <= i < |events| && events[i].ClearChat?
  }

  /** The number of non-empty submissions after the last "Clear chat" (or in all, when
      the chat is never cleared). */
  function TurnsSinceClear(events: seq<Event>): nat
    decreases |events|
  {
    if |events| == 0 then 0
    else
      var last := events[|events| - 1];
      if last.ClearChat? then 0
      else TurnsSinceClear(events[..|events| - 1]) + (if last.text == "" then 0 else 1)
  }

  /** Every turn adds exactly two messages, even one that ended in an error, and
      "Clear chat" starts over from nothing: the history stays paired, and its length is
      twice the number of turns since the last clear (plus what it held before, if the
      chat was never cleared). */
  lemma {:induction false} WebRunShape(history: seq<Message>, events: seq<Event>)
    requires Paired(history)
    ensures Paired(WebRun(history, events))
    ensures |WebRun(history, events)| == (if Cleared(events) then 0 else |history|) + 2 * TurnsSinceClear(events)
    decreases |events|
  {
    if |events| > 0 {
      var front := events[..|events| - 1];
      var last := events[|events| - 1];
      WebRunShape(history, front);
      assert Cleared(events) <==> Cleared(front) || last.ClearChat? by {
        if Cleared(events) && !last.ClearChat? {
          var i :| 0 <= i < |events| && events[i].ClearChat?;
          assert front[i] == events[i];
        }
        if Cleared(front) {
          var i :| 0 <= i < |front| && front[i].ClearChat?;
          assert events[i] == front[i];
        }
      }
    }
  }

  /** A new session holds exactly one user and one assistant message per turn since the
      last "Clear chat", in that order. */
  lemma FreshSessionShape(events: seq<Event>)
    ensures Paired(WebRun(InitialHistory, events))
    ensures |WebRun(InitialHistory, events)| == 2 * TurnsSinceClear(events)
  {
    WebRunShape(InitialHistory, events);
  }

  /** Clearing the chat and then sending a message leaves exactly that turn: nothing from
      before the clear reaches the history or the request. */
  lemma ClearThenTurn(history: seq<Message>, text: string, settings: Settings, reply: Response)
    requires text != ""
    ensures WebRun(history, [ClearChat, Submit(text, settings, reply)])
         == [Message(User, text), Message(Assistant, TurnAnswer(reply))]
    ensures WebStep(WebStep(history, ClearChat).history, Submit(text, settings, reply)).sent
         == Some(Request(settings.model, [Message(User, text)], settings.temperature, true))
  {
    var events := [ClearChat, Submit(text, settings, reply)];
    assert events[..1] == [ClearChat];
    assert [ClearChat][..0] == [];
    var cleared: seq<Message> := [];
    assert cleared + [Message(User, text)] == [Message(User, text)];
  }
}
