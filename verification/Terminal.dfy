/** The terminal client's main loop: read a line, ignore it when blank, stop on
    `/quit` or `/exit`, forget the history on `/reset`, and otherwise send the history
    with the new user message and append the streamed answer. The loop has no
    exception handler, so a failed call ends the program. */
module Terminal {
  import opened Wrappers
  import opened Wire
  import opened Frames
  import opened ChatClient
  import opened Commands

  /** Where the loop is: still reading, left by a quit command, or ended by an
      exception from `ollama_chat` after the user message was appended. */
  datatype Session = Running(history: seq<Message>) | Exited(history: seq<Message>)
                   | Crashed(history: seq<Message>, error: ChatError)

  /** The session after one input line, and the request posted for it, if any. */
  datatype Step = Step(session: Session, sent: Option<Request>)

  /** One input line with the reply the server would give if it is sent. */
  datatype Input = Input(text: string, reply: Response)

  /** One pass of the loop. */
  function TerminalStep(history: seq<Message>, raw: string, reply: Response): (s: Step)
    ensures AllSpace(raw) ==> s == Step(Running(history), None)
    ensures s.sent.Some? <==> Classify(raw).Say?
    ensures Classify(raw).Quit? ==> s.session == Exited(history)
    ensures Classify(raw).Reset? ==> s.session == Running([])
    ensures Classify(raw).Say? ==>
      s.sent == Some(Request(DefaultModel, history + [Message(User, Strip(raw))], DefaultTemperature, true))
    ensures Classify(raw).Say? && reply.Body? && !FailsOn(reply.lines) ==>
      s.session == Running(history + [Message(User, Strip(raw)), Message(Assistant, FinalAnswer(reply.lines))])
    ensures Classify(raw).Say? && !(reply.Body? && !FailsOn(reply.lines)) ==>
      s.session.Crashed? && s.session.history == history + [Message(User, Strip(raw))]
  {
    match Classify(raw)
    case Skip => Step(Running(history), None)
    case Quit => Step(Exited(history), None)
    case Reset => Step(Running([]), None)
    case Say(user) =>
      var asked := history + [Message(User, user)];
      var request := Request(DefaultModel, asked, DefaultTemperature, true);
      match OllamaChat(reply, true)
      case Ok(answer) =>
        assert asked + [Message(Assistant, answer)] == history + [Message(User, user), Message(Assistant, answer)];
        Step(Running(asked + [Message(Assistant, answer)]), Some(request))
      case Err(e) => Step(Crashed(asked, e), Some(request))
  }

  /** The loop over a sequence of input lines; once it has stopped, no further line is
      read. Started from complete turns, the history stays well formed whatever the
      lines: while running or after quitting it holds only complete user/assistant
      turns, and only a crash leaves a question unanswered. */
  function TerminalRun(history: seq<Message>, inputs: seq<Input>): (s: Session)
    ensures Paired(history) ==> WellFormed(s)
    decreases |inputs|
  {
    if |inputs| == 0 then Running(history)
    else
      var s := TerminalStep(history, inputs[0].text, inputs[0].reply).session;
      assert Paired(history) ==> WellFormed(s) by {
        if Paired(history) {
          StepWellFormed(history, inputs[0].text, inputs[0].reply);
        }
      }
      if s.Running? then TerminalRun(s.history, inputs[1..]) else s
  }

  /** What the history looks like in each state, starting from a paired one: while
      running or after quitting, only complete turns; after a crash, complete turns
      followed by the user message that was never answered. */
  predicate WellFormed(s: Session) {
    match s
    case Running(h) => Paired(h)
    case Exited(h) => Paired(h)
    case Crashed(h, _) => |h| > 0 && Paired(h[..|h| - 1]) && h[|h| - 1].role == User
  }

  /** One pass keeps the history well formed. */
  lemma StepWellFormed(history: seq<Message>, raw: string, reply: Response)
    requires Paired(history)
    ensures WellFormed(TerminalStep(history, raw, reply).session)
  {
    var s := TerminalStep(history, raw, reply).session;
    var c := Classify(raw);
    if c.Say? {
      match OllamaChat(reply, true)
      case Ok(answer) => PairedExtend(history, c.text, answer);
      case Err(_) => assert s.history[..|s.history| - 1] == history;
    }
  }

  /** After the loop has stopped (quit or crash), later input lines change nothing. */
  lemma {:induction false} NothingReadAfterStop(history: seq<Message>, inputs: seq<Input>, more: seq<Input>)
    requires !TerminalRun(history, inputs).Running?
    ensures TerminalRun(history, inputs + more) == TerminalRun(history, inputs)
    decreases |inputs|
  {
    var all := inputs + more;
    assert all[0] == inputs[0] && all[1..] == inputs[1..] + more;
    var s := TerminalStep(history, inputs[0].text, inputs[0].reply).session;
    if s.Running? {
      NothingReadAfterStop(s.history, inputs[1..], more);
    }
  }

  /** `/quit` or `/exit`, in any case and padding, ends the loop with the history as it
      was and sends nothing. */
  lemma ExitStops(history: seq<Message>, raw: string, reply: Response)
    requires Lower(Strip(raw)) in ExitWords
    ensures TerminalStep(history, raw, reply) == Step(Exited(history), None)
  {
  }

  /** `/reset`, in any case and padding, empties the history and sends nothing. */
  lemma ResetClears(history: seq<Message>, raw: string, reply: Response)
    requires Lower(Strip(raw)) == ResetWord
    ensures TerminalStep(history, raw, reply) == Step(Running([]), None)
  {
  }

  /** The first question of an empty history is sent alone and, when answered, leaves
      exactly one turn. */
  lemma FirstTurn(question: string, lines: seq<Line>)
    requires Classify(question).Say?
    requires !FailsOn(lines)
    ensures TerminalStep([], question, Body(lines))
         == Step(Running([Message(User, Strip(question)), Message(Assistant, FinalAnswer(lines))]),
                 Some(Request(DefaultModel, [Message(User, Strip(question))], DefaultTemperature, true)))
  {
    var empty: seq<Message> := [];
    assert empty + [Message(User, Strip(question))] == [Message(User, Strip(question))];
    assert empty + [Message(User, Strip(question)), Message(Assistant, FinalAnswer(lines))]
        == [Message(User, Strip(question)), Message(Assistant, FinalAnswer(lines))];
  }

  /** A reset line starts the rest of the session from an empty history. */
  lemma ResetThenRest(history: seq<Message>, raw: string, resetReply: Response, rest: seq<Input>)
    requires Lower(Strip(raw)) == ResetWord
    ensures TerminalRun(history, [Input(raw, resetReply)] + rest) == TerminalRun([], rest)
  {
    ResetClears(history, raw, resetReply);
    var inputs := [Input(raw, resetReply)] + rest;
    assert inputs[0] == Input(raw, resetReply) && inputs[1..] == rest;
  }

  /** A single answered question on an empty history leaves exactly that turn. */
  lemma OnlyTurn(question: string, lines: seq<Line>)
    requires Classify(question).Say?
    requires !FailsOn(lines)
    ensures TerminalRun([], [Input(question, Body(lines))])
         == Running([Message(User, Strip(question)), Message(Assistant, FinalAnswer(lines))])
  {
    FirstTurn(question, lines);
    var inputs := [Input(question, Body(lines))];
    assert inputs[1..] == [];
  }

  /** A reset followed by an answered question leaves exactly that turn: nothing from
      before the reset survives. */
  lemma ResetThenTurn(history: seq<Message>, raw: string, resetReply: Response, question: string, lines: seq<Line>)
    requires Lower(Strip(raw)) == ResetWord
    requires Classify(question).Say?
    requires !FailsOn(lines)
    ensures TerminalRun(history, [Input(raw, resetReply), Input(question, Body(lines))])
         == Running([Message(User, Strip(question)), Message(Assistant, FinalAnswer(lines))])
  {
    var rest := [Input(question, Body(lines))];
    assert [Input(raw, resetReply), Input(question, Body(lines))] == [Input(raw, resetReply)] + rest;
    ResetThenRest(history, raw, resetReply, rest);
    OnlyTurn(question, lines);
  }
}
