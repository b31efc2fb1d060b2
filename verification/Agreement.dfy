/** The two front ends decode the same way: the web UI's generator and the terminal
    client's loop produce the same answer from the same body, and a turn that succeeds
    leaves the same history in both. They differ only on failure. */
module Agreement {
  import opened Wrappers
  import opened Wire
  import opened Frames
  import opened StreamDecoder
  import opened ChatClient
  import opened WebSession
  import opened Commands
  import opened Terminal

  /** The generator's last snapshot (or "" when it yields none) is what the terminal
      client's loop returns, and the generator raises exactly when the loop does, with
      the same parse error. */
  lemma StreamMatchesChat(lines: seq<Line>)
    ensures Decode(lines).outcome.Ended? <==> Collect(lines).Ok?
    ensures Collect(lines).Ok? ==>
      Collect(lines).value
        == if |Decode(lines).snapshots| == 0 then "" else Decode(lines).snapshots[|Decode(lines).snapshots| - 1]
    ensures Decode(lines).outcome.ProtocolError? ==> Collect(lines) == Err(Protocol(Decode(lines).outcome.error))
  {
    DecodeMatchesReference(lines, "");
    LastSnapshotIsAnswer(lines);
  }

  /** An already-trimmed message that is not a command, answered without error, changes
      the web history (with the default sidebar settings) and the terminal history in
      the same way, through the same request. */
  lemma SuccessfulTurnAgrees(history: seq<Message>, text: string, lines: seq<Line>)
    requires Classify(text) == Say(text)
    requires !FailsOn(lines)
    ensures TerminalStep(history, text, Body(lines)).session
         == Running(WebStep(history, Submit(text, DefaultSettings, Body(lines))).history)
    ensures TerminalStep(history, text, Body(lines)).sent
         == WebStep(history, Submit(text, DefaultSettings, Body(lines))).sent
  {
  }

  /** On a failed call the front ends part ways: the web UI stores the error message as
      the reply and keeps going, while the terminal loop ends with the question
      unanswered. */
  lemma FailedTurnDiffers(history: seq<Message>, text: string, reply: Response)
    requires Classify(text) == Say(text)
    requires reply.HttpFailure? || FailsOn(reply.lines)
    ensures WebStep(history, Submit(text, DefaultSettings, reply)).history
         == history + [Message(User, text), Message(Assistant, ErrorPrefix + (if reply.HttpFailure? then reply.error else FailureText(reply.lines)))]
    ensures TerminalStep(history, text, reply).session.Crashed?
    ensures TerminalStep(history, text, reply).session.history == history + [Message(User, text)]
  {
  }
}
