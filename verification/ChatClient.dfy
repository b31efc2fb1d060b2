/** The terminal client's `ollama_chat`: one HTTP call, then either the streaming read
    loop that returns only the finished answer, or the single JSON record of a
    non-streaming reply. */
module ChatClient {
  import opened Wrappers
  import opened Wire
  import opened Frames

  /** Why a call raised: the HTTP call failed, a line (or the whole non-streaming body)
      did not parse, the non-streaming body was not exactly one JSON document, or its
      record had no `message.content`. */
  datatype ChatError = Transport(error: string) | Protocol(error: string) | InvalidBody | MissingContent

  /** The streaming read loop from the point where the accumulator holds `full`. */
  function CollectFrom(lines: seq<Line>, full: string): (r: Result<string, ChatError>)
    ensures r.Err? ==> r.error.Protocol?
    decreases |lines|
  {
    if |lines| == 0 then Ok(full)
    else match lines[0]
      case Blank => CollectFrom(lines[1..], full)
      case Malformed(e) => Err(Protocol(e))
      case Frame(content, done) =>
        var chunk := content.GetOr("");
        var grown := if chunk != "" then full + chunk else full;
        if done then Ok(grown)
        else
          CollectFrom(lines[1..], grown)
  }

  /** On a line that stops it, the loop raises or returns with that line's fragment
      appended, as the reference says. */
  lemma CollectStop(l: Line, rest: seq<Line>, full: string)
    requires Stops(l)
    ensures FailsOn([l] + rest) ==> CollectFrom([l] + rest, full) == Err(Protocol(FailureText([l] + rest)))
    ensures !FailsOn([l] + rest) ==> CollectFrom([l] + rest, full) == Ok(full + FinalAnswer([l] + rest))
  {
    ReadStop(l, rest);
    assert ([l] + rest)[0] == l;
    assert full + "" == full;
  }

  lemma CollectUnfold(l: Line, rest: seq<Line>, full: string)
    requires !Stops(l)
    ensures CollectFrom([l] + rest, full) == CollectFrom(rest, full + Fragment(l))
  {
    assert ([l] + rest)[0] == l && ([l] + rest)[1..] == rest;
    assert full + "" == full;
  }

  /** Past a line that does not stop it, a loop that goes on to fail on the rest fails
      on the whole body with the same message. */
  lemma CollectPastFails(l: Line, rest: seq<Line>, full: string)
    requires !Stops(l) && FailsOn(rest)
    requires CollectFrom(rest, full + Fragment(l)) == Err(Protocol(FailureText(rest)))
    ensures FailsOn([l] + rest)
    ensures CollectFrom([l] + rest, full) == Err(Protocol(FailureText([l] + rest)))
  {
    ReadPast(l, rest);
    CollectUnfold(l, rest, full);
  }

  /** Past a line that does not stop it, a loop that answers on the rest answers on the
      whole body with that line's fragment in front. */
  lemma CollectPastAnswers(l: Line, rest: seq<Line>, full: string)
    requires !Stops(l) && !FailsOn(rest)
    requires CollectFrom(rest, full + Fragment(l)) == Ok(full + Fragment(l) + FinalAnswer(rest))
    ensures !FailsOn([l] + rest)
    ensures CollectFrom([l] + rest, full) == Ok(full + FinalAnswer([l] + rest))
  {
    ReadPast(l, rest);
    AnswerPast(l, rest);
    CollectUnfold(l, rest, full);
    AppendAssoc(full, Fragment(l), FinalAnswer(rest));
  }

  /** Proof step: string concatenation regroups. */
  lemma AppendAssoc(a: string, b: string, c: string)
    ensures a + b + c == a + (b + c)
  {
  }

  /** The loop returns the joined non-empty fragments of the lines it reads, after
      whatever the accumulator already held, unless it stops on a malformed line. */
  lemma {:induction false} CollectMatchesReference(lines: seq<Line>, full: string)
    ensures FailsOn(lines) ==> CollectFrom(lines, full) == Err(Protocol(FailureText(lines)))
    ensures !FailsOn(lines) ==> CollectFrom(lines, full) == Ok(full + FinalAnswer(lines))
    decreases |lines|
  {
    if |lines| == 0 {
      assert Read(lines) == [];
      assert full + "" == full;
    } else {
      var l := lines[0];
      var rest := lines[1..];
      assert lines == [l] + rest;
      if Stops(l) {
        CollectStop(l, rest, full);
      } else {
        CollectMatchesReference(rest, full + Fragment(l));
        if FailsOn(rest) {
          CollectPastFails(l, rest, full);
        } else {
          CollectPastAnswers(l, rest, full);
        }
      }
    }
  }

  /** The streaming branch of `ollama_chat` on a fetched body. */
  function Collect(lines: seq<Line>): (r: Result<string, ChatError>)
    ensures FailsOn(lines) ==> r == Err(Protocol(FailureText(lines)))
    ensures !FailsOn(lines) ==> r == Ok(FinalAnswer(lines))
  {
    CollectMatchesReference(lines, "");
    assert "" + FinalAnswer(lines) == FinalAnswer(lines);
    CollectFrom(lines, "")
  }

  /** The lines of a body that carry bytes, in order: the result holds exactly the
      body's non-blank lines, and none exactly when every line is blank
      (`NonBlankAppend` and `NonBlankPadded` pin down the order). */
  function NonBlank(lines: seq<Line>): (r: seq<Line>)
    ensures |r| <= |lines|
    ensures forall i :: 0 <= i < |r| ==> !r[i].Blank?
    ensures r == [] <==> forall i :: 0 <= i < |lines| ==> lines[i].Blank?
    ensures forall l :: l in r <==> l in lines && !l.Blank?
  {
    if |lines| == 0 then []
    else
      var rest := NonBlank(lines[1..]);
      assert lines == [lines[0]] + lines[1..];
      assert (forall i :: 0 <= i < |lines| ==> lines[i].Blank?)
         <==> lines[0].Blank? && forall i :: 0 <= i < |lines| - 1 ==> lines[1..][i].Blank? by {
        if lines[0].Blank? && forall i :: 0 <= i < |lines| - 1 ==> lines[1..][i].Blank? {
          forall i | 0 < i < |lines|
            ensures lines[i].Blank?
          {
            assert lines[i] == lines[1..][i - 1];
          }
        }
      }
      (if lines[0].Blank? then [] else [lines[0]]) + rest
  }

  /** The records of two pieces of a body are the records of the first followed by
      those of the second. */
  lemma {:induction false} NonBlankAppend(a: seq<Line>, b: seq<Line>)
    ensures NonBlank(a + b) == NonBlank(a) + NonBlank(b)
    decreases |a|
  {
    if |a| > 0 {
      assert (a + b)[0] == a[0] && (a + b)[1..] == a[1..] + b;
      NonBlankAppend(a[1..], b);
    } else {
      assert a + b == b;
    }
  }

  /** The non-streaming branch: `r.json()` parses the whole body as one JSON document and
      `data["message"]["content"]` is returned as it is. The `done` flag is not consulted.
      An empty or all-blank body is not a JSON document. */
  function ReadWhole(lines: seq<Line>): (r: Result<string, ChatError>)
    ensures (forall i :: 0 <= i < |lines| ==> lines[i].Blank?) ==> r == Err(InvalidBody)
  {
    var records := NonBlank(lines);
    if |records| != 1 then Err(InvalidBody)
    else match records[0]
      case Malformed(e) => Err(Protocol(e))
      case Frame(content, _) => if content.Some? then Ok(content.value) else Err(MissingContent)
      case Blank => Err(InvalidBody)
  }

  /** A body with two or more records is not one JSON document, whatever the records. */
  lemma SeveralRecordsInvalid(lines: seq<Line>, i: nat, j: nat)
    requires i < j < |lines| && !lines[i].Blank? && !lines[j].Blank?
    ensures ReadWhole(lines) == Err(InvalidBody)
  {
    var front, back := lines[..j], lines[j..];
    assert lines == front + back;
    NonBlankAppend(front, back);
    assert front[i] == lines[i] && back[0] == lines[j];
    assert NonBlank(front) != [] && NonBlank(back) != [];
  }

  /** `ollama_chat` with the server's reply as a parameter. */
  function OllamaChat(reply: Response, stream: bool): (r: Result<string, ChatError>)
    ensures reply.HttpFailure? ==> r == Err(Transport(reply.error))
    ensures reply.Body? && stream && !FailsOn(reply.lines) ==> r == Ok(FinalAnswer(reply.lines))
    ensures reply.Body? && stream && FailsOn(reply.lines) ==> r == Err(Protocol(FailureText(reply.lines)))
    ensures reply.Body? && !stream ==> r == ReadWhole(reply.lines)
  {
    match reply
    case HttpFailure(e) => Err(Transport(e))
    case Body(lines) => if stream then Collect(lines) else ReadWhole(lines)
  }

  /** One record among blank lines is the body's only record. */
  lemma {:induction false} NonBlankPadded(w1: seq<Line>, l: Line, w2: seq<Line>)
    requires forall i :: 0 <= i < |w1| ==> w1[i].Blank?
    requires forall i :: 0 <= i < |w2| ==> w2[i].Blank?
    requires !l.Blank?
    ensures NonBlank(w1 + [l] + w2) == [l]
    decreases |w1| + |w2|
  {
    if |w1| > 0 {
      assert (w1 + [l] + w2)[0] == w1[0] && (w1 + [l] + w2)[1..] == w1[1..] + [l] + w2;
      NonBlankPadded(w1[1..], l, w2);
    } else if |w2| > 0 {
      assert w1 + [l] + w2 == [l] + w2;
      assert ([l] + w2)[1..] == w2;
      NonBlankPadded([], l, w2[1..]);
      assert [l] + w2[1..] == [] + [l] + w2[1..];
      assert NonBlank(w2) == [] + NonBlank(w2[1..]);
      assert NonBlank([l] + w2[1..]) == [l] + NonBlank(w2[1..]);
    } else {
      assert w1 + [l] + w2 == [l];
    }
  }

  /** A non-streaming reply holding one record (blank lines around it aside) gives that
      record's content as it is, even when empty and whatever its `done` flag; a record
      without content raises instead of defaulting to "". */
  lemma NonStreamingReturnsContent(w1: seq<Line>, content: Option<string>, done: bool, w2: seq<Line>)
    requires forall i :: 0 <= i < |w1| ==> w1[i].Blank?
    requires forall i :: 0 <= i < |w2| ==> w2[i].Blank?
    ensures content.Some? ==> OllamaChat(Body(w1 + [Frame(content, done)] + w2), false) == Ok(content.value)
    ensures content.None? ==> OllamaChat(Body(w1 + [Frame(content, done)] + w2), false) == Err(MissingContent)
  {
    NonBlankPadded(w1, Frame(content, done), w2);
  }

  /** A non-streaming reply whose one record does not parse raises that parse error. */
  lemma NonStreamingMalformed(w1: seq<Line>, error: string, w2: seq<Line>)
    requires forall i :: 0 <= i < |w1| ==> w1[i].Blank?
    requires forall i :: 0 <= i < |w2| ==> w2[i].Blank?
    ensures OllamaChat(Body(w1 + [Malformed(error)] + w2), false) == Err(Protocol(error))
  {
    NonBlankPadded(w1, Malformed(error), w2);
  }

  /** The non-streaming reply `{"message": {"content": "hello"}}` returns exactly "hello". */
  lemma NonStreamingHelloExample()
    ensures OllamaChat(Body([Frame(Some("hello"), false)]), false) == Ok("hello")
  {
    NonStreamingReturnsContent([], Some("hello"), false, []);
    assert [] + [Frame(Some("hello"), false)] + [] == [Frame(Some("hello"), false)];
  }
}
