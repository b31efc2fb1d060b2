/** The web UI's streaming generator: it walks the response lines and yields the
    growing answer after every non-empty fragment. */
module StreamDecoder {
  import opened Wrappers
  import opened Wire
  import opened Frames

  /** How the generator ends: normally (done record or end of body), on a line that
      fails to parse, or before any line is read because the HTTP call failed. */
  datatype Outcome = Ended | ProtocolError(error: string) | TransportError(error: string)

  /** The snapshots the generator yields, in order, and how it ends. */
  datatype Decoded = Decoded(snapshots: seq<string>, outcome: Outcome)

  /** Every snapshot strictly extends `base`, and each strictly extends the one before
      it (`<` on sequences is "proper prefix of"). */
  predicate Growing(snapshots: seq<string>, base: string) {
    (forall i :: 0 <= i < |snapshots| ==> base < snapshots[i]) &&
    (forall i :: 0 < i < |snapshots| ==> snapshots[i - 1] < snapshots[i])
  }

  /** A proper prefix of a proper prefix is a proper prefix. */
  lemma ProperPrefixTransitive(a: string, b: string, c: string)
    requires a < b && b < c
    ensures a < c
  {
    assert c[..|b|][..|a|] == c[..|a|];
  }

  /** The read loop from the point where the accumulator holds `full`. */
  function DecodeFrom(lines: seq<Line>, full: string): (d: Decoded)
    ensures d.outcome.Ended? || d.outcome.ProtocolError?
    ensures Growing(d.snapshots, full)
    ensures |d.snapshots| <= |lines|
    decreases |lines|
  {
    if |lines| == 0 then Decoded([], Ended)
    else match lines[0]
      case Blank => DecodeFrom(lines[1..], full)
      case Malformed(e) => Decoded([], ProtocolError(e))
      case Frame(content, done) =>
        var chunk := content.GetOr("");
        var grown := if chunk != "" then full + chunk else full;
        var yielded := if chunk != "" then [grown] else [];
        if done then Decoded(yielded, Ended)
        else
          var rest := DecodeFrom(lines[1..], grown);
          var all := yielded + rest.snapshots;
          assert Growing(all, full) by {
            if chunk != "" {
              assert full < grown;
              forall i | 0 < i < |all|
                ensures full < all[i] && all[i - 1] < all[i]
              {
                assert all[i] == rest.snapshots[i - 1];
                ProperPrefixTransitive(full, grown, all[i]);
              }
            }
          }
          Decoded(all, rest.outcome)
  }

  /** `stream_ollama` over an already fetched body: the accumulator starts empty. */
  function Decode(lines: seq<Line>): (d: Decoded)
    ensures d.outcome.Ended? || d.outcome.ProtocolError?
    ensures Growing(d.snapshots, "")
  {
    DecodeFrom(lines, "")
  }

  /** `stream_ollama` including the HTTP call: a failed call raises before any line is
      read, otherwise the body is decoded. */
  function StreamOllama(reply: Response): (d: Decoded)
    ensures reply.HttpFailure? ==> d == Decoded([], TransportError(reply.error))
    ensures reply.Body? ==> d.snapshots == Accumulate("", Chunks(Read(reply.lines)))
    ensures reply.Body? ==> d.outcome == ExpectedOutcome(reply.lines)
  {
    match reply
    case HttpFailure(e) => Decoded([], TransportError(e))
    case Body(lines) =>
      DecodeMatchesReference(lines, "");
      Decode(lines)
  }

  /** The reference sequence of snapshots: after the i-th chunk, `base` followed by the
      first i + 1 chunks. */
  function Accumulate(base: string, chunks: seq<string>): (s: seq<string>)
    ensures |s| == |chunks|
  {
    seq(|chunks|, i requires 0 <= i < |chunks| => base + Concat(chunks[..i + 1]))
  }

  /** The reference outcome: a protocol error exactly when the loop stops on a
      malformed line. */
  function ExpectedOutcome(lines: seq<Line>): Outcome {
    if FailsOn(lines) then ProtocolError(FailureText(lines)) else Ended
  }

  /** Putting one chunk in front of the list adds its snapshot in front and shifts the
      base of the others. */
  lemma AccumulateCons(base: string, c: string, cs: seq<string>)
    ensures Accumulate(base, [c] + cs) == [base + c] + Accumulate(base + c, cs)
  {
    var lhs := Accumulate(base, [c] + cs);
    var rhs := [base + c] + Accumulate(base + c, cs);
    forall i | 0 <= i < |lhs|
      ensures lhs[i] == rhs[i]
    {
      var prefix := ([c] + cs)[..i + 1];
      assert prefix[0] == c && prefix[1..] == cs[..i];
      assert Concat(prefix) == c + Concat(cs[..i]);
      if i == 0 {
        assert Concat(cs[..0]) == "";
      }
    }
  }

  /** The decoder yields exactly the reference snapshots and ends with the reference
      outcome. */
  lemma {:induction false} DecodeMatchesReference(lines: seq<Line>, full: string)
    ensures DecodeFrom(lines, full).snapshots == Accumulate(full, Chunks(Read(lines)))
    ensures DecodeFrom(lines, full).outcome == ExpectedOutcome(lines)
    decreases |lines|
  {
    if |lines| == 0 {
      assert Read(lines) == [];
    } else {
      var l := lines[0];
      var rest := lines[1..];
      assert lines == [l] + rest;
      if Stops(l) {
        ReadStop(l, rest);
        assert [l][1..] == [];
        if Fragment(l) != "" {
          assert Chunks([l]) == [Fragment(l)];
          assert Concat([Fragment(l)][..1]) == Fragment(l) + Concat([]);
        } else {
          assert Chunks([l]) == [] + Chunks([]);
        }
      } else {
        ReadPast(l, rest);
        AnswerPast(l, rest);
        var grown := if Fragment(l) != "" then full + Fragment(l) else full;
        DecodeMatchesReference(rest, grown);
        if Fragment(l) != "" {
          assert DecodeFrom(lines, full).snapshots == [grown] + DecodeFrom(rest, grown).snapshots;
          AccumulateCons(full, Fragment(l), Chunks(Read(rest)));
          assert Chunks(Read(lines)) == [Fragment(l)] + Chunks(Read(rest));
          assert grown == full + Fragment(l);
        } else {
          assert DecodeFrom(lines, full) == DecodeFrom(rest, full);
          assert Chunks(Read(lines)) == Chunks(Read(rest));
        }
      }
    }
  }

  /** The snapshots are one per non-empty fragment read, and the last of them is the
      whole answer; when no fragment is read nothing is yielded and the answer is empty. */
  lemma LastSnapshotIsAnswer(lines: seq<Line>)
    ensures |Decode(lines).snapshots| == |Chunks(Read(lines))|
    ensures |Decode(lines).snapshots| == 0 ==> FinalAnswer(lines) == ""
    ensures |Decode(lines).snapshots| > 0 ==>
      Decode(lines).snapshots[|Decode(lines).snapshots| - 1] == FinalAnswer(lines)
  {
    DecodeMatchesReference(lines, "");
    var cs := Chunks(Read(lines));
    assert cs[..|cs|] == cs;
  }

  lemma {:induction false} SilentFrom(a: seq<Line>, l: Line, b: seq<Line>, full: string)
    requires Silent(l)
    ensures DecodeFrom(a + [l] + b, full) == DecodeFrom(a + b, full)
    decreases |a|
  {
    if |a| == 0 {
      assert a + [l] + b == [l] + b && ([l] + b)[1..] == b;
      assert a + b == b;
    } else {
      var x := a[0];
      assert (a + [l] + b)[0] == x && (a + [l] + b)[1..] == a[1..] + [l] + b;
      assert (a + b)[0] == x && (a + b)[1..] == a[1..] + b;
      var grown := if Fragment(x) != "" then full + Fragment(x) else full;
      SilentFrom(a[1..], l, b, grown);
    }
  }

  /** A blank line, or a record with no content that does not end the stream, can be
      removed from anywhere in the body without changing what is yielded or how the
      stream ends. */
  lemma SilentLineIgnored(a: seq<Line>, l: Line, b: seq<Line>)
    requires Silent(l)
    ensures Decode(a + [l] + b) == Decode(a + b)
  {
    SilentFrom(a, l, b, "");
  }

  lemma {:induction false} StopFrom(a: seq<Line>, b: seq<Line>, full: string)
    requires Terminated(a)
    ensures DecodeFrom(a + b, full) == DecodeFrom(a, full)
    decreases |a|
  {
    var x := a[0];
    assert (a + b)[0] == x && (a + b)[1..] == a[1..] + b;
    if !Stops(x) {
      var i :| 0 <= i < |a| && Stops(a[i]);
      assert a[1..][i - 1] == a[i];
      var grown := if Fragment(x) != "" then full + Fragment(x) else full;
      StopFrom(a[1..], b, grown);
    }
  }

  /** Once the body holds a done record or a malformed line, whatever follows it is
      never looked at. */
  lemma IgnoresAfterStop(a: seq<Line>, b: seq<Line>)
    requires Terminated(a)
    ensures Decode(a + b) == Decode(a)
  {
    StopFrom(a, b, "");
  }

  lemma {:induction false} EmptyDoneFrom(a: seq<Line>, c: Option<string>, b: seq<Line>, full: string)
    requires !Terminated(a)
    requires c.GetOr("") == ""
    ensures DecodeFrom(a + [Frame(c, true)] + b, full) == Decoded(DecodeFrom(a, full).snapshots, Ended)
    decreases |a|
  {
    var done := Frame(c, true);
    if |a| == 0 {
      assert a + [done] + b == [done] + b;
    } else {
      var x := a[0];
      assert !Stops(x);
      assert (a + [done] + b)[0] == x && (a + [done] + b)[1..] == a[1..] + [done] + b;
      assert !Terminated(a[1..]);
      var grown := if Fragment(x) != "" then full + Fragment(x) else full;
      EmptyDoneFrom(a[1..], c, b, grown);
    }
  }

  /** A done record with no content ends the stream cleanly and keeps every snapshot
      yielded before it. */
  lemma EmptyDoneKeepsText(a: seq<Line>, c: Option<string>, b: seq<Line>)
    requires !Terminated(a)
    requires c.GetOr("") == ""
    ensures Decode(a + [Frame(c, true)] + b) == Decoded(Decode(a).snapshots, Ended)
  {
    EmptyDoneFrom(a, c, b, "");
  }

  /** Blank lines between records: fragments "A" and "B" yield "A" then "AB". */
  lemma BlankSeparatedExample()
    ensures Decode([Blank, Frame(Some("A"), false), Blank, Frame(Some("B"), true)])
         == Decoded(["A", "AB"], Ended)
  {
    var b := Frame(Some("B"), true);
    assert "A" + "B" == "AB";
    assert DecodeFrom([b], "A") == Decoded(["AB"], Ended);
    assert DecodeFrom([Blank, b], "A") == Decoded(["AB"], Ended);
    assert "" + "A" == "A";
    assert [Frame(Some("A"), false), Blank, b][1..] == [Blank, b];
    assert DecodeFrom([Frame(Some("A"), false), Blank, b], "") == Decoded(["A", "AB"], Ended);
  }

  /** A malformed line after "Hi" and " there": both snapshots were yielded before the
      error, and the record after the error is never read. */
  lemma MalformedAfterTwoFragmentsExample(e: string)
    ensures Decode([Frame(Some("Hi"), false), Frame(Some(" there"), false), Malformed(e), Frame(Some("!"), true)])
         == Decoded(["Hi", "Hi there"], ProtocolError(e))
  {
    var tail := [Malformed(e), Frame(Some("!"), true)];
    assert DecodeFrom(tail, "Hi there") == Decoded([], ProtocolError(e));
    assert "Hi" + " there" == "Hi there";
    assert DecodeFrom([Frame(Some(" there"), false)] + tail, "Hi") == Decoded(["Hi there"], ProtocolError(e));
    var lines := [Frame(Some("Hi"), false), Frame(Some(" there"), false)] + tail;
    assert lines == [Frame(Some("Hi"), false), Frame(Some(" there"), false), Malformed(e), Frame(Some("!"), true)];
    assert lines[1..] == [Frame(Some(" there"), false)] + tail;
    assert "" + "Hi" == "Hi";
    assert DecodeFrom(lines, "") == Decoded(["Hi", "Hi there"], ProtocolError(e));
  }
}
