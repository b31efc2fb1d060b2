/** The meaning of a streamed response body, stated independently of the loops that
    decode it: how many lines are read, which fragments are appended, and what the
    finished answer is. */
module Frames {
  import opened Wrappers
  import opened Wire

  /** The text a line contributes: `obj.get("message", {}).get("content", "")` for a
      record, nothing for a blank or malformed line. */
  function Fragment(l: Line): string {
    if l.Frame? then l.content.GetOr("") else ""
  }

  /** A line after which nothing more is read: a parse failure raises, a done record breaks. */
  predicate Stops(l: Line) {
    l.Malformed? || (l.Frame? && l.done)
  }

  /** Some line of `lines` ends the read loop. */
  predicate Terminated(lines: seq<Line>) {
    exists i :: 0 <= i < |lines| && Stops(lines[i])
  }

  /** A line that leaves the accumulator and the yielded sequence as they were:
      a blank line, or a record with no content that does not end the stream. */
  predicate Silent(l: Line) {
    l.Blank? || (l.Frame? && !l.done && Fragment(l) == "")
  }

  /** The number of lines the read loop consumes: everything up to and including the
      first stopping line, or the whole body when no line stops it. */
  function ReadCount(lines: seq<Line>): (n: nat)
    ensures n <= |lines|
    ensures forall i :: 0 <= i < n - 1 ==> !Stops(lines[i])
    ensures n < |lines| ==> 0 < n && Stops(lines[n - 1])
    ensures Terminated(lines) <==> 0 < n && Stops(lines[n - 1])
  {
    if |lines| == 0 then 0
    else if Stops(lines[0]) then 1
    else
      var rest := lines[1..];
      var m := ReadCount(rest);
      assert forall i :: 0 <= i < |rest| ==> rest[i] == lines[i + 1];
      assert Terminated(lines) ==> Terminated(rest) by {
        if Terminated(lines) {
          var i :| 0 <= i < |lines| && Stops(lines[i]);
          assert Stops(rest[i - 1]);
        }
      }
      1 + m
  }

  /** The lines the loop actually looks at. */
  function Read(lines: seq<Line>): seq<Line> {
    lines[..ReadCount(lines)]
  }

  /** The non-empty fragments of `lines`, in order: the only ones the loop appends. */
  function Chunks(lines: seq<Line>): (cs: seq<string>)
    ensures |cs| <= |lines|
    ensures forall i :: 0 <= i < |cs| ==> cs[i] != ""
  {
    if |lines| == 0 then [] else Own(lines[0]) + Chunks(lines[1..])
  }

  /** The fragments one line contributes to `Chunks`: its fragment, unless that is empty. */
  function Own(l: Line): seq<string> {
    if Fragment(l) == "" then [] else [Fragment(l)]
  }

  /** The strings of `ss` joined end to end. */
  function Concat(ss: seq<string>): string {
    if |ss| == 0 then "" else ss[0] + Concat(ss[1..])
  }

  /** The complete answer a body carries: the non-empty fragments of the lines read, joined. */
  function FinalAnswer(lines: seq<Line>): string {
    Concat(Chunks(Read(lines)))
  }

  /** The read loop ends on a line that fails to parse. */
  predicate FailsOn(lines: seq<Line>) {
    var n := ReadCount(lines);
    0 < n && lines[n - 1].Malformed?
  }

  /** The parse error the loop raises, when it raises one. */
  function FailureText(lines: seq<Line>): string
    requires FailsOn(lines)
  {
    lines[ReadCount(lines) - 1].error
  }

  /** Reading past a line that does not stop the loop: the read and the failure are
      those of the rest of the body, with this line in front. */
  lemma ReadPast(l: Line, rest: seq<Line>)
    requires !Stops(l)
    ensures ReadCount([l] + rest) == 1 + ReadCount(rest)
    ensures Read([l] + rest) == [l] + Read(rest)
    ensures FailsOn([l] + rest) == FailsOn(rest)
    ensures FailsOn(rest) ==> FailureText([l] + rest) == FailureText(rest)
  {
    var lines := [l] + rest;
    assert lines[1..] == rest;
  }

  lemma ChunksCons(l: Line, xs: seq<Line>)
    ensures Chunks([l] + xs) == Own(l) + Chunks(xs)
  {
    assert ([l] + xs)[0] == l && ([l] + xs)[1..] == xs;
  }

  lemma ConcatOwn(l: Line, cs: seq<string>)
    ensures Concat(Own(l) + cs) == Fragment(l) + Concat(cs)
  {
    if Fragment(l) == "" {
      assert Own(l) + cs == cs;
    } else {
      var all := Own(l) + cs;
      assert all[0] == Fragment(l) && all[1..] == cs;
    }
  }

  /** Past a line that does not stop the loop, the answer is that line's fragment
      followed by the answer of the rest of the body. */
  lemma AnswerPast(l: Line, rest: seq<Line>)
    requires !Stops(l)
    ensures Chunks(Read([l] + rest)) == Own(l) + Chunks(Read(rest))
    ensures FinalAnswer([l] + rest) == Fragment(l) + FinalAnswer(rest)
  {
    ReadPast(l, rest);
    ChunksCons(l, Read(rest));
    ConcatOwn(l, Chunks(Read(rest)));
  }

  /** Stopping at the first line: only that line is read. */
  lemma ReadStop(l: Line, rest: seq<Line>)
    requires Stops(l)
    ensures Read([l] + rest) == [l]
    ensures FinalAnswer([l] + rest) == Fragment(l)
    ensures FailsOn([l] + rest) == l.Malformed?
  {
    assert Read([l] + rest) == [l];
    ChunksCons(l, []);
    assert [l] + [] == [l] && Own(l) + [] == Own(l);
    ConcatOwn(l, []);
    assert Fragment(l) + "" == Fragment(l);
  }
}
