/**
 * Consuming the streamed generation reply (tiny-notepad.py,
 * `stream_ollama_response`, the `requests.post` block). The byte stream has
 * already been cut into lines; each line is classified by what the loop body
 * does with it.
 */
module Stream {
  import opened Common

  /** One line yielded by the reply's line iterator. */
  datatype Line =
    /** An empty line: skipped. */
    | Blank
    /** Not valid JSON: the decode error is caught and the line skipped. */
    | Malformed
    /** Not valid UTF-8: the text-decoding error is not a JSON decode error,
        so it escapes the loop. */
    | Undecodable(error: string)
    /** A JSON object, with its `response` member if it has one (a number or
        other non-null value is carried as the text it displays as); `done`
        is whatever the server sent. */
    | Record(response: Option<string>, done: bool)
    /** A JSON object whose `response` is `null`: the lookup yields `None`
        rather than the default, and inserting `None` into the text widget
        raises, so the error escapes the loop. */
    | NullResponse(error: string)
    /** Valid JSON that is not an object: looking up `response` raises. */
    | NonObject(error: string)

  /** How the reply ends once its lines are exhausted: closed normally, or
      with a transport error (a refused connection is a reply with no lines
      that ends this way). */
  datatype End = Closed | Broken(error: string)

  datatype Reply = Reply(lines: seq<Line>, end: End)

  /** Lines the loop skips over. */
  predicate Ignorable(l: Line) {
    l.Blank? || l.Malformed?
  }

  /** Lines whose processing raises out of the loop. */
  predicate Fatal(l: Line) {
    l.Undecodable? || l.NonObject? || l.NullResponse?
  }

  function FatalError(l: Line): string
    requires Fatal(l)
  {
    l.error
  }

  /** The text a line contributes: its `response`, or nothing. */
  function Delta(l: Line): string {
    if l.Record? then l.response.GetOr("") else ""
  }

  predicate NoFatal(lines: seq<Line>) {
    forall i :: 0 <= i < |lines| ==> !Fatal(lines[i])
  }

  /** Every line's contribution, in order (a reference definition that knows
      nothing about where the loop stops). */
  function Streamed(lines: seq<Line>): string {
    if lines == [] then "" else Delta(lines[0]) + Streamed(lines[1..])
  }

  const Newline: string := "\n"

  /** The tail written when an exception escapes the reading loop: the
      exception's text in brackets on a line of its own. */
  function ErrorTail(e: string): string {
    "\n[Error connecting to Ollama: " + e + "]\n"
  }

  /** What the reading loop has appended, and the error that stopped it early, if any. */
  datatype Progress = Progress(text: string, fault: Option<string>)

  /** The reading loop over the lines alone: a fault is reported exactly when
      some line raises, and the text appended so far is always a prefix of
      what the whole run would contribute. */
  function Consume(lines: seq<Line>): (p: Progress)
    ensures p.fault.None? <==> NoFatal(lines)
    ensures p.text <= Streamed(lines)
  {
    if lines == [] then Progress("", None)
    else if Fatal(lines[0]) then Progress("", Some(FatalError(lines[0])))
    else
      var rest := Consume(lines[1..]);
      NoFatalCons(lines);
      Progress(Delta(lines[0]) + rest.text, rest.fault)
  }

  lemma NoFatalCons(lines: seq<Line>)
    requires lines != []
    ensures NoFatal(lines) <==> !Fatal(lines[0]) && NoFatal(lines[1..])
  {
    if !Fatal(lines[0]) && NoFatal(lines[1..]) {
      forall i | 0 <= i < |lines|
        ensures !Fatal(lines[i])
      {
        if i > 0 { assert lines[i] == lines[1..][i - 1]; }
      }
    }
  }

  /** Everything the worker appends for one reply: the streamed text, then a
      single newline on a clean end or the error tail otherwise. */
  function Render(reply: Reply): (r: string)
    ensures Consume(reply.lines).text <= r
  {
    var p := Consume(reply.lines);
    p.text + match p.fault
             case Some(e) => ErrorTail(e)
             case None => (match reply.end
                           case Closed => Newline
                           case Broken(e) => ErrorTail(e))
  }

  /** The reading loop as written: one pass over the lines, appending as it goes. */
  method Pump(reply: Reply) returns (out: string)
    ensures out == Render(reply)
  {
    var lines := reply.lines;
    out := "";
    var i := 0;
    var fault: Option<string> := None;
    while i < |lines| && fault.None?
      invariant 0 <= i <= |lines|
      invariant fault.None? ==> NoFatal(lines[..i]) && out == Streamed(lines[..i])
      invariant fault.Some? ==> 0 < i && Fatal(lines[i - 1]) && fault.value == FatalError(lines[i - 1])
      invariant fault.Some? ==> NoFatal(lines[..i - 1]) && out == Streamed(lines[..i - 1])
      decreases |lines| - i
    {
      var line := lines[i];
      if Fatal(line) {
        fault := Some(FatalError(line));
      } else {
        PrefixStep(lines, i);
        out := out + Delta(line);
      }
      i := i + 1;
    }
    if fault.None? {
      assert lines[..i] == lines;
      ConsumeAll(lines);
    } else {
      ConsumeUntilFatal(lines, i - 1);
    }
    match fault {
      case Some(e) =>
        out := out + ErrorTail(e);
      case None =>
        match reply.end {
          case Closed => out := out + Newline;
          case Broken(e) => out := out + ErrorTail(e);
        }
    }
  }

  /** One more line that does not raise extends the raise-free prefix and its text. */
  lemma PrefixStep(lines: seq<Line>, i: nat)
    requires i < |lines| && !Fatal(lines[i]) && NoFatal(lines[..i])
    ensures NoFatal(lines[..i + 1])
    ensures Streamed(lines[..i + 1]) == Streamed(lines[..i]) + Delta(lines[i])
  {
    assert lines[..i + 1] == lines[..i] + [lines[i]];
    StreamedAppend(lines[..i], [lines[i]]);
    assert Streamed([lines[i]]) == Delta(lines[i]) + Streamed([]);
  }

  lemma {:induction false} StreamedAppend(a: seq<Line>, b: seq<Line>)
    ensures Streamed(a + b) == Streamed(a) + Streamed(b)
    decreases |a|
  {
    if a != [] {
      assert (a + b)[1..] == a[1..] + b;
      StreamedAppend(a[1..], b);
    } else {
      assert a + b == b;
    }
  }

  /** With no line that raises, the loop reads every line and appends every
      contribution in stream order. */
  lemma {:induction false} ConsumeAll(lines: seq<Line>)
    requires NoFatal(lines)
    ensures Consume(lines) == Progress(Streamed(lines), None)
    decreases |lines|
  {
    if lines != [] {
      assert !Fatal(lines[0]);
      ConsumeAll(lines[1..]);
    }
  }

  /** The first line that raises stops the loop: the text of the lines before
      it stays, and nothing after it is read. */
  lemma {:induction false} ConsumeUntilFatal(lines: seq<Line>, k: nat)
    requires k < |lines| && Fatal(lines[k]) && NoFatal(lines[..k])
    ensures Consume(lines) == Progress(Streamed(lines[..k]), Some(FatalError(lines[k])))
    decreases k
  {
    if k > 0 {
      assert !Fatal(lines[..k][0]);
      assert lines[1..][..k - 1] == lines[..k][1..];
      ConsumeUntilFatal(lines[1..], k - 1);
    }
  }

  /** On a normal end, exactly one newline follows the streamed text. */
  lemma NormalEnd(lines: seq<Line>)
    requires NoFatal(lines)
    ensures Render(Reply(lines, Closed)) == Streamed(lines) + "\n"
  {
    ConsumeAll(lines);
  }

  /** A transport error after the lines keeps the text already shown and
      appends the error tail instead of the newline. */
  lemma BrokenEnd(lines: seq<Line>, e: string)
    requires NoFatal(lines)
    ensures Render(Reply(lines, Broken(e))) == Streamed(lines) + ErrorTail(e)
  {
    ConsumeAll(lines);
  }

  /** A line that raises ends the reply with the error tail, whatever follows it. */
  lemma FatalEnd(lines: seq<Line>, k: nat, end: End)
    requires k < |lines| && Fatal(lines[k]) && NoFatal(lines[..k])
    ensures Render(Reply(lines, end)) == Streamed(lines[..k]) + ErrorTail(FatalError(lines[k]))
  {
    ConsumeUntilFatal(lines, k);
  }

  /** A `null` response does not fall back to the empty default: it ends the
      reply with the error tail, keeping the text before it. */
  lemma NullResponseEnds(a: seq<Line>, e: string, b: seq<Line>, end: End)
    requires NoFatal(a)
    ensures Render(Reply(a + [NullResponse(e)] + b, end)) == Streamed(a) + ErrorTail(e)
  {
    var lines := a + [NullResponse(e)] + b;
    assert lines[..|a|] == a;
    assert lines[|a|] == NullResponse(e);
    FatalEnd(lines, |a|, end);
  }

  /** Blank and undecodable-as-JSON lines may be inserted anywhere without
      changing what is shown. */
  lemma {:induction false} SkipIgnorable(a: seq<Line>, l: Line, b: seq<Line>)
    requires Ignorable(l)
    ensures Consume(a + [l] + b) == Consume(a + b)
    decreases |a|
  {
    if a == [] {
      assert a + [l] + b == [l] + b;
      assert ([l] + b)[1..] == b;
      assert a + b == b;
    } else {
      assert (a + [l] + b)[1..] == a[1..] + [l] + b;
      assert (a + b)[1..] == a[1..] + b;
      assert (a + [l] + b)[0] == (a + b)[0] == a[0];
      SkipIgnorable(a[1..], l, b);
    }
  }

  /** Two lines that differ at most in their `done` flag. */
  predicate SameButDone(l: Line, m: Line) {
    l == m || (l.Record? && m.Record? && l.response == m.response)
  }

  /** The `done` flag is never consulted: changing it on any line changes
      nothing, so reading goes on until the reply ends. */
  lemma {:induction false} DoneIgnored(xs: seq<Line>, ys: seq<Line>)
    requires |xs| == |ys|
    requires forall i :: 0 <= i < |xs| ==> SameButDone(xs[i], ys[i])
    ensures Consume(xs) == Consume(ys)
    decreases |xs|
  {
    if xs != [] {
      assert SameButDone(xs[0], ys[0]);
      DoneIgnored(xs[1..], ys[1..]);
    }
  }

  /** Inserting one malformed line among valid records yields exactly the
      records' text, in their order, and a clean end. */
  lemma OneMalformed(a: seq<Line>, b: seq<Line>)
    requires forall i :: 0 <= i < |a| ==> a[i].Record?
    requires forall i :: 0 <= i < |b| ==> b[i].Record?
    ensures Render(Reply(a + [Malformed] + b, Closed)) == Streamed(a) + Streamed(b) + "\n"
  {
    SkipIgnorable(a, Malformed, b);
    assert NoFatal(a + b) by {
      forall i | 0 <= i < |a + b| ensures !Fatal((a + b)[i]) {
        if i < |a| { assert (a + b)[i] == a[i]; } else { assert (a + b)[i] == b[i - |a|]; }
      }
    }
    ConsumeAll(a + b);
    StreamedAppend(a, b);
  }

  /** Three records, "Hi", " there" and a final empty one flagged done, then a
      clean close: the consumer sees "Hi there" and the closing newline. */
  lemma HiThere()
    ensures Render(Reply([Record(Some("Hi"), false), Record(Some(" there"), false), Record(Some(""), true)], Closed))
            == "Hi there\n"
  {
    var lines := [Record(Some("Hi"), false), Record(Some(" there"), false), Record(Some(""), true)];
    assert lines[1..][1..] == [Record(Some(""), true)];
    NormalEnd(lines);
  }

  /** A reply whose objects carry no `response` (an error body from the
      server, say) shows nothing but the newline. */
  lemma SilentObjects(lines: seq<Line>)
    requires forall i :: 0 <= i < |lines| ==> lines[i].Record? && lines[i].response.None?
    ensures Render(Reply(lines, Closed)) == "\n"
  {
    SilentStreamed(lines);
    NormalEnd(lines);
  }

  lemma {:induction false} SilentStreamed(lines: seq<Line>)
    requires forall i :: 0 <= i < |lines| ==> lines[i].Record? && lines[i].response.None?
    ensures NoFatal(lines) && Streamed(lines) == ""
    decreases |lines|
  {
    if lines != [] {
      SilentStreamed(lines[1..]);
      assert forall i :: 1 <= i < |lines| ==> lines[i] == lines[1..][i - 1];
    }
  }
}
