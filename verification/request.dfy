/**
 * Building the generation request (tiny-notepad.py, `stream_ollama_response`,
 * the parameter block and the payload dictionary).
 */
module Request {
  import opened Common
  import Text

  /** A sampling parameter after a successful parse. Its numeric value is
      opaque here: it is passed through to the payload untouched. */
  datatype Number = Number(literal: string)

  /** What reading and converting one sampling control produced. */
  datatype Parse = Parsed(value: Number) | Unparseable(error: string)

  /** The raw state of the parameter controls when the worker starts. */
  datatype Controls = Controls(
    temperature: Parse,
    topP: Parse,
    topK: Parse,
    repeatPenalty: Parse,
    presencePenalty: Parse,
    frequencyPenalty: Parse,
    stopText: string)

  /** The six converted numeric parameters. */
  datatype Numbers = Numbers(
    temperature: Number,
    topP: Number,
    topK: Number,
    repeatPenalty: Number,
    presencePenalty: Number,
    frequencyPenalty: Number)

  /** The parsed parameter set. `stop` is `None` when no stop list is sent. */
  datatype Sampling = Sampling(numbers: Numbers, stop: Option<seq<string>>)

  /** The six numeric controls in the order the worker converts them. */
  function Numeric(c: Controls): seq<Parse> {
    [c.temperature, c.topP, c.topK, c.repeatPenalty, c.presencePenalty, c.frequencyPenalty]
  }

  /** The six numeric values in the same order as `Numeric`. */
  function Values(p: Numbers): seq<Number> {
    [p.temperature, p.topP, p.topK, p.repeatPenalty, p.presencePenalty, p.frequencyPenalty]
  }

  function StripEach(parts: seq<string>): (r: seq<string>)
    ensures |r| == |parts|
    ensures forall i :: 0 <= i < |r| ==> r[i] == Text.Strip(parts[i])
    decreases |parts|
  {
    if parts == [] then [] else [Text.Strip(parts[0])] + StripEach(parts[1..])
  }

  /** The stop-sequence field: stripped as a whole, then (when anything is
      left) cut at every comma, each piece stripped again. */
  function ParseStop(input: string): (r: Option<seq<string>>)
    ensures r.None? <==> Text.AllSpace(input)
    ensures r.Some? ==> |r.value| == Text.Count(input, ',') + 1
    ensures r.Some? ==> Text.SeparatorFree(r.value, ',')
    ensures r.Some? ==> forall i :: 0 <= i < |r.value| ==> Text.Stripped(r.value[i])
  {
    var trimmed := Text.Strip(input);
    if trimmed == [] then None
    else
      StopEntries(input);
      Some(StripEach(Text.Split(trimmed, ',')))
  }

  /** The entries cut from a non-blank stop field: one more than its commas,
      none containing a comma, each stripped. */
  lemma StopEntries(input: string)
    ensures var entries := StripEach(Text.Split(Text.Strip(input), ','));
            && |entries| == Text.Count(input, ',') + 1
            && Text.SeparatorFree(entries, ',')
            && forall i :: 0 <= i < |entries| ==> Text.Stripped(entries[i])
  {
    var parts := Text.Split(Text.Strip(input), ',');
    Text.CountStrip(input, ',');
    var entries := StripEach(parts);
    forall i | 0 <= i < |entries| ensures ',' !in entries[i] {
      StripSubstring(parts[i]);
    }
  }

  /** Whatever `strip` returns is made of characters of its input. */
  lemma StripSubstring(s: string)
    ensures forall c :: c in Text.Strip(s) ==> c in s
  {
    var t := Text.TrimStart(s);
    assert forall c :: c in t ==> c in s by {
      assert t == s[|s| - |t|..];
    }
    var r := Text.TrimEnd(t);
    assert r == t[..|r|];
  }

  /** The stop list is exactly the stripped comma-separated pieces of the
      stripped input, in order: any way of cutting the input into comma-free
      pieces gives this same list. */
  lemma ParseStopPieces(input: string, pieces: seq<string>)
    requires |pieces| >= 1 && Text.SeparatorFree(pieces, ',')
    requires Text.Join(pieces, ',') == Text.Strip(input)
    requires !Text.AllSpace(input)
    ensures ParseStop(input) == Some(StripEach(pieces))
  {
    Text.SplitJoin(pieces, ',');
  }

  /** The worked example `"a, ,b"` gives `["a", "", "b"]`, for any two
      visible non-comma characters in place of `a` and `b`: the blank middle
      entry is kept as an empty stop sequence. */
  lemma ParseStopExample(a: char, b: char)
    requires !Text.IsSpace(a) && !Text.IsSpace(b) && a != ',' && b != ','
    ensures ParseStop([a, ',', ' ', ',', b]) == Some([[a], "", [b]])
  {
    ExampleJoin(a, b);
    ExampleStripped(a, b);
    ParseStopPieces([a, ',', ' ', ',', b], [[a], " ", [b]]);
    ExampleEntries(a, b);
  }

  /** The example with its own letters. */
  lemma ParseStopLiteral()
    ensures ParseStop("a, ,b") == Some(["a", "", "b"])
  {
    assert !Text.IsSpace('a') && !Text.IsSpace('b');
    ParseStopExample('a', 'b');
  }

  lemma ExampleJoin(a: char, b: char)
    requires a != ',' && b != ','
    ensures Text.Join([[a], " ", [b]], ',') == [a, ',', ' ', ',', b]
    ensures Text.SeparatorFree([[a], " ", [b]], ',')
  {
    var pieces := [[a], " ", [b]];
    assert Text.Join(pieces[2..], ',') == [b];
    assert Text.Join(pieces[1..], ',') == [' ', ',', b];
  }

  lemma ExampleStripped(a: char, b: char)
    requires !Text.IsSpace(a) && !Text.IsSpace(b)
    ensures Text.Strip([a, ',', ' ', ',', b]) == [a, ',', ' ', ',', b]
    ensures !Text.AllSpace([a, ',', ' ', ',', b])
  {
    var input := [a, ',', ' ', ',', b];
    assert Text.Stripped(input);
    StrippedLiteral(input);
  }

  lemma ExampleEntries(a: char, b: char)
    requires !Text.IsSpace(a) && !Text.IsSpace(b)
    ensures StripEach([[a], " ", [b]]) == [[a], "", [b]]
  {
    StrippedLiteral([a]);
    StrippedLiteral([b]);
    assert Text.AllSpace(" ");
    var e := StripEach([[a], " ", [b]]);
    assert e[0] == [a] && e[1] == "" && e[2] == [b];
  }

  /** A string with no whitespace at either end is left alone by `strip`. */
  lemma StrippedLiteral(s: string)
    requires Text.Stripped(s)
    ensures Text.Strip(s) == s
  {
    Text.StripUnique([], s, []);
    assert [] + s + [] == s;
  }

  /** The message of the first field that failed to convert, scanning in order. */
  function FirstFailure(fields: seq<Parse>): (r: Option<string>)
    ensures r.None? <==> forall i :: 0 <= i < |fields| ==> fields[i].Parsed?
    ensures r.Some? ==> exists k :: 0 <= k < |fields| && fields[k] == Unparseable(r.value)
                                   && forall j :: 0 <= j < k ==> fields[j].Parsed?
  {
    if fields == [] then None
    else if fields[0].Unparseable? then Some(fields[0].error)
    else
      var r := FirstFailure(fields[1..]);
      assert r.Some? ==> exists k :: 1 <= k < |fields| && fields[k] == Unparseable(r.value)
                                     && forall j :: 0 <= j < k ==> fields[j].Parsed? by {
        if r.Some? {
          var k :| 0 <= k < |fields[1..]| && fields[1..][k] == Unparseable(r.value)
                   && forall j :: 0 <= j < k ==> fields[1..][j].Parsed?;
          assert forall j :: 1 <= j < k + 1 ==> fields[j] == fields[1..][j - 1];
        }
      }
      r
  }

  /** Converts the numeric controls in source order; the first control that
      fails aborts with its message. */
  function ParseNumbers(c: Controls): (r: Result<Numbers>)
    ensures r.Success? <==> forall i :: 0 <= i < 6 ==> Numeric(c)[i].Parsed?
    ensures r.Failure? ==> exists k :: 0 <= k < 6 && Numeric(c)[k] == Unparseable(r.error)
                                      && forall j :: 0 <= j < k ==> Numeric(c)[j].Parsed?
    ensures r.Success? ==> forall i :: 0 <= i < 6 ==> Values(r.value)[i] == Numeric(c)[i].value
  {
    match FirstFailure(Numeric(c))
    case Some(e) => Failure(e)
    case None =>
      var f := Numeric(c);
      assert f[0].Parsed? && f[1].Parsed? && f[2].Parsed? && f[3].Parsed? && f[4].Parsed? && f[5].Parsed?;
      Success(Numbers(f[0].value, f[1].value, f[2].value, f[3].value, f[4].value, f[5].value))
  }

  /** The whole parameter block: the numeric controls, then the stop field,
      which cannot fail. */
  function ParseControls(c: Controls): (r: Result<Sampling>)
    ensures r.Failure? <==> ParseNumbers(c).Failure?
    ensures r.Failure? ==> r.error == ParseNumbers(c).error
    ensures r.Success? ==> r.value == Sampling(ParseNumbers(c).value, ParseStop(c.stopText))
  {
    match ParseNumbers(c)
    case Failure(e) => Failure(e)
    case Success(n) => Success(Sampling(n, ParseStop(c.stopText)))
  }

  /** A JSON value as it appears in the request body. */
  datatype Json = JString(s: string) | JBool(b: bool) | JNumber(n: Number) | JStrings(items: seq<string>)

  type Payload = map<string, Json>

  /** The payload keys of the numeric controls, in the order of `Numeric`. */
  const NumericKeys: seq<string> := ["temperature", "top_p", "top_k", "repeat_penalty",
                                     "presence_penalty", "frequency_penalty"]

  /** The keys every request carries. */
  const BaseKeys: set<string> := {"model", "prompt", "stream", "temperature", "top_p", "top_k",
                                  "repeat_penalty", "presence_penalty", "frequency_penalty"}

  /** The request body. `stop` is added only for a non-empty stop list. */
  function BuildPayload(model: string, prompt: string, p: Sampling): (r: Payload)
    ensures BaseKeys <= r.Keys
    ensures "stop" in r <==> p.stop.Some? && p.stop.value != []
    ensures r.Keys <= BaseKeys + {"stop"}
    ensures r["model"] == JString(model) && r["prompt"] == JString(prompt)
    ensures r["stream"] == JBool(true)
    ensures "stop" in r ==> r["stop"].JStrings? && r["stop"].items != []
  {
    var base := map[
      "model" := JString(model),
      "prompt" := JString(prompt),
      "stream" := JBool(true),
      "temperature" := JNumber(p.numbers.temperature),
      "top_p" := JNumber(p.numbers.topP),
      "top_k" := JNumber(p.numbers.topK),
      "repeat_penalty" := JNumber(p.numbers.repeatPenalty),
      "presence_penalty" := JNumber(p.numbers.presencePenalty),
      "frequency_penalty" := JNumber(p.numbers.frequencyPenalty)
    ];
    if p.stop.Some? && p.stop.value != [] then base["stop" := JStrings(p.stop.value)] else base
  }

  /** Each sampling value is carried under its own key. */
  lemma PayloadCarriesSampling(model: string, prompt: string, p: Sampling)
    ensures var r := BuildPayload(model, prompt, p);
            forall i :: 0 <= i < 6 ==> r[NumericKeys[i]] == JNumber(Values(p.numbers)[i])
  {
  }

  /** Combining the stop parser with the payload: the key is present exactly
      when the stop field holds something besides whitespace, and then it is
      never an empty list. */
  lemma StopKeyPresence(model: string, prompt: string, c: Controls)
    requires ParseControls(c).Success?
    ensures var r := BuildPayload(model, prompt, ParseControls(c).value);
            && ("stop" in r <==> !Text.AllSpace(c.stopText))
            && ("stop" in r ==> r["stop"] == JStrings(ParseStop(c.stopText).value))
            && ("stop" in r ==> |r["stop"].items| == Text.Count(c.stopText, ',') + 1)
  {
  }
}
