/**
 * One press of the Generate button (tiny-notepad.py, `generate_from_ollama`)
 * followed by the worker it hands the prompt to (`stream_ollama_response`).
 * The output area is an append-only string; the worker's network exchange is
 * the `Reply` it receives.
 */
module Session {
  import opened Common
  import Text
  import Request
  import Stream

  /** The parts of the window a submission reads and writes. */
  datatype Screen = Screen(output: string, entry: string)

  /** What the background worker is started with: the prompt as typed
      (not stripped) and the selected model. */
  datatype Job = Job(prompt: string, model: string)

  datatype Submission = Submission(screen: Screen, job: Option<Job>)

  /** The text echoed before any network work starts. */
  function Echo(prompt: string, model: string): string {
    "\nUser: " + prompt + "\n" + "Model (" + model + "): "
  }

  /** The button handler: a prompt that is blank after stripping is ignored;
      otherwise the stripped prompt and the model label are echoed, the entry
      is cleared and a worker is started with the unstripped prompt. */
  function Submit(s: Screen, model: string): (r: Submission)
    ensures r.job.None? <==> Text.AllSpace(s.entry)
    ensures r.job.None? ==> r.screen == s
    ensures r.job.Some? ==> r.job.value == Job(s.entry, model) && r.screen.entry == []
    ensures r.job.Some? ==> r.screen.output == s.output + Echo(Text.Strip(s.entry), model)
  {
    var prompt := Text.Strip(s.entry);
    if prompt == [] then Submission(s, None)
    else Submission(Screen(s.output + Echo(prompt, model), ""), Some(Job(s.entry, model)))
  }

  /** Since the entry is cleared, pressing the button again straight away
      is ignored: the prompt is not echoed twice. */
  lemma ResubmitIgnored(s: Screen, model: string, model': string)
    requires !Text.AllSpace(s.entry)
    ensures var first := Submit(s, model);
            Submit(first.screen, model') == Submission(first.screen, None)
  {
  }

  /** There is no in-flight guard: a new non-blank prompt is accepted while an
      earlier worker may still be streaming, and both workers run. */
  lemma NoSingleFlight(s: Screen, model: string, next: string)
    requires !Text.AllSpace(s.entry) && !Text.AllSpace(next)
    ensures var first := Submit(s, model);
            var second := Submit(Screen(first.screen.output, next), model);
            first.job == Some(Job(s.entry, model)) && second.job == Some(Job(next, model))
  {
  }

  /** What one worker run does: the text it appends and the request it sends, if any. */
  datatype Work = Work(appended: string, request: Option<Request.Payload>)

  function ParameterError(e: string): string {
    "\n[Parameter error: " + e + "]\n"
  }

  /** The worker: parse the controls (a failure appends one parameter error
      and sends nothing), then send the payload and render the reply. */
  function Worker(job: Job, controls: Request.Controls, reply: Stream.Reply): (w: Work)
    ensures w.request.None? <==> Request.ParseControls(controls).Failure?
    ensures w.request.None? ==> w.appended == ParameterError(Request.ParseControls(controls).error)
    ensures w.request.Some? ==> w.request.value == Request.BuildPayload(job.model, job.prompt, Request.ParseControls(controls).value)
    ensures w.request.Some? ==> w.appended == Stream.Render(reply)
  {
    match Request.ParseControls(controls)
    case Failure(e) => Work(ParameterError(e), None)
    case Success(p) => Work(Stream.Render(reply), Some(Request.BuildPayload(job.model, job.prompt, p)))
  }

  /** A submission and the worker it starts, run to completion (the worker's
      appends land after the echo; nothing else writes the output meanwhile). */
  function Generate(s: Screen, model: string, controls: Request.Controls, reply: Stream.Reply): (r: (Screen, Option<Request.Payload>))
    ensures s.output <= r.0.output
  {
    var sub := Submit(s, model);
    match sub.job
    case None => (sub.screen, None)
    case Some(job) =>
      var w := Worker(job, controls, reply);
      (Screen(sub.screen.output + w.appended, sub.screen.entry), w.request)
  }

  /** A blank prompt changes nothing and sends nothing. */
  lemma BlankPromptInert(s: Screen, model: string, controls: Request.Controls, reply: Stream.Reply)
    requires Text.AllSpace(s.entry)
    ensures Generate(s, model, controls, reply) == (s, None)
  {
  }

  /** A control that fails to parse: the echo is followed by exactly one
      parameter error naming the first failing control, and no request is sent. */
  lemma ParameterFailure(s: Screen, model: string, controls: Request.Controls, reply: Stream.Reply, k: nat)
    requires !Text.AllSpace(s.entry)
    requires k < 6 && Request.Numeric(controls)[k].Unparseable?
    requires forall j :: 0 <= j < k ==> Request.Numeric(controls)[j].Parsed?
    ensures var r := Generate(s, model, controls, reply);
            && r.1 == None
            && r.0.output == s.output + Echo(Text.Strip(s.entry), model)
                             + ParameterError(Request.Numeric(controls)[k].error)
  {
    var c := Request.ParseControls(controls);
    assert c.Failure?;
    var k' :| 0 <= k' < 6 && Request.Numeric(controls)[k'] == Request.Unparseable(c.error)
              && forall j :: 0 <= j < k' ==> Request.Numeric(controls)[j].Parsed?;
    assert k' == k;
  }

  /** An accepted prompt with parseable controls sends the prompt exactly as
      typed, with streaming on; the output is echo, then the rendered reply. */
  lemma AcceptedRequest(s: Screen, model: string, controls: Request.Controls, reply: Stream.Reply)
    requires !Text.AllSpace(s.entry)
    requires forall i :: 0 <= i < 6 ==> Request.Numeric(controls)[i].Parsed?
    ensures var r := Generate(s, model, controls, reply);
            && r.1.Some?
            && r.1.value["prompt"] == Request.JString(s.entry)
            && r.1.value["model"] == Request.JString(model)
            && r.1.value["stream"] == Request.JBool(true)
            && ("stop" in r.1.value <==> !Text.AllSpace(controls.stopText))
            && r.0 == Screen(s.output + Echo(Text.Strip(s.entry), model) + Stream.Render(reply), "")
  {
  }
}
