/**
 * The start-up supervisor (tiny-notepad.py, `ensure_ollama_running` and its
 * inner `check_and_start`): probe the local daemon, start it if absent, probe
 * once more after the boot delay. The three I/O outcomes are inputs; the
 * status label updates are collected as a trace.
 */
module Supervisor {
  import opened Common

  /** The outcome of one `GET http://localhost:11434` health probe. */
  datatype Probe =
    /** The daemon answered with this HTTP status. */
    | Answered(status: int)
    /** The request failed with a connection error (refused, connect timeout). */
    | Refused(error: string)
    /** The request failed with any other exception (a read timeout, say). */
    | Raised(error: string)

  /** The outcome of launching `ollama serve`. */
  datatype Spawn = Spawned | SpawnFailed(error: string)

  /** Everything the supervisor's I/O could return during one run. */
  datatype World = World(first: Probe, spawn: Spawn, second: Probe)

  /** The label text before the supervisor reports anything. */
  const Checking: string := "Checking Ollama status..."

  const IsRunning: string := "\U{1F7E2} Ollama is running"
  const NotRunning: string := "\U{1F534} Ollama not running. Starting..."
  const Launching: string := "\U{1F7E1} Starting Ollama..."
  const StartedOk: string := "\U{1F7E2} Ollama started successfully"
  const NoConnection: string := "\U{1F534} Failed to connect to Ollama"

  function StillDown(e: string): string {
    "\U{1F534} Still can't connect: " + e
  }

  function SpawnError(e: string): string {
    "\U{1F534} Error: " + e
  }

  /** Where the supervisor is: about to probe, about to spawn, about to
      re-probe after the boot delay, or done. */
  datatype Phase = Probing | Spawning | Rechecking | Finished

  /** The supervisor's state: its phase, the status messages emitted so far,
      and how many spawns and probes it has made. */
  datatype State = State(phase: Phase, trace: seq<string>, spawns: nat, probes: nat)

  const Initial: State := State(Probing, [], 0, 0)

  function Rank(p: Phase): nat {
    match p
    case Probing => 3
    case Spawning => 2
    case Rechecking => 1
    case Finished => 0
  }

  function Emit(s: State, msg: string): seq<string> {
    s.trace + [msg]
  }

  /** How far each phase can be into the run: the counts of spawns and probes
      it has made and the number of messages it can have emitted. */
  predicate Consistent(s: State) {
    && |s.trace| <= 3 - Rank(s.phase)
    && match s.phase
       case Probing => s.spawns == 0 && s.probes == 0
       case Spawning => s.spawns == 0 && s.probes == 1
       case Rechecking => s.spawns == 1 && s.probes == 1
       case Finished => s.spawns <= 1 && 1 <= s.probes <= 2 && (s.probes == 2 ==> s.spawns == 1)
  }

  /** One transition; each phase performs its single I/O action. */
  function Step(s: State, w: World): (t: State)
    requires s.phase != Finished
    ensures Rank(t.phase) < Rank(s.phase)
    ensures s.trace <= t.trace && |t.trace| <= |s.trace| + 1
    ensures Consistent(s) ==> Consistent(t)
  {
    match s.phase
    case Probing =>
      var s := s.(probes := s.probes + 1);
      (match w.first
       case Answered(code) =>
         if code == 200 then s.(phase := Finished, trace := Emit(s, IsRunning))
         else s.(phase := Spawning)
       case Refused(_) => s.(phase := Spawning, trace := Emit(s, NotRunning))
       case Raised(_) => s.(phase := Finished))
    case Spawning =>
      var s := s.(spawns := s.spawns + 1);
      (match w.spawn
       case Spawned => s.(phase := Rechecking, trace := Emit(s, Launching))
       case SpawnFailed(e) => s.(phase := Finished, trace := Emit(s, SpawnError(e))))
    case Rechecking =>
      var s := s.(probes := s.probes + 1, phase := Finished);
      (match w.second
       case Answered(code) => s.(trace := Emit(s, if code == 200 then StartedOk else NoConnection))
       case Refused(e) => s.(trace := Emit(s, StillDown(e)))
       case Raised(e) => s.(trace := Emit(s, StillDown(e))))
  }

  /** Steps until finished; the supervisor never loops back. */
  function Drive(s: State, w: World): (t: State)
    ensures t.phase == Finished
    ensures s.trace <= t.trace
    ensures Consistent(s) ==> Consistent(t)
    decreases Rank(s.phase)
  {
    if s.phase == Finished then s else Drive(Step(s, w), w)
  }

  /** One complete supervisor run: at most one spawn, at most one follow-up
      probe and only after a spawn, at most three messages. */
  function Run(w: World): (t: State)
    ensures t.phase == Finished
    ensures t.spawns <= 1 && 1 <= t.probes <= 2
    ensures t.probes == 2 ==> t.spawns == 1
    ensures |t.trace| <= 3
  {
    Drive(Initial, w)
  }

  /** The decision tree as the source nests it, written directly as the
      sequence of status messages it emits. */
  function Messages(w: World): (m: seq<string>)
    ensures |m| <= 3
    ensures m == [] <==> w.first.Raised?
  {
    match w.first
    case Answered(code) => if code == 200 then [IsRunning] else StartMessages(w)
    case Refused(_) => [NotRunning] + StartMessages(w)
    case Raised(_) => []
  }

  /** The messages of the start path: the spawn, then the single follow-up probe. */
  function StartMessages(w: World): (m: seq<string>)
    ensures 1 <= |m| <= 2
    ensures |m| == 2 <==> w.spawn.Spawned?
    ensures w.spawn.Spawned? ==> m[0] == Launching
  {
    match w.spawn
    case SpawnFailed(e) => [SpawnError(e)]
    case Spawned => [Launching] + match w.second
      case Answered(code) => if code == 200 then [StartedOk] else [NoConnection]
      case Refused(e) => [StillDown(e)]
      case Raised(e) => [StillDown(e)]
  }

  /** True when the first probe sends the supervisor down the start path. */
  predicate Starts(w: World) {
    match w.first
    case Answered(code) => code != 200
    case Refused(_) => true
    case Raised(_) => false
  }

  /** The state machine emits exactly the decision tree's messages, spawns
      once exactly on the start path, and re-probes exactly after a spawn
      that succeeded. */
  lemma RunMatchesTree(w: World)
    ensures Run(w).trace == Messages(w)
    ensures Run(w).spawns == (if Starts(w) then 1 else 0)
    ensures Run(w).probes == (if Starts(w) && w.spawn.Spawned? then 2 else 1)
  {
    var s1 := Step(Initial, w);
    assert Drive(Initial, w) == Drive(s1, w);
    if s1.phase != Finished {
      var s2 := Step(s1, w);
      assert Drive(s1, w) == Drive(s2, w);
      if s2.phase != Finished {
        var s3 := Step(s2, w);
        assert Drive(s2, w) == Drive(s3, w);
      }
    }
  }

  /** A 200 on the first probe: one "running" message and no spawn. */
  lemma AlreadyRunning(w: World)
    requires w.first == Answered(200)
    ensures Run(w).trace == [IsRunning] && Run(w).spawns == 0 && Run(w).probes == 1
  {
    RunMatchesTree(w);
  }

  /** Any exception other than a connection error on the first probe ends the
      run without a status message: no spawn, and the label keeps its initial text. */
  lemma FirstProbeEscapes(w: World, e: string)
    requires w.first == Raised(e)
    ensures Run(w).trace == [] && Run(w).spawns == 0 && Run(w).probes == 1
    ensures Label(Run(w).trace) == Checking
  {
    RunMatchesTree(w);
  }

  /** The start path is taken exactly when the first probe is a connection
      error or a non-200 answer; only the connection error announces it. */
  lemma StartPath(w: World)
    ensures Run(w).spawns == 1 <==> Starts(w)
    ensures Starts(w) ==> (NotRunning in Run(w).trace <==> w.first.Refused?)
  {
    RunMatchesTree(w);
    Colours();
  }

  /** After a successful spawn: "Starting" and then exactly one verdict from
      the follow-up probe. */
  lemma AfterSpawn(w: World)
    requires Starts(w) && w.spawn.Spawned?
    ensures var t := Run(w).trace;
            && Run(w).probes == 2
            && |t| >= 2 && t[|t| - 2] == Launching
            && t[|t| - 1] == (match w.second
                              case Answered(code) => if code == 200 then StartedOk else NoConnection
                              case Refused(e) => StillDown(e)
                              case Raised(e) => StillDown(e))
  {
    RunMatchesTree(w);
  }

  /** A failed spawn reports the error and makes no follow-up probe. */
  lemma SpawnFailure(w: World, e: string)
    requires Starts(w) && w.spawn == SpawnFailed(e)
    ensures Run(w).probes == 1 && Run(w).spawns == 1
    ensures Label(Run(w).trace) == SpawnError(e)
    ensures Launching !in Run(w).trace
  {
    RunMatchesTree(w);
    Colours();
  }

  /** A daemon that never answers 200 (but does answer): one spawn, one
      follow-up probe, and the label ends on "Failed to connect". */
  lemma NeverHealthy(c1: int, c2: int)
    requires c1 != 200 && c2 != 200
    ensures var t := Run(World(Answered(c1), Spawned, Answered(c2)));
            t.spawns == 1 && t.probes == 2 && Label(t.trace) == NoConnection
  {
    RunMatchesTree(World(Answered(c1), Spawned, Answered(c2)));
  }

  /** The first character of each message, its colour: green, yellow or red. */
  lemma Colours()
    ensures IsRunning[0] == StartedOk[0] == '\U{1F7E2}' && Checking[0] == 'C'
    ensures Launching[0] == '\U{1F7E1}'
    ensures NotRunning[0] == NoConnection[0] == '\U{1F534}' && NotRunning[2] == 'O' && NoConnection[2] == 'F'
    ensures forall e :: StillDown(e)[0] == '\U{1F534}' && StillDown(e)[2] == 'S'
    ensures forall e :: SpawnError(e)[0] == '\U{1F534}' && SpawnError(e)[2] == 'E'
  {
  }

  /** The status label after the run: the last message, or the initial text. */
  function Label(trace: seq<string>): string {
    if trace == [] then Checking else trace[|trace| - 1]
  }

  /** The label ends on a green message exactly when some probe got a 200. */
  lemma GreenIffHealthy(w: World)
    ensures Label(Run(w).trace) in {IsRunning, StartedOk}
            <==> (w.first == Answered(200) || (Starts(w) && w.spawn.Spawned? && w.second == Answered(200)))
  {
    RunMatchesTree(w);
    Colours();
  }
}
