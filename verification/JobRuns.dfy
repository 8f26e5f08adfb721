/** Job runs as a state machine: every section the scheduler runs under its lock, and
    every write outside it, is one event on the table of runs. Output is a Go string: each
    `char` stands for one byte. */
module JobRuns {
  import opened Prelude

  datatype Status = Pending | Running | Success | Error | Stalled | Forgotten

  predicate Terminal(s: Status) {
    s.Success? || s.Error? || s.Stalled? || s.Forgotten?
  }

  /** How far a run has come; a terminal status may still be replaced by another one. */
  function Rank(s: Status): nat {
    match s
    case Pending => 0
    case Running => 1
    case _ => 2
  }

  /** A row of `job_runs`. Instants and durations are in milliseconds. */
  datatype Run = Run(status: Status, worker: Option<nat>, created: int, updated: int, startedAt: Option<int>,
                     output: string, durationMs: int, queueMs: int, execMs: int, container: string, commit: string)

  datatype World = World(now: int, runs: map<nat, Run>, used: set<nat>)

  /** What a worker reports when a job ends, or the dispatcher when it could not start. */
  datatype Report = Report(success: bool, output: string, durationMs: int, queueMs: int, execMs: int)

  datatype Event =
    | Tick(d: nat)
    | Create(id: nat, worker: Option<nat>, status: Status, output: string)
    | Delete(id: nat)
    | Patch(id: nat, container: string, commit: string)
    | Ack(id: nat)
    | Finish(id: nat, report: Report)
    | Forget(id: nat, timeoutMs: int)
    | Unstick(id: nat)
    | Lose(id: nat, timeoutMs: int)

  // ----------------------------------------------------------------- the writes

  const MAX_OUTPUT := 1_000_000
  const MARKER := "\n\n... [OUTPUT TRUNCATED FOR SIZE] ...\n\n"

  /** Output over the limit keeps its head and its tail around a marker. */
  function Truncated(output: string): (r: string)
    ensures |r| <= MAX_OUTPUT && (|output| <= MAX_OUTPUT ==> r == output)
    ensures |output| > MAX_OUTPUT ==>
              exists h, t :: 0 <= h <= t <= |output| && r == output[..h] + MARKER + output[t..] && |r| == MAX_OUTPUT
  {
    if |output| <= MAX_OUTPUT then output
    else
      var available := MAX_OUTPUT - |MARKER|;
      var head := available / 2;
      var tail := available - head;
      var r := output[..head] + MARKER + output[|output| - tail..];
      assert 0 <= head <= |output| - tail <= |output| && |r| == MAX_OUTPUT;
      r
  }

  /** `setJobRunStarted`, which leaves a run that already ended alone. */
  function Started(r: Run, now: int): Run {
    if Terminal(r.status) then r
    else r.(status := Running, startedAt := Some(now), updated := now,
            queueMs := if now < r.created then 0 else now - r.created)
  }

  /** `updateJobRun`. */
  function Completed(r: Run, now: int, p: Report): Run {
    r.(status := if p.success then Success else Error,
       output := Truncated(p.output),
       durationMs := p.durationMs,
       queueMs := if p.queueMs > 0 then p.queueMs else r.queueMs,
       execMs := if p.execMs > 0 then p.execMs
                 else if r.startedAt.Some? then now - r.startedAt.value else r.execMs,
       updated := now)
  }

  function MarkedForgotten(r: Run, now: int, timeoutMs: int): Run {
    if !r.status.Running? then r
    else r.(status := Forgotten, output := "job forgotten: still running after 1 hour with no completion signal",
            execMs := timeoutMs, updated := now)
  }

  function MarkedStuck(r: Run, now: int): Run {
    if !r.status.Pending? then r
    else r.(status := Error,
            output := "job failed: stuck in pending for more than 15 minutes (failed to dispatch to worker)",
            updated := now)
  }

  function MarkedLost(r: Run, now: int, timeoutMs: int): Run {
    if !r.status.Running? then r
    else r.(status := Error, output := "job lost: worker disconnected and job is no longer running",
            execMs := timeoutMs, updated := now)
  }

  predicate Enabled(w: World, e: Event) {
    match e
    case Tick(_) => true
    case Create(id, _, status, _) => id !in w.used && (status.Pending? || status.Stalled? || status.Error?)
    case _ => e.id in w.runs
  }

  function Step(w: World, e: Event): World
    requires Enabled(w, e)
  {
    match e
    case Tick(d) => w.(now := w.now + d)
    case Create(id, worker, status, output) =>
      w.(used := w.used + {id},
         runs := w.runs[id := Run(status, worker, w.now, w.now, None, output, 0, 0, 0, "", "")])
    case Delete(id) => w.(runs := w.runs - {id})
    case Patch(id, container, commit) =>
      w.(runs := w.runs[id := w.runs[id].(container := container, commit := commit, updated := w.now)])
    case Ack(id) => w.(runs := w.runs[id := Started(w.runs[id], w.now)])
    case Finish(id, report) => w.(runs := w.runs[id := Completed(w.runs[id], w.now, report)])
    case Forget(id, timeoutMs) => w.(runs := w.runs[id := MarkedForgotten(w.runs[id], w.now, timeoutMs)])
    case Unstick(id) => w.(runs := w.runs[id := MarkedStuck(w.runs[id], w.now)])
    case Lose(id, timeoutMs) => w.(runs := w.runs[id := MarkedLost(w.runs[id], w.now, timeoutMs)])
  }

  ghost predicate ValidRun(w: World, es: seq<Event>)
    decreases |es|, 0
  {
    es == [] || (ValidRun(w, es[..|es| - 1]) && Enabled(After(w, es[..|es| - 1]), es[|es| - 1]))
  }

  ghost function After(w: World, es: seq<Event>): World
    requires ValidRun(w, es)
    decreases |es|, 1
  {
    if es == [] then w else Step(After(w, es[..|es| - 1]), es[|es| - 1])
  }

  ghost predicate Valid(w: World) {
    w.runs.Keys <= w.used
  }

  // -------------------------------------------------------------- whole histories

  /** Between two moments: the clock went on, ids were never reused, no run fell back, and
      a run not written since then is the very same. */
  ghost predicate Later(v: World, w: World) {
    && v.now <= w.now && v.used <= w.used && Valid(w)
    && (forall id | id in w.runs && id in v.used ::
          && id in v.runs
          && Rank(v.runs[id].status) <= Rank(w.runs[id].status)
          && (w.runs[id].updated < v.now ==> w.runs[id] == v.runs[id]))
    && (forall id | id in w.runs && id !in v.used :: v.now <= w.runs[id].updated)
  }

  /** A write that does not take the run back. */
  lemma WriteIsLater(w: World, id: nat, r: Run)
    requires Valid(w) && id in w.runs && Rank(w.runs[id].status) <= Rank(r.status)
    requires r == w.runs[id] || r.updated == w.now
    ensures Later(w, w.(runs := w.runs[id := r]))
  {}

  lemma CreateIsLater(w: World, id: nat, r: Run)
    requires Valid(w) && id !in w.used && r.updated == w.now
    ensures Later(w, w.(used := w.used + {id}, runs := w.runs[id := r]))
  {}

  lemma StepIsLater(w: World, e: Event)
    requires Valid(w) && Enabled(w, e)
    ensures Later(w, Step(w, e))
  {
    match e
    case Tick(_) =>
    case Delete(_) =>
    case Create(id, _, _, _) => CreateIsLater(w, id, Step(w, e).runs[id]);
    case _ => WriteIsLater(w, e.id, Step(w, e).runs[e.id]);
  }

  lemma LaterIsReflexive(w: World)
    requires Valid(w)
    ensures Later(w, w)
  {}

  lemma LaterIsTransitive(u: World, v: World, w: World)
    requires Valid(u) && Later(u, v) && Later(v, w)
    ensures Later(u, w)
  {
    forall id | id in w.runs
      ensures id in u.used ==>
                && id in u.runs && Rank(u.runs[id].status) <= Rank(w.runs[id].status)
                && (w.runs[id].updated < u.now ==> w.runs[id] == u.runs[id])
      ensures id !in u.used ==> u.now <= w.runs[id].updated
    {
      if id in v.used {
        assert id in v.runs;
      }
    }
  }

  lemma {:induction false} RunIsLater(w: World, es: seq<Event>)
    requires Valid(w) && ValidRun(w, es)
    ensures Later(w, After(w, es))
    decreases |es|
  {
    if es != [] {
      RunIsLater(w, es[..|es| - 1]);
      var v := After(w, es[..|es| - 1]);
      StepIsLater(v, es[|es| - 1]);
      LaterIsTransitive(w, v, After(w, es));
    }
  }

  /** No interleaving of acks, completions, sweeps, heartbeats and disconnects moves a run
      that ended back to running, or a run that started back to pending. */
  lemma RunsNeverGoBack(w: World, es: seq<Event>, id: nat)
    requires Valid(w) && ValidRun(w, es) && id in w.runs && id in After(w, es).runs
    ensures Rank(w.runs[id].status) <= Rank(After(w, es).runs[id].status)
    ensures Terminal(w.runs[id].status) ==> Terminal(After(w, es).runs[id].status)
  {
    RunIsLater(w, es);
  }

  /** A completion that overtakes the ack wins: the ack then changes nothing. */
  lemma AckAfterCompletion(w: World, id: nat, report: Report, es: seq<Event>)
    requires Valid(w) && id in w.runs && ValidRun(Step(w, Finish(id, report)), es)
    requires id in After(Step(w, Finish(id, report)), es).runs
    ensures var v := After(Step(w, Finish(id, report)), es); Step(v, Ack(id)) == v
  {
    var u := Step(w, Finish(id, report));
    var v := After(u, es);
    RunIsLater(u, es);
    assert v.runs[id := v.runs[id]] == v.runs;
  }
}
