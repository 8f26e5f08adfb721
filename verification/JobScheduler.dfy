/** The scheduler's sweeps and handlers as the code they are, with other goroutines free to
    act whenever the lock is not held. Each is a run of the state machine. */
module JobScheduler {
  import opened Prelude
  import opened JobRuns

  const HOUR := 3_600_000
  const QUARTER := 900_000
  const MINUTE := 60_000

  /** What the scheduler does not decide: what others do before its k-th look at a run, whether
      the listing query succeeds, which second reads and which saves the database grants, and
      the timeouts in the job files. */
  datatype Others = Others(turns: nat -> seq<Event>, lists: bool, rereads: nat -> bool, saves: nat -> bool,
                           timeoutMs: Run -> int)

  /** Nobody else acts. */
  ghost predicate Quiet(o: Others) {
    forall k: nat :: o.turns(k) == []
  }

  /** Somebody else's event. */
  ghost predicate Foreign(o: Others, e: Event) {
    exists k: nat :: e in o.turns(k)
  }

  // ----------------------------------------------------------------------- the marks

  /** The three ways a run is written off. */
  datatype Mark = Forgetting | Unsticking | Losing

  /** The status a run must still have to be written off. */
  function Expected(m: Mark): Status {
    if m.Unsticking? then Pending else Running
  }

  function Marked(m: Mark, r: Run, now: int, timeoutMs: int): Run {
    match m
    case Forgetting => MarkedForgotten(r, now, timeoutMs)
    case Unsticking => MarkedStuck(r, now)
    case Losing => MarkedLost(r, now, timeoutMs)
  }

  function MarkEvent(m: Mark, id: nat, timeoutMs: int): Event {
    match m
    case Forgetting => Forget(id, timeoutMs)
    case Unsticking => Unstick(id)
    case Losing => Lose(id, timeoutMs)
  }

  lemma ForgetSpec(id: nat, w: World, timeoutMs: int)
    requires id in w.runs
    ensures Step(w, Forget(id, timeoutMs)) == w.(runs := w.runs[id := MarkedForgotten(w.runs[id], w.now, timeoutMs)])
  {}

  lemma UnstickSpec(id: nat, w: World)
    requires id in w.runs
    ensures Step(w, Unstick(id)) == w.(runs := w.runs[id := MarkedStuck(w.runs[id], w.now)])
  {}

  lemma LoseSpec(id: nat, w: World, timeoutMs: int)
    requires id in w.runs
    ensures Step(w, Lose(id, timeoutMs)) == w.(runs := w.runs[id := MarkedLost(w.runs[id], w.now, timeoutMs)])
  {}

  /** The event does what the mark says, and takes the run out of the status. */
  lemma MarkSpec(m: Mark, id: nat, w: World, timeoutMs: int)
    requires id in w.runs && w.runs[id].status == Expected(m)
    ensures
      var e, r := MarkEvent(m, id, timeoutMs), Marked(m, w.runs[id], w.now, timeoutMs);
      && Own(m, {id}, e) && r.status != Expected(m)
      && Enabled(w, e) && Step(w, e) == w.(runs := w.runs[id := r])
  {
    match m
    case Forgetting => ForgetSpec(id, w, timeoutMs);
    case Unsticking => UnstickSpec(id, w);
    case Losing => LoseSpec(id, w, timeoutMs);
  }

  /** The event writes off one of these runs. */
  ghost predicate Own(m: Mark, ids: set<nat>, e: Event) {
    match m
    case Forgetting => e.Forget? && e.id in ids
    case Unsticking => e.Unstick? && e.id in ids
    case Losing => e.Lose? && e.id in ids
  }

  /** Of the events after the first n, those that are not others' write off one of these runs. */
  ghost predicate OnlyMarks(es: seq<Event>, n: nat, m: Mark, ids: set<nat>, o: Others) {
    forall k | n <= k < |es| :: Foreign(o, es[k]) || Own(m, ids, es[k])
  }

  /** Nothing was added, or one event that writes off this run. */
  ghost predicate AtMostOneMark(fs: seq<Event>, gs: seq<Event>, m: Mark, id: nat, may: bool) {
    gs == fs || (may && fs < gs && |gs| == |fs| + 1 && Own(m, {id}, gs[|fs|]))
  }

  /** Others' turn, then at most one write to a run that is now among them. */
  lemma MarksNext(es: seq<Event>, fs: seq<Event>, gs: seq<Event>, n: nat, turn: nat, m: Mark, ids: set<nat>,
                  id: nat, may: bool, ids': set<nat>, o: Others)
    requires OnlyMarks(es, n, m, ids, o) && es <= fs && ids <= ids'
    requires forall k | |es| <= k < |fs| :: fs[k] in o.turns(turn)
    requires AtMostOneMark(fs, gs, m, id, may) && (may ==> id in ids')
    ensures OnlyMarks(gs, n, m, ids', o) && es <= gs
  {
    forall k | n <= k < |gs|
      ensures Foreign(o, gs[k]) || Own(m, ids', gs[k])
    {
      if k < |es| {
        assert gs[k] == es[k];
      } else if k < |fs| {
        assert gs[k] == fs[k];
      }
    }
  }

  /** The table with these runs written off, save where the database refuses. */
  ghost function Changed(w: World, ids: set<nat>, m: Mark, o: Others): map<nat, Run> {
    map id | id in w.runs ::
      if id in ids && o.saves(id) then Marked(m, w.runs[id], w.now, o.timeoutMs(w.runs[id])) else w.runs[id]
  }

  lemma ChangedNext(w: World, ids: set<nat>, id: nat, m: Mark, o: Others)
    requires id in w.runs && id !in ids
    ensures Changed(w, ids, m, o)[id] == w.runs[id]
    ensures Changed(w, ids + {id}, m, o) ==
            if o.saves(id) then Changed(w, ids, m, o)[id := Marked(m, w.runs[id], w.now, o.timeoutMs(w.runs[id]))]
            else Changed(w, ids, m, o)
  {}

  /** Each of these runs is gone, or has come further than the status. */
  ghost predicate Passed(w: World, ids: set<nat>, status: Status) {
    forall id | id in ids && id in w.runs :: Rank(w.runs[id].status) > Rank(status)
  }

  lemma PassedStays(v: World, w: World, ids: set<nat>, status: Status)
    requires Later(v, w) && ids <= v.used
    ensures Passed(v, ids, status) ==> Passed(w, ids, status)
  {
    forall id | Passed(v, ids, status) && id in ids && id in w.runs
      ensures Rank(w.runs[id].status) > Rank(status)
    {
      assert id in v.runs;
    }
  }

  /** Over two stretches, what has passed the status stays so, and a run that had it and no longer
      has it has passed it too. */
  lemma PassedNext(v: World, s: World, u: World, w: World, ids: set<nat>, id: nat, m: Mark, done: bool)
    requires Valid(v) && Later(v, s) && Later(s, u) && Later(u, w) && ids <= v.used
    requires id in v.runs && v.runs[id].status == Expected(m)
    requires done && id in w.runs ==> w.runs[id].status != Expected(m)
    ensures Later(v, w)
    ensures Passed(s, ids, Expected(m)) ==> Passed(w, if done then ids + {id} else ids, Expected(m))
  {
    LaterIsTransitive(v, s, u);
    LaterIsTransitive(v, u, w);
    PassedStays(s, u, ids, Expected(m));
    PassedStays(u, w, ids, Expected(m));
  }

  // ------------------------------------------------------------------- what is selected

  /** A run with this status that was last written before the cutoff. */
  predicate Stale(r: Run, status: Status, cutoff: int) {
    r.status == status && r.updated < cutoff
  }

  /** No stale run is left, save those whose second read failed. */
  ghost predicate NoneStale(w: World, status: Status, cutoff: int, readable: nat -> bool) {
    forall id | id in w.runs && readable(id) :: !Stale(w.runs[id], status, cutoff)
  }

  lemma NoneStaleStays(v: World, w: World, status: Status, cutoff: int, readable: nat -> bool)
    requires Valid(v) && Later(v, w) && NoneStale(v, status, cutoff, readable) && cutoff <= v.now
    ensures NoneStale(w, status, cutoff, readable)
  {
    forall id | id in w.runs && readable(id)
      ensures !Stale(w.runs[id], status, cutoff)
    {
      if id in v.used {
        assert id in v.runs;
      }
    }
  }

  /** What is stale at the end was so at the beginning. */
  lemma PassedIsNoneStale(v: World, w: World, ids: set<nat>, status: Status, cutoff: int, readable: nat -> bool)
    requires Valid(v) && Later(v, w) && cutoff <= v.now
    requires forall id | id in v.runs && Stale(v.runs[id], status, cutoff) && readable(id) :: id in ids
    ensures Passed(w, ids, status) ==> NoneStale(w, status, cutoff, readable)
  {
    forall id | Passed(w, ids, status) && id in w.runs && readable(id)
      ensures !Stale(w.runs[id], status, cutoff)
    {
      assert id in v.used ==> id in v.runs;
    }
  }

  /** What a sweep nobody disturbs leaves: no stale run is left if and only if the second read and
      the save of every one succeed. A read that fails is not reported. */
  lemma SweepLeavesNoneIff(w: World, m: Mark, limit: nat, ids: set<nat>, o: Others)
    requires !m.Losing? && forall id :: id in ids <==>
               id in w.runs && Stale(w.runs[id], Expected(m), w.now - limit) && o.rereads(id)
    ensures NoneStale(w.(runs := Changed(w, ids, m, o)), Expected(m), w.now - limit, id => true) <==>
            forall id | id in w.runs && Stale(w.runs[id], Expected(m), w.now - limit) :: o.rereads(id) && o.saves(id)
  {
    var after := Changed(w, ids, m, o);
    forall id | id in w.runs
      ensures Stale(after[id], Expected(m), w.now - limit) <==>
              Stale(w.runs[id], Expected(m), w.now - limit) && !(o.rereads(id) && o.saves(id))
    {
      if id in ids && o.saves(id) {
        MarkSpec(m, id, w, o.timeoutMs(w.runs[id]));
      }
    }
  }

  /** A concrete sweep in which every save would succeed, no error is due, and a run that has been
      running for two hours stays so. */
  lemma UnreadRunStays() returns (w: World, o: Others)
    ensures Valid(w) && Quiet(o) && o.lists && forall id :: o.saves(id)
    ensures
      var stale := set id | id in w.runs && Stale(w.runs[id], Running, w.now - HOUR) && o.rereads(id);
      !NoneStale(w.(runs := Changed(w, stale, Forgetting, o)), Running, w.now - HOUR, id => true)
  {
    var r := Run(Running, Some(1), 0, 0, Some(0), "", 0, 0, 0, "", "");
    w := World(2 * HOUR, map[0 := r], {0});
    o := Others(k => [], true, id => false, id => true, r => 0);
    assert Stale(w.runs[0], Running, w.now - HOUR);
    var stale := set id | id in w.runs && Stale(w.runs[id], Running, w.now - HOUR) && o.rereads(id);
    SweepLeavesNoneIff(w, Forgetting, HOUR, stale, o);
  }

  /** A running run of this worker that its heartbeat does not list, and that was not
      written within the last minute. */
  predicate Missing(r: Run, id: nat, worker: nat, active: seq<nat>, cutoff: int) {
    r.status.Running? && r.worker == Some(worker) && id !in active && r.updated <= cutoff
  }

  /** The ids of a query's result, in some order. */
  method InSomeOrder(s: set<nat>) returns (ids: seq<nat>)
    ensures forall id :: id in ids <==> id in s
    ensures forall i, j | 0 <= i < j < |ids| :: ids[i] != ids[j]
  {
    var todo := s;
    ids := [];
    while todo != {}
      invariant todo <= s && forall id :: id in ids <==> id in s && id !in todo
      invariant forall i, j | 0 <= i < j < |ids| :: ids[i] != ids[j]
    {
      var id :| id in todo;
      todo, ids := todo - {id}, ids + [id];
    }
  }

  /** How a dispatch ends: its metadata could not be saved, it was refused or failed, or the
      worker acknowledged it. */
  datatype Dispatch = NoMetadata(report: Report) | Refused(report: Report) | Acked

  /** The table with a dispatched run's metadata. */
  ghost function WithMetadata(w: World, id: nat, container: string, commit: string, outcome: Dispatch): World {
    if id in w.runs && !outcome.NoMetadata? then Step(w, Patch(id, container, commit)) else w
  }

  /** The table after the end of a dispatch. */
  ghost function Settled(w: World, id: nat, outcome: Dispatch, saves: bool): World {
    if id !in w.runs || !saves then w
    else Step(w, if outcome.Acked? then Ack(id) else Finish(id, outcome.report.(success := false)))
  }

  class Scheduler {
    var now: int
    var runs: map<nat, Run>
    var used: set<nat>
    ghost var start: World
    ghost var trace: seq<Event>

    ghost function View(): World
      reads this
    {
      World(now, runs, used)
    }

    /** The events so far lead from the start to here. */
    ghost predicate Traced()
      reads this
    {
      Valid(start) && ValidRun(start, trace) && After(start, trace) == View()
    }

    lemma TracedIsLater()
      requires Traced()
      ensures Later(start, View()) && Valid(View())
    {
      RunIsLater(start, trace);
    }

    /** One event of the machine. */
    method Do(e: Event)
      requires Traced() && Enabled(View(), e)
      modifies this
      ensures Traced() && start == old(start) && trace == old(trace) + [e]
      ensures View() == Step(old(View()), e) && Later(old(View()), View())
    {
      TracedIsLater();
      StepIsLater(View(), e);
      trace := trace + [e];
      assert trace[..|trace| - 1] == old(trace);
      var t := Step(World(now, runs, used), e);
      now, runs, used := t.now, t.runs, t.used;
    }

    /** Other goroutines take their turn. */
    method Yield(turn: seq<Event>)
      requires Traced()
      modifies this
      ensures Traced() && start == old(start) && old(trace) <= trace && Later(old(View()), View())
      ensures forall k | |old(trace)| <= k < |trace| :: trace[k] in turn
      ensures turn == [] ==> View() == old(View())
    {
      TracedIsLater();
      for i := 0 to |turn|
        invariant Traced() && start == old(start) && old(trace) <= trace && Later(old(View()), View())
        invariant forall k | |old(trace)| <= k < |trace| :: trace[k] in turn
        invariant turn == [] ==> View() == old(View())
      {
        if Enabled(World(now, runs, used), turn[i]) {
          ghost var v := View();
          Do(turn[i]);
          LaterIsTransitive(old(View()), v, View());
        }
      }
    }

    // ---------------------------------------------------------------- writing runs off

    /** Writes a run off; the save may fail. */
    method SaveMarked(m: Mark, id: nat, o: Others) returns (failed: bool)
      requires Traced() && id in runs && runs[id].status == Expected(m)
      modifies this
      ensures Traced() && start == old(start) && Later(old(View()), View())
      ensures AtMostOneMark(old(trace), trace, m, id, !failed)
      ensures !failed ==> runs[id].status != Expected(m)
      ensures now == old(now) && used == old(used) && failed == !o.saves(id)
      ensures runs == if failed then old(runs)
                      else old(runs)[id := Marked(m, old(runs)[id], now, o.timeoutMs(old(runs)[id]))]
    {
      TracedIsLater();
      failed := !o.saves(id);
      if !failed {
        MarkSpec(m, id, View(), o.timeoutMs(runs[id]));
        Do(MarkEvent(m, id, o.timeoutMs(runs[id])));
      }
    }

    /** Reads the run again under the lock, and writes it off if it still has the status. A read
        that fails is passed over in silence. */
    method LookAgain(m: Mark, id: nat, o: Others) returns (failed: bool)
      requires Traced()
      modifies this
      ensures Traced() && start == old(start) && Later(old(View()), View())
      ensures now == old(now) && used == old(used)
      ensures
        var writes := o.rereads(id) && id in old(runs) && old(runs)[id].status == Expected(m);
        && failed == (writes && !o.saves(id))
        && (if writes && !failed then
              runs == old(runs)[id := Marked(m, old(runs)[id], now, o.timeoutMs(old(runs)[id]))]
            else runs == old(runs))
      ensures AtMostOneMark(old(trace), trace, m, id, o.rereads(id))
      ensures !failed && o.rereads(id) && id in runs ==> runs[id].status != Expected(m)
    {
      TracedIsLater();
      failed := false;
      if o.rereads(id) && id in runs && runs[id].status == Expected(m) {
        failed := SaveMarked(m, id, o);
      }
    }

    /** Others act, then one selected run is looked at. */
    method MarkNext(m: Mark, id: nat, k: nat, o: Others, ghost v: World, ghost done: set<nat>, ghost n: nat)
      returns (failed: bool, ghost done': set<nat>)
      requires Traced() && Valid(v) && Later(v, View()) && done <= v.used
      requires id in v.runs && id !in done && v.runs[id].status == Expected(m)
      requires Quiet(o) ==> now == v.now && runs == Changed(v, done, m, o)
      requires OnlyMarks(trace, n, m, done, o)
      modifies this
      ensures Traced() && start == old(start) && old(trace) <= trace && Later(v, View())
      ensures done' == if o.rereads(id) then done + {id} else done
      ensures failed ==> !o.saves(id)
      ensures !failed && Passed(old(View()), done, Expected(m)) ==> Passed(View(), done', Expected(m))
      ensures Quiet(o) ==> now == v.now && runs == Changed(v, done', m, o)
      ensures OnlyMarks(trace, n, m, done', o)
    {
      done' := if o.rereads(id) then done + {id} else done;
      ChangedNext(v, done, id, m, o);
      Yield(o.turns(k));
      ghost var u, es := View(), trace;
      failed := LookAgain(m, id, o);
      MarksNext(old(trace), es, trace, n, k, m, done, id, o.rereads(id), done', o);
      PassedNext(v, old(View()), u, View(), done, id, m, !failed && o.rereads(id));
    }

    /** The loop all three callers share: of the listed runs those picked are looked at, one
        after the other. */
    method MarkAll(m: Mark, ids: seq<nat>, pick: nat -> bool, o: Others) returns (failed: bool, ghost done: set<nat>)
      requires Traced()
      requires forall id | id in ids :: id in runs && runs[id].status == Expected(m)
      requires forall i, j | 0 <= i < j < |ids| :: ids[i] != ids[j]
      modifies this
      ensures Traced() && start == old(start) && old(trace) <= trace && Later(old(View()), View())
      ensures forall id :: id in done <==> id in ids && pick(id) && o.rereads(id)
      ensures if failed then exists id :: !o.saves(id) else Passed(View(), done, Expected(m))
      ensures Quiet(o) ==> now == old(now) && runs == Changed(old(View()), done, m, o)
      ensures OnlyMarks(trace, |old(trace)|, m, done, o)
    {
      TracedIsLater();
      ghost var v := View();
      done, failed := {}, false;
      assert Changed(v, {}, m, o) == runs;
      for i := 0 to |ids|
        invariant Traced() && start == old(start) && old(trace) <= trace && Later(v, View())
        invariant forall id :: id in done <==> id in ids[..i] && pick(id) && o.rereads(id)
        invariant if failed then exists id :: !o.saves(id) else Passed(View(), done, Expected(m))
        invariant Quiet(o) ==> now == v.now && runs == Changed(v, done, m, o)
        invariant OnlyMarks(trace, |old(trace)|, m, done, o)
      {
        assert ids[i] in ids && ids[..i + 1] == ids[..i] + [ids[i]] && ids[i] !in ids[..i];
        if pick(ids[i]) {
          var f;
          f, done := MarkNext(m, ids[i], i, o, v, done, |old(trace)|);
          failed := failed || f;
        }
      }
      assert ids[..|ids|] == ids;
    }

    // ---------------------------------------------------------------------- the sweeps

    /** The runs with a status, in some order. */
    method RunsWith(status: Status) returns (ids: seq<nat>)
      ensures forall id :: id in ids <==> id in runs && runs[id].status == status
      ensures forall i, j | 0 <= i < j < |ids| :: ids[i] != ids[j]
    {
      ids := InSomeOrder(set id | id in runs && runs[id].status == status);
    }

    /** Lists the runs with the status, and writes off those last written too long ago. */
    method Sweep(m: Mark, limit: nat, o: Others) returns (failed: bool, ghost stale: set<nat>)
      requires Traced()
      modifies this
      ensures Traced() && start == old(start) && old(trace) <= trace && Later(old(View()), View())
      ensures forall id :: id in stale <==>
                id in old(runs) && Stale(old(runs)[id], Expected(m), old(now) - limit) && o.rereads(id)
      ensures if failed then !o.lists || exists id :: !o.saves(id)
              else NoneStale(View(), Expected(m), old(now) - limit, o.rereads)
      ensures !o.lists ==> failed && View() == old(View())
      ensures Quiet(o) && o.lists ==> now == old(now) && runs == Changed(old(View()), stale, m, o)
      ensures OnlyMarks(trace, |old(trace)|, m, stale, o)
    {
      TracedIsLater();
      ghost var v := View();
      if !o.lists {
        stale := set id | id in runs && Stale(runs[id], Expected(m), now - limit) && o.rereads(id);
        return true, stale;
      }
      var cutoff, recs := now - limit, runs;
      var ids := RunsWith(Expected(m));
      failed, stale := MarkAll(m, ids, id => id in recs && recs[id].updated < cutoff, o);
      PassedIsNoneStale(v, View(), stale, Expected(m), cutoff, o.rereads);
    }

    /** `reconcileRunningRuns`. */
    method ForgetOldRuns(o: Others) returns (failed: bool, ghost stale: set<nat>)
      requires Traced()
      modifies this
      ensures Traced() && start == old(start) && old(trace) <= trace && Later(old(View()), View())
      ensures forall id :: id in stale <==>
                id in old(runs) && Stale(old(runs)[id], Running, old(now) - HOUR) && o.rereads(id)
      ensures if failed then !o.lists || exists id :: !o.saves(id)
              else NoneStale(View(), Running, old(now) - HOUR, o.rereads)
      ensures !o.lists ==> failed && View() == old(View())
      ensures Quiet(o) && o.lists ==> now == old(now) && runs == Changed(old(View()), stale, Forgetting, o)
      ensures OnlyMarks(trace, |old(trace)|, Forgetting, stale, o)
    {
      failed, stale := Sweep(Forgetting, HOUR, o);
    }

    /** `reconcilePendingRuns`. */
    method UnstickOldRuns(o: Others) returns (failed: bool, ghost stale: set<nat>)
      requires Traced()
      modifies this
      ensures Traced() && start == old(start) && old(trace) <= trace && Later(old(View()), View())
      ensures forall id :: id in stale <==>
                id in old(runs) && Stale(old(runs)[id], Pending, old(now) - QUARTER) && o.rereads(id)
      ensures if failed then !o.lists || exists id :: !o.saves(id)
              else NoneStale(View(), Pending, old(now) - QUARTER, o.rereads)
      ensures !o.lists ==> failed && View() == old(View())
      ensures Quiet(o) && o.lists ==> now == old(now) && runs == Changed(old(View()), stale, Unsticking, o)
      ensures OnlyMarks(trace, |old(trace)|, Unsticking, stale, o)
    {
      failed, stale := Sweep(Unsticking, QUARTER, o);
    }

    /** `MarkForgottenRuns`: whatever others do meanwhile, if it reports no error then no running
        run is left that was last written over an hour before the sweep, and no pending one over a
        quarter of an hour before the second half of it, save runs whose second read failed. When
        the first listing fails the second half does not take place. */
    method MarkForgottenRuns(o: Others, o': Others) returns (failed: bool, ghost middle: World)
      requires Traced()
      modifies this
      ensures Traced() && start == old(start) && old(trace) <= trace
      ensures Later(old(View()), middle) && Later(middle, View())
      ensures !failed ==> NoneStale(View(), Running, old(now) - HOUR, o.rereads)
                          && NoneStale(View(), Pending, middle.now - QUARTER, o'.rereads)
      ensures failed ==> !o.lists || !o'.lists || exists id :: !o.saves(id) || !o'.saves(id)
      ensures !o.lists ==> failed && View() == old(View())
    {
      TracedIsLater();
      var f, _ := ForgetOldRuns(o);
      middle := View();
      if !o.lists {
        LaterIsReflexive(middle);
        return true, middle;
      }
      var g, _ := UnstickOldRuns(o');
      failed := f || g;
      if !failed {
        NoneStaleStays(middle, View(), Running, old(now) - HOUR, o.rereads);
      }
    }

    // ------------------------------------------------------- heartbeats and disconnects

    /** The running runs of a worker, in some order. */
    method RunningRunsOf(worker: nat) returns (ids: seq<nat>)
      ensures forall id :: id in ids <==> id in runs && runs[id].status.Running? && runs[id].worker == Some(worker)
      ensures forall i, j | 0 <= i < j < |ids| :: ids[i] != ids[j]
    {
      ids := InSomeOrder(set id | id in runs && runs[id].status.Running? && runs[id].worker == Some(worker));
    }

    /** `ReconcileActiveJobs`. Whatever others do meanwhile, the call's own writes are to missing
        runs alone, and each of these whose second read succeeds has ended unless a save failed;
        when nobody else acts exactly these change. */
    method ReconcileActiveJobs(worker: nat, active: seq<nat>, o: Others) returns (failed: bool, ghost lost: set<nat>)
      requires Traced()
      modifies this
      ensures Traced() && start == old(start) && old(trace) <= trace
      ensures forall id :: id in lost <==>
                id in old(runs) && Missing(old(runs)[id], id, worker, active, old(now) - MINUTE) && o.rereads(id)
      ensures if failed then !o.lists || exists id :: !o.saves(id)
              else forall id | id in lost && id in runs :: Terminal(runs[id].status)
      ensures !o.lists ==> failed && View() == old(View())
      ensures Quiet(o) && o.lists ==> now == old(now) && runs == Changed(old(View()), lost, Losing, o)
      ensures OnlyMarks(trace, |old(trace)|, Losing, lost, o)
    {
      if !o.lists {
        lost := set id | id in runs && Missing(runs[id], id, worker, active, now - MINUTE) && o.rereads(id);
        return true, lost;
      }
      var cutoff, recs := now - MINUTE, runs;
      var ids := RunningRunsOf(worker);
      failed, lost := MarkAll(Losing, ids, id => id !in active && id in recs && recs[id].updated <= cutoff, o);
    }

    /** One turn of the disconnect's loop. */
    method LoseAnother(id: nat, o: Others, ghost v: World, ghost lost: set<nat>) returns (failed: bool)
      requires Traced() && id in v.runs && id !in lost && v.runs[id].status.Running?
      requires now == v.now && runs == Changed(v, lost, Losing, o)
      modifies this
      ensures Traced() && start == old(start) && old(trace) <= trace && failed == !o.saves(id)
      ensures now == v.now && runs == Changed(v, lost + {id}, Losing, o)
    {
      ChangedNext(v, lost, id, Losing, o);
      failed := SaveMarked(Losing, id, o);
    }

    /** `HandleWorkerDisconnect`, under the lock from end to end: exactly the running runs of the
        worker are lost, and a failure is reported exactly when the listing or a save failed. The
        metadata write of a dispatch, which does not take the lock, falls before or after the call. */
    method HandleWorkerDisconnect(worker: nat, o: Others) returns (failed: bool, ghost lost: set<nat>)
      requires Traced()
      modifies this
      ensures Traced() && start == old(start) && old(trace) <= trace && now == old(now)
      ensures forall id :: id in lost <==>
                o.lists && id in old(runs) && old(runs)[id].status.Running? && old(runs)[id].worker == Some(worker)
      ensures runs == Changed(old(View()), lost, Losing, o)
      ensures failed <==> !o.lists || exists id :: id in lost && !o.saves(id)
    {
      ghost var v := View();
      lost := {};
      assert Changed(v, {}, Losing, o) == runs;
      if !o.lists {
        return true, lost;
      }
      var ids := RunningRunsOf(worker);
      failed := false;
      for i := 0 to |ids|
        invariant Traced() && start == old(start) && old(trace) <= trace
        invariant now == v.now && runs == Changed(v, lost, Losing, o)
        invariant forall id :: id in lost <==> id in ids[..i]
        invariant failed <==> exists id :: id in lost && !o.saves(id)
      {
        assert ids[i] in ids && ids[..i + 1] == ids[..i] + [ids[i]] && ids[i] !in ids[..i];
        var f := LoseAnother(ids[i], o, v, lost);
        failed := failed || f;
        lost := lost + {ids[i]};
      }
      assert ids[..|ids|] == ids;
    }

    // ---------------------------------------------------------- dispatch and completion

    /** Others act, then the dispatched run's metadata is written. */
    method SaveMetadata(id: nat, container: string, commit: string, outcome: Dispatch, turn: seq<Event>)
      requires Traced()
      modifies this
      ensures Traced() && start == old(start) && old(trace) <= trace && Later(old(View()), View())
      ensures turn == [] ==> View() == WithMetadata(old(View()), id, container, commit, outcome)
    {
      TracedIsLater();
      Yield(turn);
      ghost var v := View();
      if id in runs && !outcome.NoMetadata? {
        Do(Patch(id, container, commit));
        LaterIsTransitive(old(View()), v, View());
      }
    }

    /** Others act, then the dispatched run fails or starts. */
    method SettleDispatch(id: nat, outcome: Dispatch, saves: bool, turn: seq<Event>)
      requires Traced()
      modifies this
      ensures Traced() && start == old(start) && old(trace) <= trace && Later(old(View()), View())
      ensures turn == [] ==> View() == Settled(old(View()), id, outcome, saves)
    {
      TracedIsLater();
      Yield(turn);
      ghost var v := View();
      if id in runs && saves {
        if outcome.Acked? {
          Do(Ack(id));
        } else {
          Do(Finish(id, outcome.report.(success := false)));
        }
        LaterIsTransitive(old(View()), v, View());
      }
    }

    /** The writes of `dispatchToWorker`: the metadata, then one error or one ack, with anything
        in between. A run that is gone is left alone, and none falls back. */
    method DispatchToWorker(id: nat, container: string, commit: string, outcome: Dispatch, o: Others)
      requires Traced()
      modifies this
      ensures Traced() && start == old(start) && old(trace) <= trace && Later(old(View()), View())
      ensures Quiet(o) ==>
                View() == Settled(WithMetadata(old(View()), id, container, commit, outcome), id, outcome, o.saves(id))
    {
      TracedIsLater();
      SaveMetadata(id, container, commit, outcome, o.turns(0));
      ghost var v := View();
      SettleDispatch(id, outcome, o.saves(id), o.turns(1));
      LaterIsTransitive(old(View()), v, View());
    }

    /** `HandleJobCompleted`: the report is written, whatever the run's status was. */
    method HandleJobCompleted(id: nat, report: Report, saves: bool) returns (ok: bool)
      requires Traced()
      modifies this
      ensures Traced() && start == old(start) && old(trace) <= trace && ok == (id in old(runs) && saves)
      ensures now == old(now) && used == old(used)
      ensures runs == if ok then old(runs)[id := Completed(old(runs)[id], now, report)] else old(runs)
      ensures ok ==> Terminal(runs[id].status)
    {
      ok := id in runs && saves;
      if ok {
        Do(Finish(id, report));
      }
    }

    /** Whatever calls were made and whatever happened around them, no run fell back. */
    lemma CodeNeverGoesBack(id: nat)
      requires Traced() && id in start.runs && id in runs
      ensures Rank(start.runs[id].status) <= Rank(runs[id].status)
    {
      RunsNeverGoBack(start, trace, id);
    }
  }
}
