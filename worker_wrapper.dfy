/**
 * One execution of WorkerWrapper.run() over the work store, as an atomic step: the state check,
 * class resolution, input merging, the attempt count, the worker's result, the dependents it
 * unblocks or fails, and the listener and scheduler calls it makes.
 */
module WorkerWrapper {
  import opened Wrappers
  import opened WorkModel
  import opened InputMergers
  import opened DependencyGraph

  /** The store as a value: WorkSpec rows by id, dependency rows, and the calls made so far. */
  datatype Db = Db(specs: map<string, WorkSpec>, deps: seq<Dependency>, events: seq<Event>)

  /** What one run leaves: the new store and the input the worker was built with, if one was. */
  datatype RunOutcome = RunOutcome(db: Db, workerInput: Option<Data>)

  /** Rows are keyed by their id and dependency rows point at existing rows. */
  predicate ValidStore(specs: map<string, WorkSpec>, deps: seq<Dependency>)
  {
    && (forall k :: k in specs ==> specs[k].id == k)
    && (forall i :: 0 <= i < |deps| ==> deps[i].workSpecId in specs && deps[i].prerequisiteId in specs)
  }

  /** The input a work runs with: its own input, merged with its prerequisites' outputs if it has any. */
  function EffectiveInput(own: Data, merger: MergerKind, prerequisiteOutputs: seq<Data>): Data
  {
    if prerequisiteOutputs == [] then own else Merge(merger, [own] + prerequisiteOutputs)
  }

  /** A periodic work goes back to ENQUEUED for the next period with a fresh attempt count. */
  function ResetPeriodic(w: WorkSpec): WorkSpec
  {
    w.(state := Enqueued, runAttemptCount := 0, periodStartTime := w.periodStartTime + w.intervalDuration)
  }

  /**
   * The work `id` and every transitive dependent of it become FAILED, except those already
   * CANCELLED; nothing else changes.
   */
  ghost function FailCascade(specs: map<string, WorkSpec>, deps: seq<Dependency>, id: string): map<string, WorkSpec>
  {
    map x | x in specs :: if Reaches(deps, id, x) && specs[x].state != Cancelled then specs[x].(state := Failed) else specs[x]
  }

  /**
   * Every BLOCKED direct dependent of `id` whose prerequisites have all SUCCEEDED becomes ENQUEUED
   * with its period starting at `now`; nothing else changes.
   */
  function Unblock(specs: map<string, WorkSpec>, deps: seq<Dependency>, id: string, now: int): map<string, WorkSpec>
  {
    map x | x in specs ::
      if Dependency(x, id) in deps && specs[x].state == Blocked && HasCompletedAllPrerequisites(specs, deps, x)
      then specs[x].(state := Enqueued, periodStartTime := now)
      else specs[x]
  }

  /** The rows the scheduler sweep hands out: ENQUEUED and not yet handed to the schedulers. */
  predicate EligibleForScheduling(w: WorkSpec)
  {
    w.state == Enqueued && !w.scheduleRequested
  }

  function EligibleWork(specs: map<string, WorkSpec>): set<WorkSpec>
  {
    set x | x in specs && EligibleForScheduling(specs[x]) :: specs[x]
  }

  function MarkScheduled(specs: map<string, WorkSpec>): map<string, WorkSpec>
  {
    map x | x in specs :: if EligibleForScheduling(specs[x]) then specs[x].(scheduleRequested := true) else specs[x]
  }

  /** The scheduler sweep: pass every eligible row to schedule(...) once and mark it scheduled. */
  function Sweep(db: Db, withSchedulers: bool): Db
  {
    if withSchedulers then Db(MarkScheduled(db.specs), db.deps, db.events + [Schedule(EligibleWork(db.specs))])
    else db
  }

  /** The listener call for a worker result: onExecuted(id, success, needsReschedule). */
  function Reported(id: string, r: WorkResult): Event
  {
    Executed(id, r.Success?, r.Retry?)
  }

  /** The rows after the worker of the RUNNING row `running` returned `r`. */
  ghost function SpecsAfterResult(specs: map<string, WorkSpec>, deps: seq<Dependency>, id: string, running: WorkSpec,
                                  r: WorkResult, now: int): map<string, WorkSpec>
  {
    match r
    case Success(out) =>
      if running.IsPeriodic() then specs[id := ResetPeriodic(running)]
      else Unblock(specs[id := running.(state := Succeeded, output := out)], deps, id, now)
    case Failure =>
      if running.IsPeriodic() then specs[id := ResetPeriodic(running)]
      else FailCascade(specs, deps, id)
    case Retry =>
      specs[id := running.(state := Enqueued)]
  }

  /** The input the worker of the ENQUEUED, resolvable work `id` is built with. */
  function WorkerInput(db: Db, id: string): Data
    requires id in db.specs && db.specs[id].inputMerger.Some?
  {
    var w := db.specs[id];
    EffectiveInput(w.input, w.inputMerger.value, InputsFromPrerequisites(db.specs, db.deps, id))
  }

  /** The store after a run that passed the state check, before the scheduler sweep. */
  ghost function PreSweep(db: Db, id: string, now: int): Db
    requires id in db.specs && db.specs[id].state == Enqueued
  {
    var w := db.specs[id];
    if w.inputMerger.None? || w.workerClass.None? then
      Db(FailCascade(db.specs, db.deps, id), db.deps, db.events + [Executed(id, false, false)])
    else
      AfterWorker(db, id, now)
  }

  /**
   * The store once the worker of the resolvable work `id` ran: the row was RUNNING with one more
   * attempt, the result is recorded and reported to the listener.
   */
  ghost function AfterWorker(db: Db, id: string, now: int): Db
    requires id in db.specs && db.specs[id].inputMerger.Some? && db.specs[id].workerClass.Some?
  {
    var w := db.specs[id];
    var running := w.(state := Running, runAttemptCount := w.runAttemptCount + 1);
    var r := DoWork(w.workerClass.value, WorkerInput(db, id));
    Db(SpecsAfterResult(db.specs[id := running], db.deps, id, running, r, now), db.deps, db.events + [Reported(id, r)])
  }

  lemma AfterWorkerIs(db: Db, id: string, now: int, running: WorkSpec, r: WorkResult)
    requires id in db.specs && db.specs[id].inputMerger.Some? && db.specs[id].workerClass.Some?
    requires running == db.specs[id].(state := Running, runAttemptCount := db.specs[id].runAttemptCount + 1)
    requires r == DoWork(db.specs[id].workerClass.value, WorkerInput(db, id))
    ensures AfterWorker(db, id, now) == Db(SpecsAfterResult(db.specs[id := running], db.deps, id, running, r, now), db.deps, db.events + [Reported(id, r)])
  {
  }

  /** The whole effect of one run of the work `id` at time `now`. */
  ghost function RunSpec(db: Db, id: string, now: int, withSchedulers: bool): RunOutcome
  {
    if id !in db.specs then
      RunOutcome(db.(events := db.events + [Executed(id, false, false)]), None)
    else
      var w := db.specs[id];
      if w.state != Enqueued then
        RunOutcome(db.(events := db.events + [Executed(id, false, w.state == Running)]), None)
      else
        var input := if w.inputMerger.None? || w.workerClass.None? then None else Some(WorkerInput(db, id));
        RunOutcome(Sweep(PreSweep(db, id, now), withSchedulers), input)
  }

  /** The work store, updated in place by each run. */
  class WorkStore {
    var specs: map<string, WorkSpec>
    var deps: seq<Dependency>
    var events: seq<Event>

    predicate Valid()
      reads this
    {
      ValidStore(specs, deps)
    }

    function Snapshot(): Db
      reads this
    {
      Db(specs, deps, events)
    }

    constructor (specs: map<string, WorkSpec>, deps: seq<Dependency>)
      requires ValidStore(specs, deps)
      ensures Valid() && this.specs == specs && this.deps == deps && events == []
    {
      this.specs, this.deps, events := specs, deps, [];
    }

    /** Run the work `id` once; `now` is the clock reading the run uses to unblock dependents. */
    method Run(id: string, now: int, withSchedulers: bool) returns (workerInput: Option<Data>)
      requires Valid()
      modifies this
      ensures Valid()
      ensures RunOutcome(Snapshot(), workerInput) == RunSpec(old(Snapshot()), id, now, withSchedulers)
    {
      ghost var db0 := Snapshot();
      if id !in specs {
        events := events + [Executed(id, false, false)];
        return None;
      }
      var w := specs[id];
      if w.state != Enqueued {
        events := events + [Executed(id, false, w.state == Running)];
        return None;
      }
      if w.inputMerger.None? || w.workerClass.None? {
        FailWorkAndDependents(id);
        events := events + [Executed(id, false, false)];
        assert Snapshot() == PreSweep(db0, id, now);
        ScheduleEligibleWork(withSchedulers);
        return None;
      }
      var input := ExecuteWorker(id, w, now);
      ScheduleEligibleWork(withSchedulers);
      return Some(input);
    }

    /**
     * The part of a run after the checks: build the input, mark the row RUNNING with one more
     * attempt, run the worker, record its result and report it to the listener.
     */
    method ExecuteWorker(id: string, w: WorkSpec, now: int) returns (input: Data)
      requires Valid() && id in specs && specs[id] == w && w.inputMerger.Some? && w.workerClass.Some?
      modifies this
      ensures Valid()
      ensures input == WorkerInput(old(Snapshot()), id)
      ensures Snapshot() == AfterWorker(old(Snapshot()), id, now)
    {
      ghost var db0 := Snapshot();
      input := WorkerInput(Snapshot(), id);
      var running := w.(state := Running, runAttemptCount := w.runAttemptCount + 1);
      specs := specs[id := running];
      ghost var started := specs;
      var r := DoWork(w.workerClass.value, input);
      FinishWork(id, running, r, now);
      events := events + [Reported(id, r)];
      AfterWorkerIs(db0, id, now, running, r);
      assert specs == SpecsAfterResult(started, db0.deps, id, running, r, now);
    }

    /** Record the worker's result for the RUNNING row `running` of work `id`. */
    method FinishWork(id: string, running: WorkSpec, r: WorkResult, now: int)
      requires Valid() && id in specs && specs[id] == running
      modifies this
      ensures Valid()
      ensures specs == SpecsAfterResult(old(specs), deps, id, running, r, now) && deps == old(deps) && events == old(events)
    {
      match r {
        case Success(out) =>
          if running.IsPeriodic() {
            specs := specs[id := ResetPeriodic(running)];
          } else {
            specs := specs[id := running.(state := Succeeded, output := out)];
            UnblockDependents(id, now);
          }
        case Failure =>
          if running.IsPeriodic() {
            specs := specs[id := ResetPeriodic(running)];
          } else {
            FailWorkAndDependents(id);
          }
        case Retry =>
          specs := specs[id := running.(state := Enqueued)];
      }
    }

    /** Fail `id` and its transitive dependents, leaving CANCELLED ones alone. */
    method FailWorkAndDependents(id: string)
      requires Valid()
      modifies this
      ensures Valid()
      ensures specs == FailCascade(old(specs), deps, id) && deps == old(deps) && events == old(events)
    {
      var failing := TransitiveDependents(deps, id);
      specs := map x | x in specs :: if x in failing && specs[x].state != Cancelled then specs[x].(state := Failed) else specs[x];
    }

    /** Walk the direct dependents of the just-succeeded `id` and enqueue the ones now free to run. */
    method UnblockDependents(id: string, now: int)
      requires Valid()
      modifies this
      ensures Valid()
      ensures specs == Unblock(old(specs), deps, id, now) && deps == old(deps) && events == old(events)
    {
      var dependents := DependentIds(deps, id);
      ghost var specs0 := specs;
      var i := 0;
      while i < |dependents|
        invariant 0 <= i <= |dependents|
        invariant deps == old(deps) && events == old(events)
        invariant specs == ConsideredRows(specs0, deps, now, dependents[..i])
      {
        var d := dependents[i];
        ConsideredRowsStep(specs0, deps, now, dependents, i);
        if d in specs && specs[d].state == Blocked && HasCompletedAllPrerequisites(specs, deps, d) {
          specs := specs[d := specs[d].(state := Enqueued, periodStartTime := now)];
        }
        i := i + 1;
      }
      assert dependents[..i] == dependents;
      ConsideredRowsAreUnblocked(specs0, deps, now, dependents);
      UnblockComplete(specs0, deps, id, now, dependents);
      UnblockKeepsStore(specs0, deps, id, now);
    }

    /** Hand every eligible row to the schedulers in one schedule(...) call and mark it scheduled. */
    method ScheduleEligibleWork(withSchedulers: bool)
      requires Valid()
      modifies this
      ensures Valid()
      ensures Snapshot() == Sweep(old(Snapshot()), withSchedulers)
    {
      if withSchedulers {
        var eligible := EligibleWork(specs);
        specs := MarkScheduled(specs);
        events := events + [Schedule(eligible)];
      }
    }
  }

  /** The rows once the dependents in `visited` have been considered for unblocking. */
  function UnblockedMap(specs: map<string, WorkSpec>, deps: seq<Dependency>, now: int, visited: seq<string>): map<string, WorkSpec>
  {
    map x | x in specs ::
      if x in visited && specs[x].state == Blocked && HasCompletedAllPrerequisites(specs, deps, x)
      then specs[x].(state := Enqueued, periodStartTime := now)
      else specs[x]
  }

  /** Unblocking never makes a row SUCCEEDED or un-SUCCEEDED, so prerequisite checks see the same answers. */
  lemma SucceededRowsUnchanged(specs: map<string, WorkSpec>, deps: seq<Dependency>, now: int, visited: seq<string>, x: string)
    ensures HasCompletedAllPrerequisites(UnblockedMap(specs, deps, now, visited), deps, x) == HasCompletedAllPrerequisites(specs, deps, x)
  {
    var u := UnblockedMap(specs, deps, now, visited);
    assert forall y :: y in specs ==> y in u && (u[y].state == Succeeded <==> specs[y].state == Succeeded);
  }

  /** The rows after the loop considered the dependents in `visited` one by one, in order. */
  function ConsideredRows(specs: map<string, WorkSpec>, deps: seq<Dependency>, now: int, visited: seq<string>): map<string, WorkSpec>
    decreases |visited|
  {
    if visited == [] then specs
    else
      var u := ConsideredRows(specs, deps, now, visited[..|visited| - 1]);
      var d := visited[|visited| - 1];
      if d in u && u[d].state == Blocked && HasCompletedAllPrerequisites(u, deps, d)
      then u[d := u[d].(state := Enqueued, periodStartTime := now)] else u
  }

  /** ConsideredRows takes the dependent at position `i` into account by one loop step. */
  lemma ConsideredRowsStep(specs: map<string, WorkSpec>, deps: seq<Dependency>, now: int, dependents: seq<string>, i: nat)
    requires i < |dependents|
    ensures var u := ConsideredRows(specs, deps, now, dependents[..i]);
      var d := dependents[i];
      ConsideredRows(specs, deps, now, dependents[..i + 1]) ==
        if d in u && u[d].state == Blocked && HasCompletedAllPrerequisites(u, deps, d)
        then u[d := u[d].(state := Enqueued, periodStartTime := now)] else u
  {
    assert dependents[..i + 1][..i] == dependents[..i];
  }

  /** Considering one more dependent `d` updates at most row `d`, exactly as the loop body does. */
  lemma UnblockStep(specs: map<string, WorkSpec>, deps: seq<Dependency>, now: int, visited: seq<string>, d: string)
    ensures var u := UnblockedMap(specs, deps, now, visited);
      UnblockedMap(specs, deps, now, visited + [d]) ==
        if d in u && u[d].state == Blocked && HasCompletedAllPrerequisites(u, deps, d)
        then u[d := u[d].(state := Enqueued, periodStartTime := now)] else u
  {
    var u := UnblockedMap(specs, deps, now, visited);
    SucceededRowsUnchanged(specs, deps, now, visited, d);
    if d in visited {
      assert UnblockedMap(specs, deps, now, visited + [d]) == u;
    } else if d in u {
      assert u[d] == specs[d];
    }
  }

  /**
   * Considering the dependents one at a time gives the same rows as considering them all against
   * the rows as they were, since unblocking never changes a prerequisite check.
   */
  lemma {:induction false} ConsideredRowsAreUnblocked(specs: map<string, WorkSpec>, deps: seq<Dependency>, now: int, visited: seq<string>)
    ensures ConsideredRows(specs, deps, now, visited) == UnblockedMap(specs, deps, now, visited)
    decreases |visited|
  {
    if visited == [] {
      assert UnblockedMap(specs, deps, now, visited) == specs;
    } else {
      var prefix, d := visited[..|visited| - 1], visited[|visited| - 1];
      ConsideredRowsAreUnblocked(specs, deps, now, prefix);
      assert visited == prefix + [d];
      UnblockStep(specs, deps, now, prefix, d);
    }
  }

  /** Once every direct dependent of `id` was considered, the rows are Unblock's. */
  lemma UnblockComplete(specs: map<string, WorkSpec>, deps: seq<Dependency>, id: string, now: int, dependents: seq<string>)
    requires forall x :: x in dependents <==> Dependency(x, id) in deps
    ensures UnblockedMap(specs, deps, now, dependents) == Unblock(specs, deps, id, now)
  {
  }

  /** Unblocking keeps every row's id and every dependency row's ends. */
  lemma UnblockKeepsStore(specs: map<string, WorkSpec>, deps: seq<Dependency>, id: string, now: int)
    requires ValidStore(specs, deps)
    ensures ValidStore(Unblock(specs, deps, id, now), deps)
  {
  }
}
