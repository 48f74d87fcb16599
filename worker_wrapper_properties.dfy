/**
 * The execution contract the WorkerWrapper test suite pins, stated for all stores and proved
 * about RunSpec (which WorkStore.Run is proved to implement).
 */
module WorkerWrapperProperties {
  import opened Wrappers
  import opened WorkModel
  import opened InputMergers
  import opened DependencyGraph
  import opened WorkerWrapper

  /** Two rows agree on everything but the "handed to the schedulers" mark. */
  predicate SameUpToScheduling(a: WorkSpec, b: WorkSpec)
  {
    a.(scheduleRequested := false) == b.(scheduleRequested := false)
  }

  /** The work `id` is ENQUEUED, both its class names resolve, and it is one-shot. */
  predicate RunnableOneShot(db: Db, id: string)
  {
    && id in db.specs
    && db.specs[id].state == Enqueued
    && db.specs[id].inputMerger.Some? && db.specs[id].workerClass.Some?
    && !db.specs[id].IsPeriodic()
  }

  /** The sweep only marks rows and appends one schedule(...) call. */
  lemma SweepFacts(db: Db, withSchedulers: bool)
    ensures var s := Sweep(db, withSchedulers);
      && s.deps == db.deps && s.specs.Keys == db.specs.Keys
      && (forall x :: x in db.specs ==> SameUpToScheduling(s.specs[x], db.specs[x]))
      && s.events == db.events + (if withSchedulers then [Schedule(EligibleWork(db.specs))] else [])
  {
  }

  lemma DirectDependentIsReached(deps: seq<Dependency>, id: string, x: string)
    requires Dependency(x, id) in deps
    ensures Reaches(deps, id, x) && Reaches(deps, id, id)
  {
    assert IsDependencyPath(deps, [id, x]);
    assert IsDependencyPath(deps, [id]);
  }

  /** An unknown id is a permanent error: onExecuted(id, false, false) and nothing else happens. */
  lemma RunUnknownWork(db: Db, id: string, now: int, withSchedulers: bool)
    requires id !in db.specs
    ensures var o := RunSpec(db, id, now, withSchedulers);
      o.db == db.(events := db.events + [Executed(id, false, false)]) && o.workerInput.None?
  {
  }

  /**
   * A work that is not ENQUEUED is not executed and nothing is written; the listener hears
   * (false, true) when it is already RUNNING and (false, false) otherwise.
   */
  lemma RunNotEnqueued(db: Db, id: string, now: int, withSchedulers: bool)
    requires id in db.specs && db.specs[id].state != Enqueued
    ensures var o := RunSpec(db, id, now, withSchedulers);
      && o.db.specs == db.specs && o.db.deps == db.deps && o.workerInput.None?
      && o.db.events == db.events + [Executed(id, false, db.specs[id].state == Running)]
  {
  }

  /** A CANCELLED work stays CANCELLED and is reported as (false, false). */
  lemma RunCancelled(db: Db, id: string, now: int, withSchedulers: bool)
    requires id in db.specs && db.specs[id].state == Cancelled
    ensures var o := RunSpec(db, id, now, withSchedulers);
      o.db.specs[id].state == Cancelled && o.db.events == db.events + [Executed(id, false, false)]
  {
    RunNotEnqueued(db, id, now, withSchedulers);
  }

  /** A work found RUNNING is reported as (false, true) and keeps its row, attempt count included. */
  lemma RunAlreadyRunning(db: Db, id: string, now: int, withSchedulers: bool)
    requires id in db.specs && db.specs[id].state == Running
    ensures var o := RunSpec(db, id, now, withSchedulers);
      && o.db.specs[id] == db.specs[id] && o.workerInput.None?
      && o.db.events == db.events + [Executed(id, false, true)]
  {
    RunNotEnqueued(db, id, now, withSchedulers);
  }

  /**
   * A worker or input-merger class name that does not resolve is a permanent error: the work ends
   * FAILED without an attempt being counted, and the listener hears (false, false).
   */
  lemma RunUnresolvableClass(db: Db, id: string, now: int, withSchedulers: bool)
    requires id in db.specs && db.specs[id].state == Enqueued
    requires db.specs[id].workerClass.None? || db.specs[id].inputMerger.None?
    ensures var o := RunSpec(db, id, now, withSchedulers);
      && id in o.db.specs && o.db.specs[id].state == Failed
      && o.db.specs[id].runAttemptCount == db.specs[id].runAttemptCount
      && |o.db.events| > |db.events| && o.db.events[|db.events|] == Executed(id, false, false)
      && o.workerInput.None?
  {
    assert IsDependencyPath(db.deps, [id]);
    SweepFacts(Db(FailCascade(db.specs, db.deps, id), db.deps, db.events + [Executed(id, false, false)]), withSchedulers);
  }

  /**
   * An ENQUEUED one-shot work whose worker succeeds ends SUCCEEDED holding the worker's output,
   * with one more attempt counted, and the listener hears (true, false).
   */
  lemma RunOneShotSuccess(db: Db, id: string, now: int, withSchedulers: bool)
    requires RunnableOneShot(db, id)
    requires db.specs[id].workerClass.value in {TestWorker, EchoingWorker, ChainedArgumentWorker}
    ensures var o := RunSpec(db, id, now, withSchedulers);
      && o.workerInput.Some?
      && var r := DoWork(db.specs[id].workerClass.value, o.workerInput.value);
      && r.Success?
      && id in o.db.specs && o.db.specs[id].state == Succeeded && o.db.specs[id].output == r.output
      && o.db.specs[id].runAttemptCount == db.specs[id].runAttemptCount + 1
      && |o.db.events| > |db.events| && o.db.events[|db.events|] == Executed(id, true, false)
  {
    var o := RunSpec(db, id, now, withSchedulers);
    var w := db.specs[id];
    var input := o.workerInput.value;
    var running := w.(state := Running, runAttemptCount := w.runAttemptCount + 1);
    var r := DoWork(w.workerClass.value, input);
    var specs := SpecsAfterResult(db.specs[id := running], db.deps, id, running, r, now);
    assert specs[id] == running.(state := Succeeded, output := r.output);
    SweepFacts(Db(specs, db.deps, db.events + [Reported(id, r)]), withSchedulers);
  }

  /**
   * An ENQUEUED one-shot work whose worker fails ends FAILED with one more attempt counted, and the
   * listener hears (false, false).
   */
  lemma RunOneShotFailure(db: Db, id: string, now: int, withSchedulers: bool)
    requires RunnableOneShot(db, id) && db.specs[id].workerClass.value == FailureWorker
    ensures var o := RunSpec(db, id, now, withSchedulers);
      && id in o.db.specs && o.db.specs[id].state == Failed
      && o.db.specs[id].runAttemptCount == db.specs[id].runAttemptCount + 1
      && |o.db.events| > |db.events| && o.db.events[|db.events|] == Executed(id, false, false)
  {
    var o := RunSpec(db, id, now, withSchedulers);
    var w := db.specs[id];
    var running := w.(state := Running, runAttemptCount := w.runAttemptCount + 1);
    var specs := SpecsAfterResult(db.specs[id := running], db.deps, id, running, Failure, now);
    assert IsDependencyPath(db.deps, [id]);
    assert specs[id] == running.(state := Failed);
    SweepFacts(Db(specs, db.deps, db.events + [Reported(id, Failure)]), withSchedulers);
  }

  /** The work `id` is a runnable one-shot work whose worker class always succeeds. */
  predicate SucceedsOneShot(db: Db, id: string)
  {
    RunnableOneShot(db, id) && db.specs[id].workerClass.value in {TestWorker, EchoingWorker, ChainedArgumentWorker}
  }

  /** The rows once the worker of the one-shot work `id` has succeeded, before unblocking. */
  ghost function SucceededRows(db: Db, id: string): map<string, WorkSpec>
    requires SucceedsOneShot(db, id)
  {
    var w := db.specs[id];
    var r := DoWork(w.workerClass.value, WorkerInput(db, id));
    db.specs[id := w.(state := Succeeded, output := r.output, runAttemptCount := w.runAttemptCount + 1)]
  }

  /** The store a successful one-shot run of `id` leaves before the sweep. */
  ghost function SuccessPre(db: Db, id: string, now: int): Db
    requires SucceedsOneShot(db, id)
  {
    Db(Unblock(SucceededRows(db, id), db.deps, id, now), db.deps, db.events + [Executed(id, true, false)])
  }

  /** A successful one-shot run writes SucceededRows, then unblocks, then sweeps. */
  lemma OneShotSuccessRows(db: Db, id: string, now: int, withSchedulers: bool)
    requires RunnableOneShot(db, id)
    requires db.specs[id].workerClass.value in {TestWorker, EchoingWorker, ChainedArgumentWorker}
    ensures DoWork(db.specs[id].workerClass.value, WorkerInput(db, id)).Success?
    ensures PreSweep(db, id, now) == SuccessPre(db, id, now)
    ensures RunSpec(db, id, now, withSchedulers) == RunOutcome(Sweep(SuccessPre(db, id, now), withSchedulers), Some(WorkerInput(db, id)))
  {
    var w := db.specs[id];
    var running := w.(state := Running, runAttemptCount := w.runAttemptCount + 1);
    var r := DoWork(w.workerClass.value, WorkerInput(db, id));
    assert db.specs[id := running][id := running.(state := Succeeded, output := r.output)] == SucceededRows(db, id);
    assert Reported(id, r) == Executed(id, true, false);
  }

  /** SucceededRows changes only the row of `id`, which it makes SUCCEEDED. */
  lemma SucceededRowsFacts(db: Db, id: string)
    requires SucceedsOneShot(db, id)
    ensures var done := SucceededRows(db, id);
      && done.Keys == db.specs.Keys && done[id].state == Succeeded
      && forall y :: y in db.specs && y != id ==> done[y] == db.specs[y]
  {
  }

  /** Unblocking never touches a SUCCEEDED row and never makes a row SUCCEEDED. */
  lemma UnblockKeepsSucceeded(specs: map<string, WorkSpec>, deps: seq<Dependency>, id: string, now: int, y: string)
    requires y in specs
    ensures var u := Unblock(specs, deps, id, now);
      y in u && (u[y].state == Succeeded <==> specs[y].state == Succeeded)
      && (specs[y].state != Blocked ==> u[y] == specs[y])
  {
  }

  /** Unblocking keeps "all prerequisites complete" for every row that had it. */
  lemma UnblockKeepsCompletion(specs: map<string, WorkSpec>, deps: seq<Dependency>, id: string, now: int, x: string)
    requires HasCompletedAllPrerequisites(specs, deps, x)
    ensures HasCompletedAllPrerequisites(Unblock(specs, deps, id, now), deps, x)
  {
    forall i | 0 <= i < |deps| && deps[i].workSpecId == x
      ensures deps[i].prerequisiteId in Unblock(specs, deps, id, now)
      ensures Unblock(specs, deps, id, now)[deps[i].prerequisiteId].state == Succeeded
    {
      UnblockKeepsSucceeded(specs, deps, id, now, deps[i].prerequisiteId);
    }
  }

  /** Unblocking releases a BLOCKED direct dependent whose prerequisites have all SUCCEEDED. */
  lemma UnblockReleases(done: map<string, WorkSpec>, deps: seq<Dependency>, id: string, x: string, now: int)
    requires x in done && Dependency(x, id) in deps && done[x].state == Blocked
    requires HasCompletedAllPrerequisites(done, deps, x)
    ensures var u := Unblock(done, deps, id, now);
      x in u && u[x] == done[x].(state := Enqueued, periodStartTime := now) && HasCompletedAllPrerequisites(u, deps, x)
  {
    UnblockKeepsCompletion(done, deps, id, now, x);
  }

  /** The sweep changes no row's state, so "all prerequisites complete" survives it unchanged. */
  lemma SweepKeepsCompletion(db: Db, withSchedulers: bool, x: string)
    ensures HasCompletedAllPrerequisites(Sweep(db, withSchedulers).specs, db.deps, x) == HasCompletedAllPrerequisites(db.specs, db.deps, x)
  {
    SweepFacts(db, withSchedulers);
    var s := Sweep(db, withSchedulers).specs;
    assert forall y :: y in db.specs ==> y in s && s[y].state == db.specs[y].state by {
      forall y | y in db.specs ensures y in s && s[y].state == db.specs[y].state {
        assert SameUpToScheduling(s[y], db.specs[y]);
      }
    }
  }

  /** The sweep hands every eligible row to schedule(...), in its state before the mark. */
  lemma SweepHandsOut(db: Db, x: string)
    requires x in db.specs && EligibleForScheduling(db.specs[x])
    ensures var s := Sweep(db, true);
      && |s.events| == |db.events| + 1 && s.events[..|db.events|] == db.events
      && s.events[|db.events|].Schedule? && db.specs[x] in s.events[|db.events|].workSpecs
      && x in s.specs && s.specs[x] == db.specs[x].(scheduleRequested := true)
  {
    assert db.specs[x] in EligibleWork(db.specs);
  }

  /** The successful run's store releases a ready dependent and hands it to the schedulers. */
  lemma SuccessReleasesDependent(db: Db, id: string, x: string, now: int, withSchedulers: bool)
    requires ValidStore(db.specs, db.deps) && SucceedsOneShot(db, id)
    requires Dependency(x, id) in db.deps && db.specs[x].state == Blocked && !db.specs[x].scheduleRequested
    requires forall i :: 0 <= i < |db.deps| && db.deps[i].workSpecId == x && db.deps[i].prerequisiteId != id ==>
      db.specs[db.deps[i].prerequisiteId].state == Succeeded
    ensures var s := Sweep(SuccessPre(db, id, now), withSchedulers);
      && HasCompletedAllPrerequisites(s.specs, s.deps, x)
      && x in s.specs && s.specs[x].state == Enqueued && s.specs[x].periodStartTime == now
      && (withSchedulers ==>
            && |s.events| == |db.events| + 2 && s.events[|db.events| + 1].Schedule?
            && db.specs[x].(state := Enqueued, periodStartTime := now) in s.events[|db.events| + 1].workSpecs)
  {
    var done := SucceededRows(db, id);
    var pre := SuccessPre(db, id, now);
    SucceededRowsFacts(db, id);
    assert x != id by {
      var k :| 0 <= k < |db.deps| && db.deps[k] == Dependency(x, id);
    }
    assert HasCompletedAllPrerequisites(done, db.deps, x);
    UnblockReleases(done, db.deps, id, x, now);
    SweepKeepsCompletion(pre, withSchedulers, x);
    SweepFacts(pre, withSchedulers);
    assert SameUpToScheduling(Sweep(pre, withSchedulers).specs[x], pre.specs[x]);
    if withSchedulers {
      SweepHandsOut(pre, x);
    }
  }

  /**
   * When `id` succeeds, a BLOCKED dependent whose other prerequisites have all SUCCEEDED goes from
   * "not all prerequisites complete" to "all complete", becomes ENQUEUED with its period starting
   * at `now`, and, when schedulers are present, is handed to schedule(...) in that state.
   */
  lemma RunSuccessUnblocksDependent(db: Db, id: string, x: string, now: int, withSchedulers: bool)
    requires ValidStore(db.specs, db.deps) && RunnableOneShot(db, id)
    requires db.specs[id].workerClass.value in {TestWorker, EchoingWorker, ChainedArgumentWorker}
    requires Dependency(x, id) in db.deps && db.specs[x].state == Blocked && !db.specs[x].scheduleRequested
    requires forall i :: 0 <= i < |db.deps| && db.deps[i].workSpecId == x && db.deps[i].prerequisiteId != id ==>
      db.specs[db.deps[i].prerequisiteId].state == Succeeded
    ensures !HasCompletedAllPrerequisites(db.specs, db.deps, x)
    ensures var o := RunSpec(db, id, now, withSchedulers);
      && HasCompletedAllPrerequisites(o.db.specs, o.db.deps, x)
      && o.db.specs[x].state == Enqueued && o.db.specs[x].periodStartTime == now
      && (withSchedulers ==>
            && |o.db.events| == |db.events| + 2 && o.db.events[|db.events| + 1].Schedule?
            && db.specs[x].(state := Enqueued, periodStartTime := now) in o.db.events[|db.events| + 1].workSpecs)
  {
    var k :| 0 <= k < |db.deps| && db.deps[k] == Dependency(x, id);
    assert db.specs[id].state != Succeeded;
    OneShotSuccessRows(db, id, now, withSchedulers);
    SuccessReleasesDependent(db, id, x, now, withSchedulers);
  }

  /** The successful run's store leaves a dependent with an unfinished prerequisite BLOCKED. */
  lemma SuccessKeepsBlocked(db: Db, id: string, x: string, p: string, now: int, withSchedulers: bool)
    requires SucceedsOneShot(db, id)
    requires x in db.specs && db.specs[x].state == Blocked
    requires p in db.specs && Dependency(x, p) in db.deps && p != id && db.specs[p].state != Succeeded
    ensures var s := Sweep(SuccessPre(db, id, now), withSchedulers);
      x in s.specs && s.specs[x].state == Blocked && !HasCompletedAllPrerequisites(s.specs, s.deps, x)
  {
    var done := SucceededRows(db, id);
    var pre := SuccessPre(db, id, now);
    SucceededRowsFacts(db, id);
    StillBlocked(done, db.deps, id, x, p, now);
    SweepKeepsCompletion(pre, withSchedulers, x);
    SweepFacts(pre, withSchedulers);
    assert SameUpToScheduling(Sweep(pre, withSchedulers).specs[x], pre.specs[x]);
  }

  /** A BLOCKED dependent with another prerequisite that has not SUCCEEDED stays BLOCKED. */
  lemma RunSuccessKeepsPartlyBlockedDependent(db: Db, id: string, x: string, p: string, now: int, withSchedulers: bool)
    requires ValidStore(db.specs, db.deps) && RunnableOneShot(db, id)
    requires db.specs[id].workerClass.value in {TestWorker, EchoingWorker, ChainedArgumentWorker}
    requires Dependency(x, id) in db.deps && db.specs[x].state == Blocked
    requires Dependency(x, p) in db.deps && p != id && db.specs[p].state != Succeeded
    ensures var o := RunSpec(db, id, now, withSchedulers);
      o.db.specs[x].state == Blocked && !HasCompletedAllPrerequisites(o.db.specs, o.db.deps, x)
  {
    var k :| 0 <= k < |db.deps| && db.deps[k] == Dependency(x, p);
    OneShotSuccessRows(db, id, now, withSchedulers);
    SuccessKeepsBlocked(db, id, x, p, now, withSchedulers);
  }

  /** Unblocking leaves a dependent alone while one of its prerequisites has not SUCCEEDED. */
  lemma StillBlocked(done: map<string, WorkSpec>, deps: seq<Dependency>, id: string, x: string, p: string, now: int)
    requires x in done && p in done && Dependency(x, p) in deps && done[p].state != Succeeded
    ensures var u := Unblock(done, deps, id, now);
      x in u && u[x] == done[x] && !HasCompletedAllPrerequisites(u, deps, x)
  {
    var k :| 0 <= k < |deps| && deps[k] == Dependency(x, p);
    UnblockKeepsSucceeded(done, deps, id, now, p);
  }

  /** A permanent failure of `id`: its worker fails on a one-shot run, or a class name does not resolve. */
  predicate FailsPermanently(db: Db, id: string)
  {
    && id in db.specs && db.specs[id].state == Enqueued
    && (|| db.specs[id].workerClass.None? || db.specs[id].inputMerger.None?
        || (RunnableOneShot(db, id) && db.specs[id].workerClass.value == FailureWorker))
  }

  /** The rows the failure cascade starts from: the work is RUNNING if its worker was built. */
  function FailureBase(db: Db, id: string): map<string, WorkSpec>
    requires id in db.specs
  {
    var w := db.specs[id];
    if w.workerClass.None? || w.inputMerger.None? then db.specs
    else db.specs[id := w.(state := Running, runAttemptCount := w.runAttemptCount + 1)]
  }

  /** The store a permanent failure of `id` leaves before the sweep. */
  ghost function FailurePre(db: Db, id: string): Db
    requires id in db.specs
  {
    Db(FailCascade(FailureBase(db, id), db.deps, id), db.deps, db.events + [Executed(id, false, false)])
  }

  /** A permanent failure writes FailureBase, then fails the cascade, then sweeps. */
  lemma PermanentFailureRows(db: Db, id: string, now: int)
    requires FailsPermanently(db, id)
    ensures PreSweep(db, id, now) == FailurePre(db, id)
  {
    var w := db.specs[id];
    if !(w.workerClass.None? || w.inputMerger.None?) {
      var running := w.(state := Running, runAttemptCount := w.runAttemptCount + 1);
      assert DoWork(w.workerClass.value, WorkerInput(db, id)) == Failure;
      AfterWorkerIs(db, id, now, running, Failure);
      assert FailureBase(db, id) == db.specs[id := running];
      assert SpecsAfterResult(db.specs[id := running], db.deps, id, running, Failure, now)
        == FailCascade(db.specs[id := running], db.deps, id);
      assert Reported(id, Failure) == Executed(id, false, false);
    }
  }

  /** The failure store fails what the cascade reaches but CANCELLED rows, and keeps the rest. */
  lemma FailureCascadeRows(db: Db, id: string, withSchedulers: bool)
    requires ValidStore(db.specs, db.deps) && id in db.specs && db.specs[id].state == Enqueued
    ensures var s := Sweep(FailurePre(db, id), withSchedulers);
      && s.specs.Keys == db.specs.Keys
      && forall x :: x in db.specs ==>
           && (Reaches(db.deps, id, x) && db.specs[x].state != Cancelled ==> s.specs[x].state == Failed)
           && (db.specs[x].state == Cancelled ==> s.specs[x].state == Cancelled)
           && (!Reaches(db.deps, id, x) ==> s.specs[x].state == db.specs[x].state)
  {
    var base := FailureBase(db, id);
    var pre := FailurePre(db, id);
    var s := Sweep(pre, withSchedulers);
    SweepFacts(pre, withSchedulers);
    assert IsDependencyPath(db.deps, [id]);
    forall x | x in db.specs
      ensures Reaches(db.deps, id, x) && db.specs[x].state != Cancelled ==> s.specs[x].state == Failed
      ensures db.specs[x].state == Cancelled ==> s.specs[x].state == Cancelled
      ensures !Reaches(db.deps, id, x) ==> s.specs[x].state == db.specs[x].state
    {
      assert s.specs[x].state == pre.specs[x].state by {
        assert SameUpToScheduling(s.specs[x], pre.specs[x]);
      }
      assert base[x].state == db.specs[x].state || (x == id && base[x].state == Running);
    }
  }

  /**
   * A permanent failure of a one-shot work (its worker fails, or a class name does not resolve)
   * fails the work and every transitive dependent, except the CANCELLED ones, which stay CANCELLED;
   * works it does not reach keep their state.
   */
  lemma RunFailureCascades(db: Db, id: string, now: int, withSchedulers: bool)
    requires ValidStore(db.specs, db.deps) && FailsPermanently(db, id)
    ensures var o := RunSpec(db, id, now, withSchedulers);
      && o.db.specs.Keys == db.specs.Keys
      && forall x :: x in db.specs ==>
           && (Reaches(db.deps, id, x) && db.specs[x].state != Cancelled ==> o.db.specs[x].state == Failed)
           && (db.specs[x].state == Cancelled ==> o.db.specs[x].state == Cancelled)
           && (!Reaches(db.deps, id, x) ==> o.db.specs[x].state == db.specs[x].state)
  {
    PermanentFailureRows(db, id, now);
    assert RunSpec(db, id, now, withSchedulers).db == Sweep(FailurePre(db, id), withSchedulers);
    FailureCascadeRows(db, id, withSchedulers);
  }

  /** In particular a failure fails every direct dependent that was not CANCELLED. */
  lemma RunFailureFailsDirectDependent(db: Db, id: string, x: string, now: int, withSchedulers: bool)
    requires ValidStore(db.specs, db.deps) && RunnableOneShot(db, id) && db.specs[id].workerClass.value == FailureWorker
    requires Dependency(x, id) in db.deps && db.specs[x].state != Cancelled
    ensures RunSpec(db, id, now, withSchedulers).db.specs[x].state == Failed
  {
    assert FailsPermanently(db, id);
    DirectDependentIsReached(db.deps, id, x);
    RunFailureCascades(db, id, now, withSchedulers);
  }

  /**
   * A work whose only prerequisite ran ChainedArgumentWorker to success now receives exactly that
   * worker's output as its prerequisite input.
   */
  lemma RunPassesOutputToDependent(db: Db, id: string, x: string, k: nat, now: int, withSchedulers: bool)
    requires ValidStore(db.specs, db.deps) && RunnableOneShot(db, id) && db.specs[id].workerClass.value == ChainedArgumentWorker
    requires k < |db.deps| && db.deps[k] == Dependency(x, id)
    requires forall i :: 0 <= i < |db.deps| && i != k ==> db.deps[i].workSpecId != x
    ensures var o := RunSpec(db, id, now, withSchedulers);
      InputsFromPrerequisites(o.db.specs, o.db.deps, x) == [ChainedArguments()]
  {
    var o := RunSpec(db, id, now, withSchedulers);
    RunOneShotSuccess(db, id, now, withSchedulers);
    SweepFacts(o.db, false);
    assert o.db.deps == db.deps;
    InputsFromSinglePrerequisite(o.db.specs, o.db.deps, x, k);
  }

  /**
   * A work with ArrayCreatingInputMerger, an empty own input and exactly two prerequisite rows,
   * anywhere in the table, whose works both output `key` receives one key whose array holds both values.
   */
  lemma RunMergesPrerequisiteOutputs(db: Db, x: string, p1: string, p2: string, k1: nat, k2: nat, key: string,
                                     v1: string, v2: string, now: int, withSchedulers: bool)
    requires ValidStore(db.specs, db.deps) && IsEnqueued(db, x)
    requires db.specs[x].inputMerger == Some(ArrayCreatingInputMerger) && db.specs[x].workerClass.Some?
    requires db.specs[x].input == map[]
    requires k1 < k2 < |db.deps| && db.deps[k1] == Dependency(x, p1) && db.deps[k2] == Dependency(x, p2)
    requires forall i :: 0 <= i < |db.deps| && i != k1 && i != k2 ==> db.deps[i].workSpecId != x
    requires p1 in db.specs && p2 in db.specs
    requires db.specs[p1].output == map[key := Str(v1)] && db.specs[p2].output == map[key := Str(v2)]
    ensures var o := RunSpec(db, x, now, withSchedulers);
      && o.workerInput.Some? && |o.workerInput.value| == 1 && key in o.workerInput.value
      && o.workerInput.value[key].StrArray? && multiset(o.workerInput.value[key].items) == multiset{v1, v2}
  {
    var outputs := InputsFromPrerequisites(db.specs, db.deps, x);
    InputsFromTwoPrerequisites(db.specs, db.deps, x, k1, k2);
    assert outputs == [map[key := Str(v1)], map[key := Str(v2)]];
    assert [map[]] + outputs == [map[], map[key := Str(v1)], map[key := Str(v2)]];
    ArrayMergeOfTwoEchoes(key, v1, v2);
  }

  predicate IsEnqueued(db: Db, id: string)
  {
    id in db.specs && db.specs[id].state == Enqueued
  }

  /** EchoingWorker without prerequisites outputs exactly the input its work was enqueued with. */
  lemma RunEchoingWorkerOutputsInput(db: Db, id: string, now: int, withSchedulers: bool)
    requires ValidStore(db.specs, db.deps) && RunnableOneShot(db, id) && db.specs[id].workerClass.value == EchoingWorker
    requires forall i :: 0 <= i < |db.deps| ==> db.deps[i].workSpecId != id
    ensures var o := RunSpec(db, id, now, withSchedulers);
      o.workerInput == Some(db.specs[id].input) && o.db.specs[id].output == db.specs[id].input
  {
    NoInputsWithoutRows(db.specs, db.deps, id);
    RunOneShotSuccess(db, id, now, withSchedulers);
  }

  /**
   * A periodic work whose worker succeeds or fails goes back to ENQUEUED with its attempt count
   * reset and its period advanced by one interval; the listener hears (success, false).
   */
  lemma RunPeriodic(db: Db, id: string, now: int, withSchedulers: bool)
    requires IsEnqueued(db, id) && db.specs[id].inputMerger.Some? && db.specs[id].workerClass.Some?
    requires db.specs[id].IsPeriodic() && db.specs[id].workerClass.value != RetryWorker
    ensures var o := RunSpec(db, id, now, withSchedulers);
      var w := db.specs[id];
      && id in o.db.specs && o.db.specs[id].state == Enqueued && o.db.specs[id].runAttemptCount == 0
      && o.db.specs[id].periodStartTime == w.periodStartTime + w.intervalDuration
      && |o.db.events| > |db.events| && o.db.events[|db.events|] == Executed(id, w.workerClass.value != FailureWorker, false)
  {
    var o := RunSpec(db, id, now, withSchedulers);
    var w := db.specs[id];
    var running := w.(state := Running, runAttemptCount := w.runAttemptCount + 1);
    var r := DoWork(w.workerClass.value, o.workerInput.value);
    var specs := SpecsAfterResult(db.specs[id := running], db.deps, id, running, r, now);
    assert specs == db.specs[id := ResetPeriodic(running)];
    SweepFacts(Db(specs, db.deps, db.events + [Reported(id, r)]), withSchedulers);
  }

  /**
   * A worker asking for a retry leaves its work ENQUEUED with the attempt counted and the period
   * untouched; the listener hears (false, true).
   */
  lemma RunRetry(db: Db, id: string, now: int, withSchedulers: bool)
    requires IsEnqueued(db, id) && db.specs[id].inputMerger.Some? && db.specs[id].workerClass == Some(RetryWorker)
    ensures var o := RunSpec(db, id, now, withSchedulers);
      var w := db.specs[id];
      && id in o.db.specs && o.db.specs[id].state == Enqueued
      && o.db.specs[id].runAttemptCount == w.runAttemptCount + 1
      && o.db.specs[id].periodStartTime == w.periodStartTime
      && |o.db.events| > |db.events| && o.db.events[|db.events|] == Executed(id, false, true)
  {
    var o := RunSpec(db, id, now, withSchedulers);
    var w := db.specs[id];
    var running := w.(state := Running, runAttemptCount := w.runAttemptCount + 1);
    var specs := SpecsAfterResult(db.specs[id := running], db.deps, id, running, Retry, now);
    SweepFacts(Db(specs, db.deps, db.events + [Reported(id, Retry)]), withSchedulers);
  }

  /**
   * Every run that passes the state check ends with exactly one schedule(...) call, after exactly
   * one listener call; that call hands out only ENQUEUED work not yet handed to the schedulers, and
   * an ENQUEUED work the run does not reach that was not yet handed to them is handed out and marked.
   */
  lemma RunSchedulesPendingWork(db: Db, id: string, y: string, now: int)
    requires ValidStore(db.specs, db.deps) && id in db.specs && db.specs[id].state == Enqueued
    requires y in db.specs && EligibleForScheduling(db.specs[y]) && !Reaches(db.deps, id, y)
    ensures var o := RunSpec(db, id, now, true);
      && |o.db.events| == |db.events| + 2 && o.db.events[..|db.events|] == db.events
      && o.db.events[|db.events|].Executed? && o.db.events[|db.events|].workSpecId == id
      && o.db.events[|db.events| + 1].Schedule?
      && db.specs[y] in o.db.events[|db.events| + 1].workSpecs
      && (forall s :: s in o.db.events[|db.events| + 1].workSpecs ==> s.state == Enqueued && !s.scheduleRequested)
      && y in o.db.specs && o.db.specs[y] == db.specs[y].(scheduleRequested := true)
  {
    var pre := PreSweep(db, id, now);
    assert RunSpec(db, id, now, true).db == Sweep(pre, true);
    PreSweepKeepsIds(db, id, now);
    PreSweepEvents(db, id, now);
    PreSweepUntouched(db, id, now, y);
    SweepFacts(pre, true);
    assert pre.specs[y] in EligibleWork(pre.specs);
  }

  /** Rows keep their ids and the map keeps its keys. */
  predicate SameIds(a: map<string, WorkSpec>, b: map<string, WorkSpec>)
  {
    a.Keys == b.Keys && forall k :: k in a ==> a[k].id == b[k].id
  }

  /** Recording a worker result writes new states, counts and outputs but never a row's id. */
  lemma SpecsAfterResultKeepsIds(specs: map<string, WorkSpec>, deps: seq<Dependency>, id: string, running: WorkSpec,
                                 r: WorkResult, now: int)
    requires id in specs && running.id == specs[id].id
    ensures SameIds(SpecsAfterResult(specs, deps, id, running, r, now), specs)
  {
    if r.Failure? && !running.IsPeriodic() {
      FailCascadeKeepsIds(specs, deps, id);
    } else if r.Success? && !running.IsPeriodic() {
      var done := specs[id := running.(state := Succeeded, output := r.output)];
      assert SameIds(done, specs);
      assert SameIds(Unblock(done, deps, id, now), done);
    }
  }

  /** A run writes new states, counts and outputs but never a row's id or the set of ids. */
  lemma PreSweepKeepsIds(db: Db, id: string, now: int)
    requires id in db.specs && db.specs[id].state == Enqueued
    ensures SameIds(PreSweep(db, id, now).specs, db.specs) && PreSweep(db, id, now).deps == db.deps
  {
    var w := db.specs[id];
    if w.inputMerger.None? || w.workerClass.None? {
      FailCascadeKeepsIds(db.specs, db.deps, id);
    } else {
      var running := w.(state := Running, runAttemptCount := w.runAttemptCount + 1);
      var r := DoWork(w.workerClass.value, WorkerInput(db, id));
      AfterWorkerIs(db, id, now, running, r);
      SpecsAfterResultKeepsIds(db.specs[id := running], db.deps, id, running, r, now);
      assert SameIds(db.specs[id := running], db.specs);
    }
  }

  lemma FailCascadeKeepsIds(specs: map<string, WorkSpec>, deps: seq<Dependency>, id: string)
    ensures SameIds(FailCascade(specs, deps, id), specs)
  {
  }

  /** A run that passes the state check makes exactly one listener call for its work before the sweep. */
  lemma PreSweepEvents(db: Db, id: string, now: int)
    requires id in db.specs && db.specs[id].state == Enqueued
    ensures var pre := PreSweep(db, id, now);
      && |pre.events| == |db.events| + 1 && pre.events[..|db.events|] == db.events
      && pre.events[|db.events|].Executed? && pre.events[|db.events|].workSpecId == id
  {
  }

  /** A run leaves every row outside `id`'s transitive dependents as it was. */
  lemma PreSweepUntouched(db: Db, id: string, now: int, y: string)
    requires id in db.specs && db.specs[id].state == Enqueued
    requires y in db.specs && !Reaches(db.deps, id, y)
    ensures var pre := PreSweep(db, id, now);
      y in pre.specs && pre.specs[y] == db.specs[y]
  {
    assert IsDependencyPath(db.deps, [id]);
    var w := db.specs[id];
    if !(w.inputMerger.None? || w.workerClass.None?) {
      var input := EffectiveInput(w.input, w.inputMerger.value, InputsFromPrerequisites(db.specs, db.deps, id));
      var running := w.(state := Running, runAttemptCount := w.runAttemptCount + 1);
      var r := DoWork(w.workerClass.value, input);
      if r.Success? && !w.IsPeriodic() && Dependency(y, id) in db.deps {
        DirectDependentIsReached(db.deps, id, y);
      }
    }
  }

  /** The frame of a run that passes the state check, stated on the swept store. */
  lemma SweptFrame(db: Db, id: string, now: int, withSchedulers: bool)
    requires ValidStore(db.specs, db.deps) && id in db.specs && db.specs[id].state == Enqueued
    ensures var s := Sweep(PreSweep(db, id, now), withSchedulers);
      && ValidStore(s.specs, s.deps)
      && s.deps == db.deps && s.specs.Keys == db.specs.Keys
      && |s.events| > |db.events| && s.events[..|db.events|] == db.events
      && forall y :: y in db.specs && !Reaches(db.deps, id, y) ==> SameUpToScheduling(s.specs[y], db.specs[y])
  {
    var pre := PreSweep(db, id, now);
    var s := Sweep(pre, withSchedulers);
    SweepFacts(pre, withSchedulers);
    PreSweepKeepsIds(db, id, now);
    PreSweepEvents(db, id, now);
    forall y | y in db.specs
      ensures s.specs[y].id == y
      ensures !Reaches(db.deps, id, y) ==> SameUpToScheduling(s.specs[y], db.specs[y])
    {
      assert SameUpToScheduling(s.specs[y], pre.specs[y]);
      if !Reaches(db.deps, id, y) {
        PreSweepUntouched(db, id, now, y);
      }
    }
  }

  /**
   * What any run preserves: the store stays well formed, the dependency table and the ids are
   * unchanged, the events only grow, and every work outside `id`'s transitive dependents is
   * unchanged but for its scheduled mark.
   */
  lemma RunFrame(db: Db, id: string, now: int, withSchedulers: bool)
    requires ValidStore(db.specs, db.deps)
    ensures var o := RunSpec(db, id, now, withSchedulers);
      && ValidStore(o.db.specs, o.db.deps)
      && o.db.deps == db.deps && o.db.specs.Keys == db.specs.Keys
      && |o.db.events| > |db.events| && o.db.events[..|db.events|] == db.events
      && forall y :: y in db.specs && !Reaches(db.deps, id, y) ==> SameUpToScheduling(o.db.specs[y], db.specs[y])
  {
    if id in db.specs && db.specs[id].state == Enqueued {
      assert RunSpec(db, id, now, withSchedulers).db == Sweep(PreSweep(db, id, now), withSchedulers);
      SweptFrame(db, id, now, withSchedulers);
    }
  }

  /**
   * With schedulers present, a one-shot TestWorker work that no row depends on, in a store where no
   * other work awaits scheduling, ends with one listener call and one schedule(...) call that has
   * nothing left to hand out.
   */
  lemma RunLoneWorkCallsScheduler(db: Db, id: string, now: int)
    requires RunnableOneShot(db, id) && db.specs[id].workerClass == Some(TestWorker)
    requires forall i :: 0 <= i < |db.deps| ==> db.deps[i].prerequisiteId != id
    requires forall y :: y in db.specs && y != id ==> !EligibleForScheduling(db.specs[y])
    ensures var o := RunSpec(db, id, now, true);
      o.db.events == db.events + [Executed(id, true, false), Schedule({})]
  {
    OneShotSuccessRows(db, id, now, true);
    SucceededRowsFacts(db, id);
    var done := SucceededRows(db, id);
    assert Unblock(done, db.deps, id, now) == done;
    assert EligibleWork(done) == {};
  }
}
