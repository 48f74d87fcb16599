/**
 * The entities of WorkManager's execution contract: work states, the key-value Data payload,
 * WorkSpec rows, dependency rows, worker results and the test workers, and the events a run
 * reports to its listener and schedulers.
 */
module WorkModel {
  import opened Wrappers

  /** The lifecycle states of a unit of work. */
  datatype State = Enqueued | Running | Blocked | Succeeded | Failed | Cancelled

  /** A Data value: only strings and string arrays occur in the behaviour modelled here. */
  datatype Value = Str(s: string) | StrArray(items: seq<string>)

  /** A Data payload: a key-value map. */
  type Data = map<string, Value>

  /** The worker classes the test suite uses. */
  datatype WorkerKind = TestWorker | FailureWorker | RetryWorker | EchoingWorker | ChainedArgumentWorker

  /** The input merger classes: the default overwriting one and ArrayCreatingInputMerger. */
  datatype MergerKind = OverwritingInputMerger | ArrayCreatingInputMerger

  /**
   * A persisted WorkSpec row. `workerClass` and `inputMerger` are None when the stored class
   * name does not resolve to a class. `intervalDuration` is 0 for one-shot work; a positive value
   * makes the work periodic. `scheduleRequested` records whether the row was already handed to
   * the schedulers.
   */
  datatype WorkSpec = WorkSpec(
    id: string,
    state: State,
    workerClass: Option<WorkerKind>,
    inputMerger: Option<MergerKind>,
    input: Data,
    output: Data,
    runAttemptCount: nat,
    periodStartTime: int,
    intervalDuration: nat,
    scheduleRequested: bool)
  {
    predicate IsPeriodic() { intervalDuration > 0 }
  }

  /** A dependency row: `workSpecId` may not run before `prerequisiteId` has succeeded. */
  datatype Dependency = Dependency(workSpecId: string, prerequisiteId: string)

  /** What a worker's doWork returns. */
  datatype WorkResult = Success(output: Data) | Failure | Retry

  /** One observable call: the listener's onExecuted, or one schedule(...) call on the schedulers. */
  datatype Event =
    | Executed(workSpecId: string, success: bool, needsReschedule: bool)
    | Schedule(workSpecs: set<WorkSpec>)

  /** The key and value ChainedArgumentWorker emits (the worker's source is not part of this model). */
  const ChainedArgumentKey: string := "chained-key"
  const ChainedArgumentValue: string := "chained-value"

  function ChainedArguments(): Data
  {
    map[ChainedArgumentKey := Str(ChainedArgumentValue)]
  }

  /** The result each test worker produces for a given input. */
  function DoWork(kind: WorkerKind, input: Data): (r: WorkResult)
    ensures r.Success? <==> kind in {TestWorker, EchoingWorker, ChainedArgumentWorker}
    ensures kind == EchoingWorker ==> r == Success(input)
    ensures kind == ChainedArgumentWorker ==> r == Success(ChainedArguments())
    ensures kind == FailureWorker <==> r == Failure
    ensures kind == RetryWorker <==> r == Retry
  {
    match kind
    case TestWorker => Success(map[])
    case FailureWorker => Failure
    case RetryWorker => Retry
    case EchoingWorker => Success(input)
    case ChainedArgumentWorker => Success(ChainedArguments())
  }
}
