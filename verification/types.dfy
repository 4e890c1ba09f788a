/** The records the Dataset engine works on: examples, operation records,
    operation outcomes, the persisted snapshot and the dataset itself.

    The fields follow the uses in recon/dataset.py; recon/types.py, where
    they are declared, is not part of this model. */
module Types {
  import opened Wrappers

  /** The content hash the engine uses as a commit id. */
  type Commit = string

  datatype Span = Span(start: int, end: int, tag: string)

  /** One annotated unit: its text and its labelled spans. */
  datatype Example = Example(text: string, spans: seq<Span>)

  /** A positional or keyword argument an operation was invoked with. */
  datatype Value = Str(s: string) | Int(i: int) | Bool(b: bool) | Null

  datatype OperationStatus = NotStarted | Completed

  /** One per-example change: the content hash before and after, either of
      which is absent for a pure addition or removal. */
  datatype Transformation = Transformation(prev: Option<int>, next: Option<int>)

  /** The record of one applied operation (OperationState). Timestamps are
      not modelled. */
  datatype OperationState = OperationState(
    name: string,
    status: OperationStatus,
    examplesAdded: nat,
    examplesRemoved: nat,
    examplesChanged: nat,
    transformations: seq<Transformation>,
    args: seq<Value>,
    kwargs: map<string, Value>)

  /** Whether a record reports any added, removed or changed example, the
      truth value of `any((added, removed, changed))`. */
  predicate ReportsChange(s: OperationState)
  {
    s.examplesAdded != 0 || s.examplesRemoved != 0 || s.examplesChanged != 0
  }

  /** What an operation returns: the new example list and its record. */
  datatype OperationResult = OperationResult(data: seq<Example>, state: OperationState)

  /** The exception an operation raised. */
  datatype OpError = OpError(message: string)

  /** The raw-content store, built from an example list and persisted on its
      own; its internals belong to another component. */
  datatype ExampleStore = ExampleStore(examples: seq<Example>)

  /** The persisted snapshot (DatasetOperationsState) kept in state.json. */
  datatype Snapshot = Snapshot(name: string, commit: Commit, size: nat, operations: seq<OperationState>)

  datatype Dataset = Dataset(
    name: string,
    data: seq<Example>,
    operations: seq<OperationState>,
    exampleStore: ExampleStore)

  /** A registered operation: it receives the whole dataset, the stored
      positional and keyword arguments and the record to resume from, and
      either returns an outcome or raises. */
  type Operation = (Dataset, seq<Value>, map<string, Value>, Option<OperationState>) -> Result<OperationResult, OpError>

  /** The operation registry, keyed by operation name. */
  type Registry = map<string, Operation>

  /** The content hash over an example list (dataset_hash). */
  type Hasher = seq<Example> -> Commit
}
