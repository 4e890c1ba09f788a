/** The Dataset engine's own operations: construction, size and commit id,
    the in-place apply protocol and snapshot construction for saving. */
module Datasets {
  import opened Wrappers
  import opened Types

  /** Dataset.__init__: a missing or empty operation list becomes a fresh
      empty history, and a missing store is built from the data. */
  function New(name: string, data: seq<Example>, operations: Option<seq<OperationState>>,
               store: Option<ExampleStore>): (ds: Dataset)
    ensures ds.name == name && ds.data == data
    ensures operations.Some? ==> ds.operations == operations.value
    ensures operations.None? ==> ds.operations == []
    ensures store.Some? ==> ds.exampleStore == store.value
    ensures store.None? ==> ds.exampleStore == ExampleStore(data)
  {
    var ops := if operations.None? || operations.value == [] then [] else operations.value;
    var st := if store.None? then ExampleStore(data) else store.value;
    Dataset(name, data, ops, st)
  }

  /** len(dataset): the number of examples currently held. */
  function Size(ds: Dataset): (n: nat)
    ensures n == |ds.data|
  {
    |ds.data|
  }

  /** The commit id: the content hash of the current example list. It reads
      nothing but the examples, so name, history and store do not enter it. */
  function CommitHash(ds: Dataset, hash: Hasher): (c: Commit)
    ensures c == hash(ds.data)
  {
    hash(ds.data)
  }

  /** `after` is `before` with exactly `rec` appended as its last element. */
  predicate Appended(before: seq<OperationState>, after: seq<OperationState>, rec: OperationState)
  {
    |after| == |before| + 1 && after[..|before|] == before && after[|before|] == rec
  }

  /** apply_: run the operation on the dataset; on success append the record
      it returns, and take its data only if that record reports a change.
      A raised error leaves the dataset as it was. */
  function ApplyInPlace(ds: Dataset, op: Operation, args: seq<Value>, kwargs: map<string, Value>,
                        initial: Option<OperationState>): (r: Result<Dataset, OpError>)
    ensures op(ds, args, kwargs, initial).Failure? <==> r.Failure?
    ensures r.Failure? ==> r.error == op(ds, args, kwargs, initial).error
    ensures r.Success? ==>
      var out := op(ds, args, kwargs, initial).value;
      && Appended(ds.operations, r.value.operations, out.state)
      && (ReportsChange(out.state) ==> r.value.data == out.data)
      && (!ReportsChange(out.state) ==> r.value.data == ds.data)
      && r.value.name == ds.name
      && r.value.exampleStore == ds.exampleStore
  {
    match op(ds, args, kwargs, initial)
    case Failure(e) => Failure(e)
    case Success(out) =>
      var data := if ReportsChange(out.state) then out.data else ds.data;
      Success(ds.(operations := ds.operations + [out.state], data := data))
  }

  /** An operation that reports no change cannot replace the example list,
      whatever list it hands back; only the history grows. */
  lemma NoChangeKeepsData(ds: Dataset, op: Operation, args: seq<Value>, kwargs: map<string, Value>,
                          initial: Option<OperationState>)
    requires op(ds, args, kwargs, initial).Success?
    requires !ReportsChange(op(ds, args, kwargs, initial).value.state)
    ensures ApplyInPlace(ds, op, args, kwargs, initial)
            == Success(ds.(operations := ds.operations + [op(ds, args, kwargs, initial).value.state]))
  {
  }

  /** The commit id and the size follow the example list alone: a dataset
      with another name, history or store but the same examples has the same
      commit id and size, and so has the dataset after an operation that
      reports no change. */
  lemma NoChangeKeepsCommitAndSize(ds: Dataset, other: Dataset, hash: Hasher, op: Operation,
                                   args: seq<Value>, kwargs: map<string, Value>,
                                   initial: Option<OperationState>)
    ensures other.data == ds.data ==>
      CommitHash(other, hash) == CommitHash(ds, hash) && Size(other) == Size(ds)
    ensures var r := ApplyInPlace(ds, op, args, kwargs, initial);
      r.Success? && !ReportsChange(op(ds, args, kwargs, initial).value.state) ==>
        CommitHash(r.value, hash) == CommitHash(ds, hash) && Size(r.value) == Size(ds)
  {
  }

  /** What to_disk writes: the example file, the snapshot and, unless
      suppressed, the example store. */
  datatype Saved = Saved(file: seq<Example>, snapshot: Snapshot, store: Option<ExampleStore>)

  /** to_disk: the snapshot records the dataset's name, its commit id, its
      size and its whole history. */
  function ToDisk(ds: Dataset, hash: Hasher, saveExamples: bool): (s: Saved)
    ensures s.file == ds.data
    ensures s.snapshot.name == ds.name
    ensures s.snapshot.commit == CommitHash(ds, hash)
    ensures s.snapshot.size == Size(ds)
    ensures s.snapshot.operations == ds.operations
    ensures s.store.Some? <==> saveExamples
    ensures s.store.Some? ==> s.store.value == ds.exampleStore
  {
    var snap := Snapshot(ds.name, CommitHash(ds, hash), Size(ds), ds.operations);
    Saved(ds.data, snap, if saveExamples then Some(ds.exampleStore) else None)
  }
}
