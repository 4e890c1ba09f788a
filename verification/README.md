# Dataset lineage engine of recon, in Dafny

This project models the `Dataset` class of recon (`recon/dataset.py`). A
dataset holds an ordered list of annotated examples and an append-only
history of operation records. The model covers four things:

- **apply_.** Running a registered operation always appends the record the
  operation returns. The example list is replaced only when that record
  reports added, removed or changed examples.
- **Load-time reconciliation (`from_disk`).**
  - The stored snapshot's history is adopted.
  - The loaded examples' commit id is compared with the snapshot's.
  - On a mismatch an `examples_added_external` record is appended and every
    record is reset to `NOT_STARTED`.
  - The first record of each registered operation name is then replayed
    through `apply_`.
- **Snapshot construction (`to_disk`).** The snapshot holds the name, commit
  id, size and history.
- **Constructor normalisation.** A missing or empty operation list becomes an
  empty history.

Everything is pure and immutable. A `Dataset` is a value, and `apply_` and
`from_disk` are functions from the old value to the new one. Three
collaborators are parameters:

- the content hash `dataset_hash`, a `Hasher` from an example list to a
  commit id;
- the operation registry, a `map<string, Operation>`;
- the loader, whose result is passed in as the loaded example list.

An `Operation` receives the dataset, the stored positional and keyword
arguments and the initial state. It returns either an outcome (new data plus
record) or the error it raised.

Files:

- `wrappers.dfy`: `Option` and `Result`.
- `types.dfy`: examples, operation records, outcomes, the snapshot, the
  dataset, and the collaborator types.
- `dataset.dfy` (module `Datasets`): the constructor, `Size` (`__len__`),
  `CommitHash` (`commit_hash`), `ApplyInPlace` (`apply_`) and `ToDisk`.
- `reconcile.dfy` (module `Reconcile`): the external-change record, the
  status reset, the pre-replay reconciliation, the replay plan
  (`operations_to_run`), the replay and `FromDisk`.
- `lineage.dfy` (module `Lineage`): lemmas that relate several calls.

Three behaviours of the code that a reader might not expect, all followed
by the model:

- **Replay is unconditional.** Lines 152-163 of `recon/dataset.py` run on
  every load, so even a reload of unchanged data appends one record per
  distinct registered name in the history. `Lineage.SaveThenLoad` states
  this: no external-change record, the stored history kept as a prefix, and
  one new record per distinct registered name.
- **The external-change record is reset too.** It is created `COMPLETED`
  (line 140) but appended before the reset loop of lines 149-150, so it also
  ends up `NOT_STARTED`.
- **Stored records stay `NOT_STARTED`.** Replay (lines 161-163) appends the
  records the operations return and leaves the stored, reset records as they
  are.

## Model

| member | source | states |
|---|---|---|
| Datasets.New | recon/dataset.py:55-70 | Both a missing and an empty operation list give an empty history. A non-empty list is kept as given. A missing example store is built from the data. |
| Datasets.ApplyInPlace | recon/dataset.py:96-109 | On success, the history becomes the old history with exactly the returned record appended as its last element. The data becomes the returned data if and only if the record reports a change; otherwise it stays as it was. Name and example store are untouched. When the operation raises, the error propagates and nothing is appended. |
| Datasets.NoChangeKeepsData | recon/dataset.py:107-109 | An operation whose record reports no change only lengthens the history, whatever example list it hands back. |
| Datasets.Size | recon/dataset.py:79-80 | The size is the number of examples in the current list. |
| Datasets.CommitHash | recon/dataset.py:72-74 | The commit id is the content hash of the current example list and of nothing else. |
| Datasets.NoChangeKeepsCommitAndSize | recon/dataset.py:72-109 | Datasets with the same examples have the same commit id and size whatever their name, history or store; an operation that reports no change leaves both as they were. |
| Datasets.ToDisk | recon/dataset.py:186 | The snapshot carries the commit id and size of exactly the examples written next to it, the dataset's name and its full history. The store is written if and only if requested. |
| Reconcile.ExternalChange | recon/dataset.py:137-147 | The synthetic record is named `examples_added_external` and is `COMPLETED` when created. `added - removed` equals the loaded size minus the stored size, and at most one of the two is nonzero. `changed` is zero and there are no transformations. |
| Reconcile.ResetStatuses | recon/dataset.py:149-150 | Every record becomes `NOT_STARTED`, and no other field and no position changes. |
| Reconcile.Reconciled | recon/dataset.py:125-150 | Without a snapshot, or when the hashes match, the history is the snapshot's history (or the dataset's own when there is no snapshot), with nothing appended or reset. On a mismatch, exactly one record is appended: the external-change record, counted against the stored size. Every record, including that one, is then `NOT_STARTED`. The data is the loaded list. |
| Reconcile.ReplayPlan | recon/dataset.py:152-157 | Every planned name is in the registry, and no name is planned twice. |
| Reconcile.ReplayPlanIsFirstOccurrences | recon/dataset.py:152-157 | Each planned record is the earliest record with its name. The plan is in first-occurrence order. Every registered name in the history is planned. |
| Reconcile.ReplayPlanSize | recon/dataset.py:152-163 | The plan has exactly one entry per distinct registered name in the history. |
| Reconcile.BuildReplayPlan | recon/dataset.py:155-157 | The loop, which tests names against the dictionary's key set, builds exactly the plan described above. |
| Reconcile.Replay | recon/dataset.py:161-163 | Replay keeps the earlier history as a prefix and never touches name or store. If nothing raises, the history grows by exactly the plan's length. If an operation raises, it grows by less. |
| Reconcile.FromDisk | recon/dataset.py:111-165 | The pre-replay history is kept as a prefix. If nothing raises, the history grows by exactly the number of distinct registered names in it. |
| Lineage.ReplaySplit | recon/dataset.py:161-163 | Replaying `a + b` is replaying `a` and then, unless that raised, replaying `b` from the resulting dataset. |
| Lineage.ReplayAppendsReturnedRecords | recon/dataset.py:161-163 | In a replay that raised nothing, the k-th new record is the one returned by the operation registered under the k-th planned name. That operation is called on the dataset left by the first k steps, with the planned record's arguments and the record itself as `initial_state`. |
| Lineage.SaveThenLoad | recon/dataset.py:127-135 | Loading back the examples and snapshot that a save wrote finds matching commit ids. The pre-replay history is exactly the saved history, and its data the saved data. The saved history survives as a prefix, and a load that raises nothing adds one record per distinct registered name. |
| Lineage.MismatchReplaysNotStarted | recon/dataset.py:135-157 | After a hash mismatch, every record passed to an operation as `initial_state` is `NOT_STARTED`. |
| Lineage.LoadWithoutSnapshot | recon/dataset.py:126-135 | Without a snapshot, the dataset's own history is kept unchanged and survives replay as a prefix. |

## Left out

- File and JSON I/O are left out: reading `state.json`, writing the example file, the store and the snapshot, `ensure_path`, directory creation and the `force` flag. The snapshot is an `Option<Snapshot>` parameter and the write is a returned `Saved` value. A state directory that exists without a readable `state.json` is not modelled.
- The hash implementation (`recon/hashing.py`) is not part of this model. It is a deterministic function of the example list supplied as a parameter.
- The loaders and loading pipelines are left out. The loaded example list is a parameter. `Lineage.SaveThenLoad` assumes the loader returns exactly the examples the writer wrote.
- `ExampleStore` internals and persistence are left out. The store is a value built from an example list, carried along unchanged.
- The global operation registry (`catalogue`) is an explicit map parameter.
- Timestamps (`datetime.now()`) and the debug `print` of the plan's keys are left out, because they have no behavioural content.
- `Dataset.apply` (read-only forwarding to a function) is left out, because it only calls the function it is given.
- `recon/preprocess.py` is not part of this model. It wraps a spaCy pipeline with a cache and has no behaviour independent of spaCy.
- Object identity is not modelled. Records are values. An operation that mutates the `initial_state` object it is given would, in Python, also change the stored history entry, and the shared default `data=[]` list could leak between instances. In this model neither can happen.
- Reconcile.FromDisk: when an operation raises during replay, Python propagates the exception and leaves the partly replayed state in `self`; the model returns that state as a value next to the error instead.
- Datasets.ApplyInPlace: record counts are `nat`, following the non-negative counts of the record type, so a negative count that Python would also treat as "changed" cannot occur.
- Datasets.ApplyInPlace: operations are modelled as pure functions of the dataset value they receive, acting only through the data and record they return. At line 105 the Python operation receives the live `self` and could mutate `self.data`, `self.operations` or `self.example_store` in place; such mutation is excluded, so "name and store untouched" and "exactly one record appended" (also in `Reconcile.Replay` and `Reconcile.FromDisk`) hold only for operations that do not mutate the dataset they are given.
- Datasets.CommitHash: line 74 passes the whole dataset to `dataset_hash`, whose body (`recon/hashing.py`) is not part of this model; the `Hasher` parameter sees only the example list. That the commit id ignores name, history and store is therefore an assumption about `dataset_hash`, not something the shown code guarantees.
- Reconcile.ExternalChange: lines 138-146 pass no `args` or `kwargs`, so the record takes `OperationState`'s defaults, declared in `recon/types.py`, which is not part of this model. The model assumes they are empty (`[]` and an empty map); this matters only if `examples_added_external` is ever registered, since replay would then pass these arguments.
