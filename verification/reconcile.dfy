/** Load-time reconciliation (Dataset.from_disk): adopt the stored history,
    record an external change when the loaded data's hash differs from the
    snapshot's, then replay the first occurrence of every registered
    operation name through apply_. */
module Reconcile {
  import opened Wrappers
  import opened Types
  import opened Datasets

  const ExternalChangeName: string := "examples_added_external"

  function Max0(x: int): (m: nat)
  {
    if x > 0 then x else 0
  }

  /** The synthetic record for data changed outside the engine: it counts
      the growth or shrinkage of the example list against the stored size. */
  function ExternalChange(loadedSize: nat, savedSize: nat): (rec: OperationState)
    ensures rec.name == ExternalChangeName && rec.status == Completed
    ensures rec.examplesAdded - rec.examplesRemoved == loadedSize - savedSize
    ensures rec.examplesAdded == 0 || rec.examplesRemoved == 0
    ensures rec.examplesChanged == 0 && rec.transformations == []
  {
    OperationState(ExternalChangeName, Completed,
                   Max0(loadedSize - savedSize), Max0(savedSize - loadedSize), 0,
                   [], [], map[])
  }

  /** Mark every record NOT_STARTED, keeping everything else about it. */
  function ResetStatuses(h: seq<OperationState>): (r: seq<OperationState>)
    ensures |r| == |h|
    ensures forall i :: 0 <= i < |h| ==> r[i].status == NotStarted
    ensures forall i :: 0 <= i < |h| ==> r[i] == h[i].(status := NotStarted)
  {
    if h == [] then [] else [h[0].(status := NotStarted)] + ResetStatuses(h[1..])
  }

  /** A snapshot exists and the loaded data's commit id differs from it. */
  predicate Mismatch(snapshot: Option<Snapshot>, loaded: seq<Example>, hash: Hasher)
  {
    snapshot.Some? && hash(loaded) != snapshot.value.commit
  }

  /** The dataset as it stands before replay: the stored history replaces
      the current one when a snapshot exists, the loaded examples replace
      the data, and a hash mismatch appends the external-change record and
      resets every record to NOT_STARTED. */
  function Reconciled(ds: Dataset, snapshot: Option<Snapshot>, loaded: seq<Example>, hash: Hasher): (r: Dataset)
    ensures r.name == ds.name && r.exampleStore == ds.exampleStore && r.data == loaded
    ensures !Mismatch(snapshot, loaded, hash) ==>
      r.operations == (if snapshot.Some? then snapshot.value.operations else ds.operations)
    ensures Mismatch(snapshot, loaded, hash) ==>
      var stored := snapshot.value.operations;
      && |r.operations| == |stored| + 1
      && (forall i :: 0 <= i < |r.operations| ==> r.operations[i].status == NotStarted)
      && (forall i :: 0 <= i < |stored| ==> r.operations[i] == stored[i].(status := NotStarted))
      && r.operations[|stored|] == ExternalChange(|loaded|, snapshot.value.size).(status := NotStarted)
  {
    var history := if snapshot.Some? then snapshot.value.operations else ds.operations;
    var history' :=
      if Mismatch(snapshot, loaded, hash)
      then ResetStatuses(history + [ExternalChange(|loaded|, snapshot.value.size)])
      else history;
    ds.(operations := history', data := loaded)
  }

  /** Some record of the sequence carries the name. */
  predicate HasName(s: seq<OperationState>, name: string)
  {
    exists i :: 0 <= i < |s| && s[i].name == name
  }

  lemma HasNameAppend(s: seq<OperationState>, op: OperationState)
    ensures forall n :: HasName(s + [op], n) <==> HasName(s, n) || n == op.name
  {
    var t := s + [op];
    assert t[|s|] == op;
    assert forall k :: 0 <= k < |s| ==> t[k] == s[k];
  }

  /** The names in a history that the registry knows. */
  function RegisteredNames(h: seq<OperationState>, reg: Registry): (names: set<string>)
  {
    set i | 0 <= i < |h| && h[i].name in reg :: h[i].name
  }

  /** The position of the earliest record with the given name. */
  function FirstIndex(h: seq<OperationState>, name: string): (k: nat)
    requires HasName(h, name)
    ensures k < |h| && h[k].name == name
    ensures forall j :: 0 <= j < k ==> h[j].name != name
    decreases |h|
  {
    var front := h[..|h| - 1];
    assert forall j :: 0 <= j < |front| ==> front[j] == h[j];
    if HasName(front, name) then FirstIndex(front, name) else |h| - 1
  }

  /** operations_to_run: one pass over the history in order, keeping a record
      when its name is not yet a key and the registry knows it. Defined on
      prefixes, so ReplayPlan(h[..i]) is the dictionary after i steps. */
  function ReplayPlan(h: seq<OperationState>, reg: Registry): (plan: seq<OperationState>)
    ensures |plan| <= |h|
    ensures forall k :: 0 <= k < |plan| ==> plan[k].name in reg
    ensures forall k, l :: 0 <= k < l < |plan| ==> plan[k].name != plan[l].name
    decreases |h|
  {
    if h == [] then []
    else
      var plan := ReplayPlan(h[..|h| - 1], reg);
      var op := h[|h| - 1];
      if !HasName(plan, op.name) && op.name in reg then plan + [op] else plan
  }

  /** The loop that fills operations_to_run in Dataset.from_disk
      (recon/dataset.py), written with the dictionary's key set; it computes
      exactly ReplayPlan. */
  method BuildReplayPlan(h: seq<OperationState>, reg: Registry) returns (plan: seq<OperationState>)
    ensures plan == ReplayPlan(h, reg)
  {
    var keys: set<string> := {};
    plan := [];
    var i := 0;
    while i < |h|
      invariant 0 <= i <= |h|
      invariant plan == ReplayPlan(h[..i], reg)
      invariant forall n :: n in keys <==> HasName(plan, n)
    {
      var op := h[i];
      assert h[..i + 1][..i] == h[..i];
      if op.name !in keys && op.name in reg {
        HasNameAppend(plan, op);
        plan := plan + [op];
        keys := keys + {op.name};
      }
      i := i + 1;
    }
    assert h[..|h|] == h;
  }

  /** The outcome of a load: the dataset as reconciled, and the error of the
      operation that raised during replay, if one did. On an error the
      dataset is the state left behind at that point. */
  datatype Loaded = Loaded(ds: Dataset, failure: Option<OpError>)

  /** Replay each planned record, in order, through apply_ with its stored
      arguments and itself as the initial state; stop at the first error. */
  function Replay(ds: Dataset, plan: seq<OperationState>, reg: Registry): (r: Loaded)
    requires forall k :: 0 <= k < |plan| ==> plan[k].name in reg
    ensures r.ds.name == ds.name && r.ds.exampleStore == ds.exampleStore
    ensures ds.operations <= r.ds.operations
    ensures r.failure.None? ==> |r.ds.operations| == |ds.operations| + |plan|
    ensures r.failure.Some? ==> |r.ds.operations| < |ds.operations| + |plan|
    decreases |plan|
  {
    if plan == [] then Loaded(ds, None)
    else
      var p := plan[0];
      match ApplyInPlace(ds, reg[p.name], p.args, p.kwargs, Some(p))
      case Failure(e) => Loaded(ds, Some(e))
      case Success(next) => Replay(next, plan[1..], reg)
  }

  /** from_disk, with the snapshot read from state.json and the examples
      read by the loader passed in. */
  function FromDisk(ds: Dataset, snapshot: Option<Snapshot>, loaded: seq<Example>,
                    reg: Registry, hash: Hasher): (r: Loaded)
    ensures r.ds.name == ds.name && r.ds.exampleStore == ds.exampleStore
    ensures Reconciled(ds, snapshot, loaded, hash).operations <= r.ds.operations
    ensures r.failure.None? ==>
      var pre := Reconciled(ds, snapshot, loaded, hash).operations;
      |r.ds.operations| == |pre| + |RegisteredNames(pre, reg)|
  {
    var pre := Reconciled(ds, snapshot, loaded, hash);
    var plan := ReplayPlan(pre.operations, reg);
    ReplayPlanSize(pre.operations, reg);
    Replay(pre, plan, reg)
  }

  // ---------------------------------------------------------------------
  // The replay plan against its independent description

  /** Every planned record is the earliest record of its name, the plan
      follows first-occurrence order, and every registered name of the
      history is planned. */
  lemma {:induction false} ReplayPlanIsFirstOccurrences(h: seq<OperationState>, reg: Registry)
    ensures var plan := ReplayPlan(h, reg);
      && (forall k :: 0 <= k < |plan| ==>
            HasName(h, plan[k].name) && plan[k] == h[FirstIndex(h, plan[k].name)])
      && (forall k, l :: 0 <= k < l < |plan| ==>
            FirstIndex(h, plan[k].name) < FirstIndex(h, plan[l].name))
      && (forall i :: 0 <= i < |h| && h[i].name in reg ==> HasName(plan, h[i].name))
    decreases |h|
  {
    if h != [] {
      var front := h[..|h| - 1];
      var op := h[|h| - 1];
      var prev := ReplayPlan(front, reg);
      ReplayPlanIsFirstOccurrences(front, reg);
      FirstIndexOfPrefix(h);
      if !HasName(prev, op.name) && op.name in reg {
        assert !HasName(front, op.name);
        assert HasName(h, op.name) by { assert h[|h| - 1].name == op.name; }
        assert FirstIndex(h, op.name) == |h| - 1;
        var plan := prev + [op];
        assert forall k :: 0 <= k < |prev| ==> plan[k] == prev[k];
        forall i | 0 <= i < |h| && h[i].name in reg
          ensures HasName(plan, h[i].name)
        {
          if i < |h| - 1 {
            assert front[i] == h[i];
            var k :| 0 <= k < |prev| && prev[k].name == h[i].name;
            assert plan[k] == prev[k];
          } else {
            assert plan[|prev|] == op;
          }
        }
      } else {
        forall i | 0 <= i < |h| && h[i].name in reg
          ensures HasName(prev, h[i].name)
        {
          if i < |h| - 1 {
            assert front[i] == h[i];
          }
        }
      }
    }
  }

  /** On names the prefix already carries, the earliest record is the same
      in the prefix and in the whole history. */
  lemma FirstIndexOfPrefix(h: seq<OperationState>)
    requires h != []
    ensures forall n :: HasName(h[..|h| - 1], n) ==>
      HasName(h, n) && FirstIndex(h, n) == FirstIndex(h[..|h| - 1], n)
      && h[FirstIndex(h, n)] == h[..|h| - 1][FirstIndex(h, n)]
  {
  }

  /** Names in a sequence with pairwise distinct names form a set of the
      same size. */
  lemma {:induction false} DistinctNamesCount(s: seq<OperationState>)
    requires forall k, l :: 0 <= k < l < |s| ==> s[k].name != s[l].name
    ensures |set k | 0 <= k < |s| :: s[k].name| == |s|
    decreases |s|
  {
    if s != [] {
      var front := s[..|s| - 1];
      DistinctNamesCount(front);
      var a := set k | 0 <= k < |front| :: front[k].name;
      var b := set k | 0 <= k < |s| :: s[k].name;
      assert b == a + {s[|s| - 1].name};
      assert s[|s| - 1].name !in a;
    }
  }

  /** The plan has exactly one entry per distinct registered name, so a
      successful replay grows the history by that many records. */
  lemma ReplayPlanSize(h: seq<OperationState>, reg: Registry)
    ensures |ReplayPlan(h, reg)| == |RegisteredNames(h, reg)|
  {
    var plan := ReplayPlan(h, reg);
    ReplayPlanIsFirstOccurrences(h, reg);
    DistinctNamesCount(plan);
    var planned := set k | 0 <= k < |plan| :: plan[k].name;
    forall n | n in RegisteredNames(h, reg) ensures n in planned {
      var i :| 0 <= i < |h| && h[i].name in reg && h[i].name == n;
      var k :| 0 <= k < |plan| && plan[k].name == n;
    }
    forall n | n in planned ensures n in RegisteredNames(h, reg) {
      var k :| 0 <= k < |plan| && plan[k].name == n;
      var i := FirstIndex(h, n);
    }
    assert planned == RegisteredNames(h, reg);
  }
}
