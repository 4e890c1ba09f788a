/** Properties that relate several calls: how replay composes, which record
    each replay step appends, what a save followed by a load reconstructs,
    and what a load after an external change hands to the operations. */
module Lineage {
  import opened Wrappers
  import opened Types
  import opened Datasets
  import opened Reconcile

  /** Replaying a plan in two pieces is replaying the first piece and, unless
      it raised, the second from where the first left off. */
  lemma {:induction false} ReplaySplit(ds: Dataset, a: seq<OperationState>, b: seq<OperationState>, reg: Registry)
    requires forall k :: 0 <= k < |a| ==> a[k].name in reg
    requires forall k :: 0 <= k < |b| ==> b[k].name in reg
    ensures forall k :: 0 <= k < |a + b| ==> (a + b)[k].name in reg
    ensures var m := Replay(ds, a, reg);
      Replay(ds, a + b, reg) == if m.failure.Some? then m else Replay(m.ds, b, reg)
    decreases |a|
  {
    assert forall k :: 0 <= k < |a + b| ==> (a + b)[k].name in reg by {
      forall k | 0 <= k < |a + b| ensures (a + b)[k].name in reg {
        if k < |a| { assert (a + b)[k] == a[k]; } else { assert (a + b)[k] == b[k - |a|]; }
      }
    }
    if a == [] {
      assert a + b == b;
    } else {
      var p := a[0];
      assert (a + b)[0] == p;
      assert (a + b)[1..] == a[1..] + b;
      match ApplyInPlace(ds, reg[p.name], p.args, p.kwargs, Some(p))
      case Failure(e) =>
      case Success(next) =>
        ReplaySplit(next, a[1..], b, reg);
    }
  }

  /** In a replay that raised nothing, the k-th new record is the one the
      operation registered under the k-th planned name returned, when called
      on the dataset left by the first k steps with that planned record's
      arguments and the record itself as its initial state. */
  lemma ReplayAppendsReturnedRecords(ds: Dataset, plan: seq<OperationState>, reg: Registry, k: nat)
    requires forall j :: 0 <= j < |plan| ==> plan[j].name in reg
    requires Replay(ds, plan, reg).failure.None?
    requires k < |plan|
    ensures Replay(ds, plan[..k], reg).failure.None?
    ensures var mid := Replay(ds, plan[..k], reg).ds;
      var out := reg[plan[k].name](mid, plan[k].args, plan[k].kwargs, Some(plan[k]));
      && out.Success?
      && Replay(ds, plan, reg).ds.operations[|ds.operations| + k] == out.value.state
  {
    var front, rest := plan[..k], plan[k..];
    assert plan == front + rest;
    ReplaySplit(ds, front, rest, reg);
    var m := Replay(ds, front, reg);
    var p := rest[0];
    assert p == plan[k];
    match ApplyInPlace(m.ds, reg[p.name], p.args, p.kwargs, Some(p))
    case Failure(e) =>
    case Success(next) =>
      assert Replay(m.ds, rest, reg) == Replay(next, rest[1..], reg);
  }

  /** Saving and then loading the saved examples: the commit ids match, so no
      external-change record is added and no status is touched; the stored
      history is kept as a prefix; and every registered name in it is still
      replayed, one new record each. */
  lemma SaveThenLoad(ds: Dataset, current: Dataset, reg: Registry, hash: Hasher, saveExamples: bool)
    ensures var saved := ToDisk(ds, hash, saveExamples);
      var pre := Reconciled(current, Some(saved.snapshot), saved.file, hash);
      && !Mismatch(Some(saved.snapshot), saved.file, hash)
      && pre.operations == ds.operations
      && pre.data == ds.data
      && CommitHash(pre, hash) == CommitHash(ds, hash)
    ensures var saved := ToDisk(ds, hash, saveExamples);
      var r := FromDisk(current, Some(saved.snapshot), saved.file, reg, hash);
      && ds.operations <= r.ds.operations
      && (r.failure.None? ==>
            |r.ds.operations| == |ds.operations| + |RegisteredNames(ds.operations, reg)|)
  {
  }

  /** After a hash mismatch every record handed to an operation as its
      initial state is NOT_STARTED: the reset happens before the plan is
      built, and the plan only holds records of the reset history. */
  lemma {:induction false} MismatchReplaysNotStarted(ds: Dataset, snap: Snapshot, loaded: seq<Example>,
                                                      reg: Registry, hash: Hasher)
    requires hash(loaded) != snap.commit
    ensures var plan := ReplayPlan(Reconciled(ds, Some(snap), loaded, hash).operations, reg);
      forall k :: 0 <= k < |plan| ==> plan[k].status == NotStarted
  {
    var pre := Reconciled(ds, Some(snap), loaded, hash).operations;
    ReplayPlanIsFirstOccurrences(pre, reg);
  }

  /** A load that finds no snapshot keeps the dataset's own history as it
      was, appends no external-change record and resets no status. */
  lemma LoadWithoutSnapshot(ds: Dataset, loaded: seq<Example>, reg: Registry, hash: Hasher)
    ensures Reconciled(ds, None, loaded, hash).operations == ds.operations
    ensures ds.operations <= FromDisk(ds, None, loaded, reg, hash).ds.operations
  {
  }
}
