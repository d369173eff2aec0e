/** The operations that change the project on disk, each proved to be the step that
    UpdateApply and UpdateRollback define (cli/commands/update.ts:358-764). */
module UpdateProject {
  import opened UpdateTree
  import opened UpdateApply
  import opened UpdateRollback

  /** The project on disk. */
  class Project {
    var tree: Tree
    var journal: seq<Record>
    var backups: map<nat, Tree>
    var nextId: nat

    constructor (w: World)
      ensures View() == w
    {
      tree, journal, backups, nextId := w.tree, w.journal, w.backups, w.nextId;
    }

    function View(): World
      reads this
    {
      World(tree, journal, backups, nextId)
    }

    method StageUpdateOperations(codec: Codec, ops: seq<Operation>) returns (staged: seq<Staged>, batch: nat)
      modifies this`nextId
      ensures batch == old(nextId) && nextId == old(nextId) + 1 + |ops|
      ensures staged == Stage(codec, tree, ops, old(nextId) + 1)
    {
      batch := nextId;
      nextId := nextId + 1;
      staged := [];
      for i := 0 to |ops|
        invariant nextId == old(nextId) + 1 + i && |staged| == i
        invariant forall k :: 0 <= k < i ==> staged[k] == StageOne(codec, tree, ops[k], old(nextId) + 1 + k)
      {
        staged := staged + [StageOne(codec, tree, ops[i], nextId)];
        nextId := nextId + 1;
      }
      assert staged == Stage(codec, tree, ops, old(nextId) + 1);
    }

    /** Appends to the journal; returns whether the call came back. */
    method AppendRecords(records: seq<Record>, fault: Fault) returns (ok: bool)
      modifies this`journal
      ensures (journal, ok) == Append(old(journal), records, fault)
    {
      if fault.ThrowsBefore? {
        return false;
      }
      journal := journal + records;
      return fault.NoFault?;
    }

    method BackUpAll(staged: seq<Staged>, faults: Faults) returns (ok: bool)
      modifies this`backups
      ensures (backups, ok) == BackUp(staged, tree, old(backups), faults, |staged|)
    {
      for i := 0 to |staged|
        invariant (backups, true) == BackUp(staged, tree, old(backups), faults, i)
      {
        if staged[i].existed {
          if faults.backup(i) {
            StopsBackingUp(staged, tree, old(backups), faults, i + 1, |staged|);
            return false;
          }
          backups := backups[staged[i].id := Subtree(tree, staged[i].op.path)];
        }
      }
      return true;
    }

    method MutateAll(staged: seq<Staged>, faults: Faults) returns (applied: nat, ok: bool)
      modifies this`tree
      ensures Progress(tree, applied, ok) == Mutate(staged, old(tree), faults, |staged|)
    {
      applied := 0;
      for i := 0 to |staged|
        invariant applied == i && Progress(tree, i, true) == Mutate(staged, old(tree), faults, i)
      {
        var op := staged[i].op;
        if !Possible(op, tree) || faults.mutate(i).ThrowsBefore? {
          StopsMutating(staged, old(tree), faults, i + 1, |staged|);
          return applied, false;
        }
        if op.RemoveStale? {
          tree := RemoveTree(tree, op.path);
        } else {
          tree := Effect(op, tree);
        }
        if faults.mutate(i).ThrowsAfter? {
          StopsMutating(staged, old(tree), faults, i + 1, |staged|);
          return applied, false;
        }
        applied := applied + 1;
      }
      return applied, true;
    }

    method RestoreAppliedOperations(staged: seq<Staged>, applied: nat)
      requires applied <= |staged|
      modifies this`tree
      ensures tree == Restore(old(tree), staged, backups, applied)
    {
      var index: nat := applied;
      while index > 0
        invariant index <= applied
        invariant Restore(tree, staged, backups, index) == Restore(old(tree), staged, backups, applied)
      {
        index := index - 1;
        tree := RestoreOne(tree, staged[index], backups);
      }
    }

    method FailBatch(codec: Codec, staged: seq<Staged>, batch: nat, applied: nat, faults: Faults) returns (outcome: Outcome)
      requires applied <= |staged|
      modifies this
      ensures (View(), outcome) == Fail(codec, old(View()), staged, batch, applied, faults)
    {
      RestoreAppliedOperations(staged, applied);
      var ok := AppendRecords(Records(codec, staged, RolledBack, batch), faults.rolledBack);
      return if ok then RestoredBatch else IntegrityError;
    }

    /** What runs under the locks once the staged entries are known to be current. */
    method TransactBatch(codec: Codec, staged: seq<Staged>, batch: nat, faults: Faults) returns (outcome: Outcome)
      modifies this
      ensures (View(), outcome) == Transact(codec, old(View()), staged, batch, faults)
    {
      var ok := AppendRecords(Records(codec, staged, Prepared, batch), faults.prepared);
      if !ok {
        outcome := FailBatch(codec, staged, batch, 0, faults);
        return;
      }
      ok := BackUpAll(staged, faults);
      if !ok {
        outcome := FailBatch(codec, staged, batch, 0, faults);
        return;
      }
      var applied;
      applied, ok := MutateAll(staged, faults);
      if !ok {
        outcome := FailBatch(codec, staged, batch, applied, faults);
        return;
      }
      ok := AppendRecords(Records(codec, staged, Committed, batch), faults.commit);
      if !ok {
        outcome := FailBatch(codec, staged, batch, |staged|, faults);
        return;
      }
      return CommittedBatch(batch);
    }

    /** Others may change the tree until the locks are held; then it is `locked`. */
    method ApplyUnderLocks(codec: Codec, staged: seq<Staged>, batch: nat, locked: Tree, faults: Faults) returns (outcome: Outcome)
      modifies this
      ensures (View(), outcome) == ApplyStaged(codec, old(View()), staged, batch, locked, faults)
    {
      tree := locked;
      if !AllCurrent(codec, staged, tree) {
        return Stale;
      }
      outcome := TransactBatch(codec, staged, batch, faults);
    }

    method StageAndApply(codec: Codec, ops: seq<Operation>, locked: Tree, faults: Faults) returns (outcome: Outcome)
      modifies this
      ensures (View(), outcome) == ApplyWritable(codec, old(View()), ops, locked, faults)
    {
      var staged, batch := StageUpdateOperations(codec, ops);
      if |staged| == 0 {
        return NothingToDo;
      }
      outcome := ApplyUnderLocks(codec, staged, batch, locked, faults);
    }

    method ApplyUpdateOperations(codec: Codec, plan: seq<Operation>, locked: Tree, faults: Faults) returns (outcome: Outcome)
      modifies this
      ensures (View(), outcome) == Apply(codec, old(View()), plan, locked, faults)
    {
      if HasConflict(plan) {
        return ConflictFound;
      }
      outcome := StageAndApply(codec, Writable(plan), locked, faults);
    }

    /** The checks of a rollback, path by path; the first problem is thrown. */
    method ResolveBatch(codec: Codec, updates: seq<Record>) returns (resolution: Resolution)
      requires forall i :: 0 <= i < |updates| ==> updates[i].Update?
      ensures resolution == Resolve(codec, tree, backups, updates, |updates|)
    {
      var resolved: seq<Entry> := [];
      for i := 0 to |updates|
        invariant Resolve(codec, tree, backups, updates, i) == Entries(resolved)
      {
        var one := ResolveOne(codec, tree, backups, updates[i]);
        if one.Blocked? {
          StopsResolving(codec, tree, backups, updates, i + 1, |updates|);
          return one;
        }
        resolved := resolved + one.entries;
      }
      return Entries(resolved);
    }

    method TakeSnapshots(entries: seq<Entry>, faults: RollbackFaults) returns (snapshots: seq<Tree>, ok: bool)
      ensures ok == !SnapshotBreaks(tree, entries, faults)
      ensures ok ==> |snapshots| == |entries| && forall i :: 0 <= i < |entries| ==> snapshots[i] == Subtree(tree, entries[i].path)
    {
      snapshots := [];
      for i := 0 to |entries|
        invariant |snapshots| == i && forall k :: 0 <= k < i ==> snapshots[k] == Subtree(tree, entries[k].path)
        invariant forall k :: 0 <= k < i && Exists(tree, entries[k].path) ==> !faults.snapshot(k)
      {
        if Exists(tree, entries[i].path) && faults.snapshot(i) {
          return snapshots, false;
        }
        snapshots := snapshots + [Subtree(tree, entries[i].path)];
      }
      return snapshots, true;
    }

    method RevertEntries(entries: seq<Entry>, faults: RollbackFaults) returns (ok: bool)
      modifies this`tree
      ensures (tree, ok) == RevertAll(old(tree), entries, faults, |entries|)
    {
      for i := 0 to |entries|
        invariant (tree, true) == RevertAll(old(tree), entries, faults, i)
      {
        if !CanRevert(tree, entries[i]) {
          StopsReverting(old(tree), entries, faults, i + 1, |entries|);
          return false;
        }
        if faults.revert(i).Breaks? {
          tree := Replace(tree, entries[i].path, faults.revert(i).left);
          StopsReverting(old(tree), entries, faults, i + 1, |entries|);
          return false;
        }
        tree := RevertOne(tree, entries[i]);
      }
      return true;
    }

    method RestoreSnapshots(entries: seq<Entry>, snapshots: seq<Tree>, ghost from: Tree)
      requires |snapshots| == |entries| && forall i :: 0 <= i < |entries| ==> snapshots[i] == Subtree(from, entries[i].path)
      modifies this`tree
      ensures tree == RestoreAll(old(tree), from, entries, |entries|)
    {
      var index := |entries|;
      while index > 0
        invariant 0 <= index <= |entries|
        invariant RestoreAll(tree, from, entries, index) == RestoreAll(old(tree), from, entries, |entries|)
      {
        index := index - 1;
        tree := RemoveTree(tree, entries[index].path) + snapshots[index];
      }
    }

    method FailRollback(entries: seq<Entry>, snapshots: seq<Tree>, ghost from: Tree, firstId: nat, batch: nat, faults: RollbackFaults)
      returns (outcome: RollbackOutcome)
      requires |snapshots| == |entries| && forall i :: 0 <= i < |entries| ==> snapshots[i] == Subtree(from, entries[i].path)
      modifies this
      ensures (View(), outcome) == RollbackFail(old(View()), from, entries, firstId, batch, faults)
    {
      RestoreSnapshots(entries, snapshots, from);
      var ok := AppendRecords(UndoRecords(entries, firstId, RolledBack, batch), faults.rolledBack);
      return if ok then Restored else RollbackIntegrityError;
    }

    method RevertBatch(entries: seq<Entry>, snapshots: seq<Tree>, batch: nat, faults: RollbackFaults) returns (outcome: RollbackOutcome)
      requires |snapshots| == |entries| && forall i :: 0 <= i < |entries| ==> snapshots[i] == Subtree(tree, entries[i].path)
      modifies this
      ensures (View(), outcome) == Revert(old(View()), entries, batch, faults)
    {
      ghost var from := tree;
      var firstId := nextId;
      nextId := nextId + |entries|;
      var ok := AppendRecords(UndoRecords(entries, firstId, Prepared, batch), faults.prepared);
      if !ok {
        return NotPrepared;
      }
      ok := RevertEntries(entries, faults);
      if !ok {
        outcome := FailRollback(entries, snapshots, from, firstId, batch, faults);
        return;
      }
      ok := AppendRecords(UndoRecords(entries, firstId, Committed, batch), faults.commit);
      if !ok {
        outcome := FailRollback(entries, snapshots, from, firstId, batch, faults);
        return;
      }
      return RolledBackBatch;
    }

    method RollbackPlanned(codec: Codec, updates: seq<Record>, batch: nat, faults: RollbackFaults) returns (outcome: RollbackOutcome)
      requires forall i :: 0 <= i < |updates| ==> updates[i].Update?
      modifies this
      ensures (View(), outcome) == RevertIfSafe(codec, old(View()), updates, batch, faults)
    {
      var resolution := ResolveBatch(codec, updates);
      if resolution.Blocked? {
        return Refused(resolution.problem);
      }
      var snapshots, ok := TakeSnapshots(resolution.entries, faults);
      if !ok {
        return SnapshotFailed;
      }
      outcome := RevertBatch(resolution.entries, snapshots, batch, faults);
    }

    method RollbackUpdateBatch(codec: Codec, batch: nat, faults: RollbackFaults) returns (outcome: RollbackOutcome)
      modifies this
      ensures (View(), outcome) == Rollback(codec, old(View()), batch, faults)
    {
      if Corrupt(journal) {
        return JournalCorrupt;
      }
      var updates := CommittedUpdates(journal, batch);
      if |updates| == 0 {
        return BatchNotFound;
      }
      if AllUndone(journal, updates) {
        return AlreadyRolledBack;
      }
      outcome := RollbackPlanned(codec, updates, batch, faults);
    }
  }

  lemma {:induction false} StopsResolving(codec: Codec, t: Tree, backups: map<nat, Tree>, updates: seq<Record>, k: nat, n: nat)
    requires k <= n <= |updates| && forall i :: 0 <= i < |updates| ==> updates[i].Update?
    requires Resolve(codec, t, backups, updates, k).Blocked?
    ensures Resolve(codec, t, backups, updates, n) == Resolve(codec, t, backups, updates, k)
    decreases n
  {
    if k < n {
      StopsResolving(codec, t, backups, updates, k, n - 1);
    }
  }

  lemma {:induction false} StopsReverting(t: Tree, entries: seq<Entry>, faults: RollbackFaults, k: nat, n: nat)
    requires k <= n <= |entries| && !RevertAll(t, entries, faults, k).1
    ensures RevertAll(t, entries, faults, n) == RevertAll(t, entries, faults, k)
    decreases n
  {
    if k < n {
      StopsReverting(t, entries, faults, k, n - 1);
    }
  }

  lemma {:induction false} StopsBackingUp(staged: seq<Staged>, t: Tree, backups: map<nat, Tree>, faults: Faults, k: nat, n: nat)
    requires k <= n <= |staged| && !BackUp(staged, t, backups, faults, k).1
    ensures BackUp(staged, t, backups, faults, n) == BackUp(staged, t, backups, faults, k)
    decreases n
  {
    if k < n {
      StopsBackingUp(staged, t, backups, faults, k, n - 1);
    }
  }

  lemma {:induction false} StopsMutating(staged: seq<Staged>, t: Tree, faults: Faults, k: nat, n: nat)
    requires k <= n <= |staged| && !Mutate(staged, t, faults, k).ok
    ensures Mutate(staged, t, faults, n) == Mutate(staged, t, faults, k)
    decreases n
  {
    if k < n {
      StopsMutating(staged, t, faults, k, n - 1);
    }
  }
}
