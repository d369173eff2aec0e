/** Applying a scaffold update: stage, revalidate, journal, back up, mutate, and restore
    on any exception (cli/commands/update.ts, stageUpdateOperations,
    applyUpdateOperations, restoreAppliedOperations). */
module UpdateApply {
  import opened Wrappers
  import opened UpdateTree

  datatype Staged = Staged(op: Operation, existed: bool, content: Bytes, isDirectory: bool, id: nat)

  function Writable(plan: seq<Operation>): (ops: seq<Operation>)
    ensures forall i :: 0 <= i < |ops| ==> IsWritable(ops[i])
  {
    if plan == [] then []
    else if IsWritable(plan[0]) then [plan[0]] + Writable(plan[1..])
    else Writable(plan[1..])
  }

  function StageOne(codec: Codec, t: Tree, op: Operation, id: nat): Staged {
    var p := op.path;
    Staged(op, Exists(t, p), if p in t then codec.text(t[p]) else [], IsDirectory(t, p), id)
  }

  function Stage(codec: Codec, t: Tree, ops: seq<Operation>, firstId: nat): (r: seq<Staged>)
    ensures |r| == |ops|
    ensures forall i :: 0 <= i < |r| ==> r[i] == StageOne(codec, t, ops[i], firstId + i)
  {
    seq(|ops|, i requires 0 <= i < |ops| => StageOne(codec, t, ops[i], firstId + i))
  }

  function RecordOf(codec: Codec, s: Staged, status: Status, batch: nat): Record {
    Update(s.id, status, s.op.path,
           if s.existed && !s.isDirectory then Some(codec.hash(s.content)) else None,
           if s.op.Create? || s.op.UpdateManaged? then Some(codec.hash(s.op.next)) else None,
           s.existed, batch)
  }

  function Records(codec: Codec, staged: seq<Staged>, status: Status, batch: nat): (r: seq<Record>)
    ensures |r| == |staged|
    ensures forall i :: 0 <= i < |r| ==> r[i] == RecordOf(codec, staged[i], status, batch)
  {
    seq(|staged|, i requires 0 <= i < |staged| => RecordOf(codec, staged[i], status, batch))
  }

  /** The check under the locks; a path that became a directory makes the read throw. */
  predicate StillCurrent(codec: Codec, s: Staged, locked: Tree) {
    && Exists(locked, s.op.path) == s.existed
    && (s.existed && !s.isDirectory ==>
          s.op.path in locked && codec.hash(codec.text(locked[s.op.path])) == codec.hash(s.content))
  }

  /** Which primitive of one apply throws, and how. */
  datatype Faults = Faults(prepared: Fault, backup: nat -> bool, mutate: nat -> Fault, commit: Fault, rolledBack: Fault)

  /** The backups after the first `n` entries, or up to the copy that throws. */
  function BackUp(staged: seq<Staged>, locked: Tree, backups: map<nat, Tree>, faults: Faults, n: nat): (map<nat, Tree>, bool)
    requires n <= |staged|
  {
    if n == 0 then (backups, true)
    else
      var (done, ok) := BackUp(staged, locked, backups, faults, n - 1);
      var s := staged[n - 1];
      if !ok || !s.existed then (done, ok)
      else if faults.backup(n - 1) then (done, false)
      else (done[s.id := Subtree(locked, s.op.path)], true)
  }

  function Effect(op: Operation, t: Tree): Tree {
    match op
    case Create(p, next) => t[p := next]
    case UpdateManaged(p, next) => t[p := next]
    case _ => RemoveTree(t, op.path)
  }

  /** A write fails by itself where no file can stand. */
  predicate Possible(op: Operation, t: Tree) {
    op.Create? || op.UpdateManaged? ==> CanWrite(t, op.path)
  }

  /** The tree, how many entries have been pushed to `applied`, and whether the loop goes on. */
  datatype Progress = Progress(tree: Tree, applied: nat, ok: bool)

  function Mutate(staged: seq<Staged>, t: Tree, faults: Faults, n: nat): (r: Progress)
    requires n <= |staged|
    ensures r.applied <= n && (r.ok ==> r.applied == n) && (!r.ok ==> r.applied < n)
  {
    if n == 0 then Progress(t, 0, true)
    else
      var done := Mutate(staged, t, faults, n - 1);
      var op := staged[n - 1].op;
      if !done.ok then done
      else if !Possible(op, done.tree) || faults.mutate(n - 1).ThrowsBefore? then Progress(done.tree, n - 1, false)
      else if faults.mutate(n - 1).ThrowsAfter? then Progress(Effect(op, done.tree), n - 1, false)
      else Progress(Effect(op, done.tree), n, true)
  }

  function RestoreOne(t: Tree, s: Staged, backups: map<nat, Tree>): Tree {
    if s.existed && s.isDirectory then
      RemoveTree(t, s.op.path) + (if s.id in backups then backups[s.id] else map[])
    else if s.existed then t[s.op.path := s.content]
    else RemoveTree(t, s.op.path)
  }

  /** Restores the first `n` entries, the last one first. */
  function Restore(t: Tree, staged: seq<Staged>, backups: map<nat, Tree>, n: nat): Tree
    requires n <= |staged|
    decreases n
  {
    if n == 0 then t else Restore(RestoreOne(t, staged[n - 1], backups), staged, backups, n - 1)
  }

  datatype Outcome =
    | ConflictFound | NothingToDo | Stale | CommittedBatch(batch: nat) | RestoredBatch | IntegrityError

  /** The catch block: restore the applied entries, then journal the rollback. */
  function Fail(codec: Codec, w: World, staged: seq<Staged>, batch: nat, applied: nat, faults: Faults): (World, Outcome)
    requires applied <= |staged|
  {
    var restored := Restore(w.tree, staged, w.backups, applied);
    var (journal, ok) := Append(w.journal, Records(codec, staged, RolledBack, batch), faults.rolledBack);
    (w.(tree := restored, journal := journal), if ok then RestoredBatch else IntegrityError)
  }

  /** The try block under the locks. */
  function Transact(codec: Codec, w: World, staged: seq<Staged>, batch: nat, faults: Faults): (World, Outcome) {
    var (prepared, ok1) := Append(w.journal, Records(codec, staged, Prepared, batch), faults.prepared);
    var w1 := w.(journal := prepared);
    if !ok1 then Fail(codec, w1, staged, batch, 0, faults)
    else
      var (backups, ok2) := BackUp(staged, w.tree, w.backups, faults, |staged|);
      var w2 := w1.(backups := backups);
      if !ok2 then Fail(codec, w2, staged, batch, 0, faults)
      else
        var progress := Mutate(staged, w.tree, faults, |staged|);
        var w3 := w2.(tree := progress.tree);
        if !progress.ok then Fail(codec, w3, staged, batch, progress.applied, faults)
        else
          var (committed, ok3) := Append(prepared, Records(codec, staged, Committed, batch), faults.commit);
          var w4 := w3.(journal := committed);
          if ok3 then (w4, CommittedBatch(batch)) else Fail(codec, w4, staged, batch, |staged|, faults)
  }

  predicate HasConflict(plan: seq<Operation>) {
    exists i :: 0 <= i < |plan| && plan[i].Conflict?
  }

  predicate AllCurrent(codec: Codec, staged: seq<Staged>, locked: Tree) {
    forall i :: 0 <= i < |staged| ==> StillCurrent(codec, staged[i], locked)
  }

  /** What runs once the resource locks are held; `locked` is the tree they guard. */
  function ApplyStaged(codec: Codec, w: World, staged: seq<Staged>, batch: nat, locked: Tree, faults: Faults): (World, Outcome) {
    if !AllCurrent(codec, staged, locked) then (w.(tree := locked), Stale)
    else Transact(codec, w.(tree := locked), staged, batch, faults)
  }

  function ApplyWritable(codec: Codec, w: World, ops: seq<Operation>, locked: Tree, faults: Faults): (World, Outcome) {
    var w1 := w.(nextId := w.nextId + 1 + |ops|);
    if |ops| == 0 then (w1, NothingToDo)
    else ApplyStaged(codec, w1, Stage(codec, w.tree, ops, w.nextId + 1), w.nextId, locked, faults)
  }

  function Apply(codec: Codec, w: World, plan: seq<Operation>, locked: Tree, faults: Faults): (World, Outcome) {
    if HasConflict(plan) then (w, ConflictFound) else ApplyWritable(codec, w, Writable(plan), locked, faults)
  }
}
