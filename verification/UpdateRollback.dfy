/** Rolling a committed update batch back: look it up in the journal, check every path for
    drift and for its backup, snapshot, journal, put the backups back, and restore the
    snapshots on any exception (cli/commands/update.ts, rollbackUpdateBatch; the journal as
    cli/services/mutations/journal.ts loads it). */
module UpdateRollback {
  import opened Wrappers
  import opened UpdateTree

  // ----- What the journal says

  predicate IsUpdateOf(r: Record, batch: nat) {
    r.Update? && r.status.Committed? && r.batch == batch
  }

  function CommittedUpdates(journal: seq<Record>, batch: nat): (r: seq<Record>)
    ensures forall i :: 0 <= i < |r| ==> IsUpdateOf(r[i], batch) && r[i] in journal
  {
    if journal == [] then []
    else
      var last := journal[|journal| - 1];
      CommittedUpdates(journal[..|journal| - 1], batch) + if IsUpdateOf(last, batch) then [last] else []
  }

  predicate Settles(r: Record, id: nat) {
    r.id == id && !r.status.Prepared?
  }

  predicate Settled(journal: seq<Record>, id: nat) {
    exists j :: 0 <= j < |journal| && Settles(journal[j], id)
  }

  /** A prepared record without a final one; loading such a journal throws. */
  predicate Corrupt(journal: seq<Record>) {
    exists i :: 0 <= i < |journal| && journal[i].status.Prepared? && !Settled(journal, journal[i].id)
  }

  predicate Undoes(r: Record, id: nat) {
    r.Undo? && r.status.Committed? && r.target == id
  }

  predicate Undone(journal: seq<Record>, id: nat) {
    exists j :: 0 <= j < |journal| && Undoes(journal[j], id)
  }

  predicate AllUndone(journal: seq<Record>, updates: seq<Record>) {
    forall i :: 0 <= i < |updates| ==> Undone(journal, updates[i].id)
  }

  // ----- The checks under the locks

  datatype Problem = Drift(path: Path) | BackupMissing(path: Path) | BackupUnsafe(path: Path)

  /** What to put at a path: the bytes of its backup, or nothing. */
  datatype Entry = Entry(path: Path, target: nat, bytes: Option<Bytes>)

  datatype Resolution = Blocked(problem: Problem) | Entries(entries: seq<Entry>)

  function CurrentHash(codec: Codec, t: Tree, p: Path): Option<int> {
    if p in t then Some(codec.hash(codec.text(t[p]))) else None
  }

  function ResolveOne(codec: Codec, t: Tree, backups: map<nat, Tree>, r: Record): Resolution
    requires r.Update?
  {
    if CurrentHash(codec, t, r.path) != r.afterHash then Blocked(Drift(r.path))
    else if !r.beforeExisted then Entries([Entry(r.path, r.id, None)])
    else if r.id !in backups then Blocked(BackupMissing(r.path))
    else if r.path !in backups[r.id] then Blocked(BackupUnsafe(r.path))
    else Entries([Entry(r.path, r.id, Some(backups[r.id][r.path]))])
  }

  /** The first problem, or one entry for each of the first `n` records. */
  function Resolve(codec: Codec, t: Tree, backups: map<nat, Tree>, updates: seq<Record>, n: nat): (r: Resolution)
    requires n <= |updates| && forall i :: 0 <= i < n ==> updates[i].Update?
    ensures r.Entries? ==> |r.entries| == n
  {
    if n == 0 then Entries([])
    else
      var before := Resolve(codec, t, backups, updates, n - 1);
      var last := ResolveOne(codec, t, backups, updates[n - 1]);
      if before.Blocked? then before else if last.Blocked? then last else Entries(before.entries + last.entries)
  }

  // ----- The transaction

  /** A write or a removal runs, or breaks and leaves anything at all at its path. */
  datatype Break = Fine | Breaks(left: Tree)

  datatype RollbackFaults =
    RollbackFaults(snapshot: nat -> bool, prepared: Fault, revert: nat -> Break, commit: Fault, rolledBack: Fault)

  function UndoOf(e: Entry, id: nat, status: Status, batch: nat): Record {
    Undo(id, status, e.target, e.path, batch)
  }

  function UndoRecords(entries: seq<Entry>, firstId: nat, status: Status, batch: nat): (r: seq<Record>)
    ensures |r| == |entries|
    ensures forall i :: 0 <= i < |r| ==> r[i] == UndoOf(entries[i], firstId + i, status, batch)
  {
    seq(|entries|, i requires 0 <= i < |entries| => UndoOf(entries[i], firstId + i, status, batch))
  }

  function RevertOne(t: Tree, e: Entry): Tree {
    match e.bytes
    case Some(bytes) => t[e.path := bytes]
    case None => RemoveTree(t, e.path)
  }

  /** Puts what `from` holds at `p` in place of whatever is there. */
  function Replace(t: Tree, p: Path, from: Tree): Tree {
    RemoveTree(t, p) + Subtree(from, p)
  }

  predicate CanRevert(t: Tree, e: Entry) {
    e.bytes.Some? ==> CanWrite(t, e.path)
  }

  /** The tree after the first `n` entries, or at the exception. */
  function RevertAll(t: Tree, entries: seq<Entry>, faults: RollbackFaults, n: nat): (Tree, bool)
    requires n <= |entries|
  {
    if n == 0 then (t, true)
    else
      var (now, ok) := RevertAll(t, entries, faults, n - 1);
      var e := entries[n - 1];
      if !ok || !CanRevert(now, e) then (now, false)
      else match faults.revert(n - 1)
        case Fine => (RevertOne(now, e), true)
        case Breaks(left) => (Replace(now, e.path, left), false)
  }

  /** Restores the first `n` paths to what `from` holds there, the last one first. */
  function RestoreAll(t: Tree, from: Tree, entries: seq<Entry>, n: nat): Tree
    requires n <= |entries|
    decreases n
  {
    if n == 0 then t else RestoreAll(Replace(t, entries[n - 1].path, from), from, entries, n - 1)
  }

  datatype RollbackOutcome =
    | JournalCorrupt | BatchNotFound | AlreadyRolledBack | Refused(problem: Problem)
    | SnapshotFailed | NotPrepared | RolledBackBatch | Restored | RollbackIntegrityError

  function RollbackFail(w: World, from: Tree, entries: seq<Entry>, firstId: nat, batch: nat, faults: RollbackFaults): (World, RollbackOutcome) {
    var (journal, ok) := Append(w.journal, UndoRecords(entries, firstId, RolledBack, batch), faults.rolledBack);
    (w.(tree := RestoreAll(w.tree, from, entries, |entries|), journal := journal), if ok then Restored else RollbackIntegrityError)
  }

  function Revert(w: World, entries: seq<Entry>, batch: nat, faults: RollbackFaults): (World, RollbackOutcome) {
    var firstId := w.nextId;
    var (prepared, ok1) := Append(w.journal, UndoRecords(entries, firstId, Prepared, batch), faults.prepared);
    var w1 := w.(journal := prepared, nextId := w.nextId + |entries|);
    if !ok1 then (w1, NotPrepared)
    else
      var (reverted, ok2) := RevertAll(w.tree, entries, faults, |entries|);
      var w2 := w1.(tree := reverted);
      if !ok2 then RollbackFail(w2, w.tree, entries, firstId, batch, faults)
      else
        var (committed, ok3) := Append(prepared, UndoRecords(entries, firstId, Committed, batch), faults.commit);
        var w3 := w2.(journal := committed);
        if ok3 then (w3, RolledBackBatch) else RollbackFail(w3, w.tree, entries, firstId, batch, faults)
  }

  predicate SnapshotBreaks(t: Tree, entries: seq<Entry>, faults: RollbackFaults) {
    exists i :: 0 <= i < |entries| && Exists(t, entries[i].path) && faults.snapshot(i)
  }

  function RevertIfSafe(codec: Codec, w: World, updates: seq<Record>, batch: nat, faults: RollbackFaults): (World, RollbackOutcome)
    requires forall i :: 0 <= i < |updates| ==> updates[i].Update?
  {
    match Resolve(codec, w.tree, w.backups, updates, |updates|)
    case Blocked(problem) => (w, Refused(problem))
    case Entries(entries) =>
      if SnapshotBreaks(w.tree, entries, faults) then (w, SnapshotFailed) else Revert(w, entries, batch, faults)
  }

  function Rollback(codec: Codec, w: World, batch: nat, faults: RollbackFaults): (World, RollbackOutcome) {
    var updates := CommittedUpdates(w.journal, batch);
    if Corrupt(w.journal) then (w, JournalCorrupt)
    else if |updates| == 0 then (w, BatchNotFound)
    else if AllUndone(w.journal, updates) then (w, AlreadyRolledBack)
    else RevertIfSafe(codec, w, updates, batch, faults)
  }
}
