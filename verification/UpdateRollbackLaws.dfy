/** What one rollback guarantees (cli/commands/update.ts:597-764). */
module UpdateRollbackLaws {
  import opened Wrappers
  import opened UpdateTree
  import opened UpdateRollback
  import opened UpdateJournal

  // ----- The tree

  predicate Touches(entries: seq<Entry>, n: nat, q: Path)
    requires n <= |entries|
  {
    exists i :: 0 <= i < n && Within(q, entries[i].path)
  }

  lemma {:induction false} ReplaceAt(t: Tree, p: Path, from: Tree, q: Path)
    ensures Get(Replace(t, p, from), q) == if Within(q, p) then Get(from, q) else Get(t, q)
  {
  }

  /** Restoring needs no order and no disjointness: nested paths come out right too. */
  lemma {:induction false} RestoreAllAt(t: Tree, from: Tree, entries: seq<Entry>, n: nat, q: Path)
    requires n <= |entries|
    ensures Get(RestoreAll(t, from, entries, n), q) == if Touches(entries, n, q) then Get(from, q) else Get(t, q)
    decreases n
  {
    if n > 0 {
      var t1 := Replace(t, entries[n - 1].path, from);
      ReplaceAt(t, entries[n - 1].path, from, q);
      RestoreAllAt(t1, from, entries, n - 1, q);
    }
  }

  lemma {:induction false} RevertAllOutside(t: Tree, entries: seq<Entry>, faults: RollbackFaults, n: nat, q: Path)
    requires n <= |entries| && !Touches(entries, n, q)
    ensures Get(RevertAll(t, entries, faults, n).0, q) == Get(t, q)
  {
    if n > 0 {
      assert !Within(q, entries[n - 1].path);
      forall i | 0 <= i < n - 1 ensures !Within(q, entries[i].path) { }
      RevertAllOutside(t, entries, faults, n - 1, q);
      WithinSelf(q);
      if faults.revert(n - 1).Breaks? {
        ReplaceAt(RevertAll(t, entries, faults, n - 1).0, entries[n - 1].path, faults.revert(n - 1).left, q);
      }
    }
  }

  lemma {:induction false} RestoreUndoesRevert(t: Tree, entries: seq<Entry>, faults: RollbackFaults)
    ensures RestoreAll(RevertAll(t, entries, faults, |entries|).0, t, entries, |entries|) == t
  {
    var now := RevertAll(t, entries, faults, |entries|).0;
    forall q ensures Get(RestoreAll(now, t, entries, |entries|), q) == Get(t, q) {
      RestoreAllAt(now, t, entries, |entries|, q);
      if !Touches(entries, |entries|, q) { RevertAllOutside(t, entries, faults, |entries|, q); }
    }
    SameTree(RestoreAll(now, t, entries, |entries|), t);
  }

  lemma {:induction false} FailedRevertRestores(w: World, entries: seq<Entry>, batch: nat, faults: RollbackFaults)
    ensures !Revert(w, entries, batch, faults).1.RolledBackBatch? ==> Revert(w, entries, batch, faults).0.tree == w.tree
  {
    RestoreUndoesRevert(w.tree, entries, faults);
  }

  lemma {:induction false} PastTheChecks(codec: Codec, w: World, batch: nat, faults: RollbackFaults)
    ensures || Rollback(codec, w, batch, faults).0 == w
            || (EntriesOf(codec, w, batch).Entries?
                && Rollback(codec, w, batch, faults) == Revert(w, EntriesOf(codec, w, batch).entries, batch, faults))
  {
  }

  lemma {:induction false} RevertIsNoRefusal(w: World, entries: seq<Entry>, batch: nat, faults: RollbackFaults)
    ensures var outcome := Revert(w, entries, batch, faults).1;
            outcome.NotPrepared? || outcome.RolledBackBatch? || outcome.Restored? || outcome.RollbackIntegrityError?
  {
  }

  /** Unless it succeeds a rollback leaves the tree as it was, whatever breaks and whatever a
      broken write or removal leaves behind; a blocked one leaves the journal too. */
  lemma {:induction false} AllOrNothing(codec: Codec, w: World, batch: nat, faults: RollbackFaults)
    ensures var (after, outcome) := Rollback(codec, w, batch, faults);
            && (!outcome.RolledBackBatch? ==> after.tree == w.tree)
            && (outcome.JournalCorrupt? || outcome.BatchNotFound? || outcome.AlreadyRolledBack? || outcome.Refused? || outcome.SnapshotFailed? ==> after == w)
  {
    PastTheChecks(codec, w, batch, faults);
    if Rollback(codec, w, batch, faults).0 != w {
      FailedRevertRestores(w, EntriesOf(codec, w, batch).entries, batch, faults);
      RevertIsNoRefusal(w, EntriesOf(codec, w, batch).entries, batch, faults);
    }
  }

  ghost predicate EntriesApart(entries: seq<Entry>) {
    forall i, j :: 0 <= i < |entries| && 0 <= j < |entries| && i != j ==> Disjoint(entries[i].path, entries[j].path)
  }

  lemma {:induction false} OthersApart(entries: seq<Entry>, i: nat, q: Path)
    requires EntriesApart(entries) && i < |entries| && Within(q, entries[i].path)
    ensures forall j :: 0 <= j < |entries| && j != i ==> !Within(q, entries[j].path)
  {
    forall j | 0 <= j < |entries| && j != i ensures !Within(q, entries[j].path) {
      assert Disjoint(entries[i].path, entries[j].path);
      DisjointBelow(entries[i].path, entries[j].path);
    }
  }

  /** What `q`, at or below the path of `e`, holds once `e` is reverted. */
  function Reverted(e: Entry, q: Path, v: Option<Bytes>): Option<Bytes> {
    match e.bytes
    case Some(bytes) => if q == e.path then Some(bytes) else v
    case None => None
  }

  lemma {:induction false} RevertedAt(t: Tree, entries: seq<Entry>, faults: RollbackFaults, n: nat, q: Path, i: nat)
    requires EntriesApart(entries) && i < n <= |entries| && Within(q, entries[i].path)
    requires RevertAll(t, entries, faults, n).1
    ensures Get(RevertAll(t, entries, faults, n).0, q) == Reverted(entries[i], q, Get(t, q))
    decreases n
  {
    OthersApart(entries, i, q);
    if i < n - 1 {
      RevertedAt(t, entries, faults, n - 1, q, i);
      WithinSelf(q);
    } else {
      RevertAllOutside(t, entries, faults, n - 1, q);
    }
  }

  // ----- Which entries there are

  lemma {:induction false} ResolvedEntries(codec: Codec, t: Tree, backups: map<nat, Tree>, updates: seq<Record>, n: nat, i: nat)
    requires i < n <= |updates| && forall k :: 0 <= k < |updates| ==> updates[k].Update?
    requires Resolve(codec, t, backups, updates, n).Entries?
    ensures ResolveOne(codec, t, backups, updates[i]) == Entries([Resolve(codec, t, backups, updates, n).entries[i]])
    decreases n
  {
    if i < n - 1 {
      ResolvedEntries(codec, t, backups, updates, n - 1, i);
    }
  }

  lemma {:induction false} ResolvesIff(codec: Codec, t: Tree, backups: map<nat, Tree>, updates: seq<Record>, n: nat)
    requires n <= |updates| && forall k :: 0 <= k < |updates| ==> updates[k].Update?
    ensures Resolve(codec, t, backups, updates, n).Entries?
        <==> forall i :: 0 <= i < n ==> ResolveOne(codec, t, backups, updates[i]).Entries?
  {
    if n > 0 {
      ResolvesIff(codec, t, backups, updates, n - 1);
    }
  }

  // ----- The journal

  /** The journal of a successful rollback of `entries`. */
  function Closed(journal: seq<Record>, entries: seq<Entry>, firstId: nat, batch: nat): seq<Record> {
    journal + UndoRecords(entries, firstId, Prepared, batch) + UndoRecords(entries, firstId, Committed, batch)
  }

  lemma {:induction false} RevertWrites(w: World, entries: seq<Entry>, batch: nat, faults: RollbackFaults)
    requires Revert(w, entries, batch, faults).1.RolledBackBatch?
    ensures RevertAll(w.tree, entries, faults, |entries|).1
    ensures Revert(w, entries, batch, faults).0
         == World(RevertAll(w.tree, entries, faults, |entries|).0,
                  Closed(w.journal, entries, w.nextId, batch), w.backups, w.nextId + |entries|)
  {
  }

  lemma {:induction false} ClosedIsSound(journal: seq<Record>, entries: seq<Entry>, firstId: nat, batch: nat)
    requires !Corrupt(journal)
    ensures !Corrupt(Closed(journal, entries, firstId, batch))
  {
    SettlingKeepsSound(journal, UndoRecords(entries, firstId, Prepared, batch), UndoRecords(entries, firstId, Committed, batch));
  }

  lemma {:induction false} ClosedHasSameUpdates(journal: seq<Record>, entries: seq<Entry>, firstId: nat, batch: nat, other: nat)
    ensures CommittedUpdates(Closed(journal, entries, firstId, batch), other) == CommittedUpdates(journal, other)
  {
    var open := UndoRecords(entries, firstId, Prepared, batch);
    UpdatesUnchanged(journal, open, other);
    UpdatesUnchanged(journal + open, UndoRecords(entries, firstId, Committed, batch), other);
  }

  /** Exactly the entries of the batch become undone. */
  lemma {:induction false} ClosedUndoes(journal: seq<Record>, entries: seq<Entry>, firstId: nat, batch: nat, id: nat)
    ensures Undone(Closed(journal, entries, firstId, batch), id)
        <==> Undone(journal, id) || exists i :: 0 <= i < |entries| && entries[i].target == id
  {
    var open, final := UndoRecords(entries, firstId, Prepared, batch), UndoRecords(entries, firstId, Committed, batch);
    UndoneOfAppended(journal, open, id);
    UndoneOfAppended(journal + open, final, id);
    if i :| 0 <= i < |entries| && entries[i].target == id { assert Undoes(final[i], id); }
  }

  /** The entries of the rollback of `batch`. */
  function EntriesOf(codec: Codec, w: World, batch: nat): Resolution {
    var updates := CommittedUpdates(w.journal, batch);
    Resolve(codec, w.tree, w.backups, updates, |updates|)
  }

  lemma {:induction false} SucceedsThroughRevert(codec: Codec, w: World, batch: nat, faults: RollbackFaults)
    requires Rollback(codec, w, batch, faults).1.RolledBackBatch?
    ensures !Corrupt(w.journal) && EntriesOf(codec, w, batch).Entries?
    ensures Rollback(codec, w, batch, faults) == Revert(w, EntriesOf(codec, w, batch).entries, batch, faults)
  {
  }

  /** A successful rollback marks every update of the batch undone. */
  lemma {:induction false} MarksUndone(codec: Codec, w: World, batch: nat, faults: RollbackFaults)
    requires Rollback(codec, w, batch, faults).1.RolledBackBatch?
    ensures var after := Rollback(codec, w, batch, faults).0;
            && !Corrupt(after.journal)
            && CommittedUpdates(after.journal, batch) == CommittedUpdates(w.journal, batch) != []
            && AllUndone(after.journal, CommittedUpdates(w.journal, batch))
  {
    SucceedsThroughRevert(codec, w, batch, faults);
    var updates, entries := CommittedUpdates(w.journal, batch), EntriesOf(codec, w, batch).entries;
    RevertWrites(w, entries, batch, faults);
    ClosedIsSound(w.journal, entries, w.nextId, batch);
    ClosedHasSameUpdates(w.journal, entries, w.nextId, batch, batch);
    forall i | 0 <= i < |updates| ensures Undone(Closed(w.journal, entries, w.nextId, batch), updates[i].id) {
      ClosedUndoesAll(codec, w, batch, entries, i);
    }
  }

  /** A second rollback of a batch is blocked and changes nothing. */
  lemma {:induction false} SecondIsBlocked(codec: Codec, w: World, batch: nat, faults: RollbackFaults, again: RollbackFaults)
    requires Rollback(codec, w, batch, faults).1.RolledBackBatch?
    ensures var after := Rollback(codec, w, batch, faults).0;
            Rollback(codec, after, batch, again) == (after, AlreadyRolledBack)
  {
    MarksUndone(codec, w, batch, faults);
  }


  // ----- Exactly when it succeeds

  lemma {:induction false} NearbyUntouched(entries: seq<Entry>, i: nat, q: Path)
    requires EntriesApart(entries) && i < |entries| && (Within(q, entries[i].path) || Within(entries[i].path, q))
    ensures !Touches(entries, i, q)
  {
    forall j | 0 <= j < i ensures !Within(q, entries[j].path) {
      var p, r := entries[i].path, entries[j].path;
      assert Disjoint(p, r);
      if Within(q, p) { DisjointBelow(p, r); } else if Within(q, r) { assert Within(p, r); }
    }
  }

  lemma {:induction false} CanRevertStays(t: Tree, entries: seq<Entry>, faults: RollbackFaults, i: nat)
    requires EntriesApart(entries) && i < |entries|
    ensures CanRevert(RevertAll(t, entries, faults, i).0, entries[i]) == CanRevert(t, entries[i])
  {
    var p, now := entries[i].path, RevertAll(t, entries, faults, i).0;
    forall q | Within(q, p) || Within(p, q)
      ensures q in now <==> q in t
    {
      NearbyUntouched(entries, i, q);
      RevertAllOutside(t, entries, faults, i, q);
      assert Get(now, q) == Get(t, q);
    }
  }

  lemma {:induction false} RevertAllOkIff(t: Tree, entries: seq<Entry>, faults: RollbackFaults, n: nat)
    requires EntriesApart(entries) && n <= |entries|
    ensures RevertAll(t, entries, faults, n).1 <==> forall i :: 0 <= i < n ==> faults.revert(i).Fine? && CanRevert(t, entries[i])
  {
    if n > 0 {
      RevertAllOkIff(t, entries, faults, n - 1);
      RevertOneMore(t, entries, faults, n - 1);
    }
  }

  lemma {:induction false} RevertOneMore(t: Tree, entries: seq<Entry>, faults: RollbackFaults, i: nat)
    requires EntriesApart(entries) && i < |entries|
    ensures RevertAll(t, entries, faults, i + 1).1
        <==> RevertAll(t, entries, faults, i).1 && faults.revert(i).Fine? && CanRevert(t, entries[i])
  {
    CanRevertStays(t, entries, faults, i);
  }

  /** Nothing throws while the entries are reverted. */
  predicate NothingThrows(t: Tree, entries: seq<Entry>, faults: RollbackFaults) {
    && faults.prepared.NoFault? && faults.commit.NoFault?
    && !SnapshotBreaks(t, entries, faults)
    && forall i :: 0 <= i < |entries| ==> faults.revert(i).Fine?
  }

  /** A rollback goes through exactly for a readable journal, a committed batch not yet
      undone, no drift, every backup in place, room for every file, and no failure. */
  lemma {:induction false} SucceedsIff(codec: Codec, w: World, batch: nat, faults: RollbackFaults)
    requires EntriesOf(codec, w, batch).Entries? ==> EntriesApart(EntriesOf(codec, w, batch).entries)
    ensures Rollback(codec, w, batch, faults).1.RolledBackBatch?
        <==> && !Corrupt(w.journal)
             && CommittedUpdates(w.journal, batch) != []
             && !AllUndone(w.journal, CommittedUpdates(w.journal, batch))
             && EntriesOf(codec, w, batch).Entries?
             && NothingThrows(w.tree, EntriesOf(codec, w, batch).entries, faults)
             && forall i :: 0 <= i < |EntriesOf(codec, w, batch).entries| ==> CanRevert(w.tree, EntriesOf(codec, w, batch).entries[i])
  {
    var resolution := EntriesOf(codec, w, batch);
    if resolution.Entries? {
      RevertAllOkIff(w.tree, resolution.entries, faults, |resolution.entries|);
    }
  }

  // ----- The journal after a failure

  /** Prepared records were written, and neither a committed nor a rolled-back one after. */
  predicate UndosLeftOpen(t: Tree, entries: seq<Entry>, faults: RollbackFaults) {
    match faults.prepared
    case ThrowsBefore => false
    case ThrowsAfter => true
    case NoFault =>
      faults.rolledBack.ThrowsBefore? && !(RevertAll(t, entries, faults, |entries|).1 && !faults.commit.ThrowsBefore?)
  }

  /** The next rollback of anything finds the journal unreadable exactly in that case. */
  lemma {:induction false} CorruptsIff(w: World, entries: seq<Entry>, batch: nat, faults: RollbackFaults)
    requires !Corrupt(w.journal) && Fresh(w.journal, w.nextId) && |entries| > 0
    ensures Corrupt(Revert(w, entries, batch, faults).0.journal) <==> UndosLeftOpen(w.tree, entries, faults)
  {
    var open := UndoRecords(entries, w.nextId, Prepared, batch);
    var committed := UndoRecords(entries, w.nextId, Committed, batch);
    var undone := UndoRecords(entries, w.nextId, RolledBack, batch);
    OpenCorrupts(w.journal, open, w.nextId);
    SettlingKeepsSound(w.journal, open, committed);
    SettlingKeepsSound(w.journal, open, undone);
    FinalKeepsSound(w.journal + open + committed, undone);
  }

  lemma {:induction false} LastOfUndo(journal: seq<Record>, entries: seq<Entry>, firstId: nat, status: Status, batch: nat, fault: Fault, i: nat)
    requires i < |entries|
    ensures LastStatus(Append(journal, UndoRecords(entries, firstId, status, batch), fault).0, firstId + i)
         == if fault.ThrowsBefore? then LastStatus(journal, firstId + i) else Some(status)
  {
    LastOfAppended(journal, UndoRecords(entries, firstId, status, batch), firstId + i, i);
  }

  /** The last status of every undo record, in every ending. */
  function UndoStatus(reverted: bool, faults: RollbackFaults, before: Option<Status>): Option<Status> {
    match faults.prepared
    case ThrowsBefore => before
    case ThrowsAfter => Some(Prepared)
    case NoFault =>
      if reverted && faults.commit.NoFault? then Some(Committed)
      else if !faults.rolledBack.ThrowsBefore? then Some(RolledBack)
      else if reverted && faults.commit.ThrowsAfter? then Some(Committed)
      else Some(Prepared)
  }

  /** The journal after the rollback of `entries`. */
  function UndoJournal(journal: seq<Record>, reverted: bool, entries: seq<Entry>, firstId: nat, batch: nat, faults: RollbackFaults): seq<Record> {
    var first := Append(journal, UndoRecords(entries, firstId, Prepared, batch), faults.prepared).0;
    var second := if reverted then Append(first, UndoRecords(entries, firstId, Committed, batch), faults.commit).0 else first;
    if !faults.prepared.NoFault? then first
    else if reverted && faults.commit.NoFault? then second
    else Append(second, UndoRecords(entries, firstId, RolledBack, batch), faults.rolledBack).0
  }

  lemma {:induction false} JournalIsUndoJournal(w: World, entries: seq<Entry>, batch: nat, faults: RollbackFaults)
    ensures Revert(w, entries, batch, faults).0.journal
         == UndoJournal(w.journal, RevertAll(w.tree, entries, faults, |entries|).1, entries, w.nextId, batch, faults)
  {
  }

  lemma {:induction false} UndoVerdict(w: World, entries: seq<Entry>, batch: nat, faults: RollbackFaults, i: nat)
    requires i < |entries|
    ensures LastStatus(Revert(w, entries, batch, faults).0.journal, w.nextId + i)
         == UndoStatus(RevertAll(w.tree, entries, faults, |entries|).1, faults, LastStatus(w.journal, w.nextId + i))
  {
    JournalIsUndoJournal(w, entries, batch, faults);
    UndoJournalStatus(w.journal, RevertAll(w.tree, entries, faults, |entries|).1, entries, w.nextId, batch, faults, i);
  }

  lemma {:induction false} UndoJournalStatus(journal: seq<Record>, reverted: bool, entries: seq<Entry>, firstId: nat, batch: nat, faults: RollbackFaults, i: nat)
    requires i < |entries|
    ensures LastStatus(UndoJournal(journal, reverted, entries, firstId, batch, faults), firstId + i)
         == UndoStatus(reverted, faults, LastStatus(journal, firstId + i))
  {
    var first := Append(journal, UndoRecords(entries, firstId, Prepared, batch), faults.prepared).0;
    var second := Append(first, UndoRecords(entries, firstId, Committed, batch), faults.commit).0;
    LastOfUndo(journal, entries, firstId, Prepared, batch, faults.prepared, i);
    LastOfUndo(first, entries, firstId, Committed, batch, faults.commit, i);
    LastOfUndo(first, entries, firstId, RolledBack, batch, faults.rolledBack, i);
    LastOfUndo(second, entries, firstId, RolledBack, batch, faults.rolledBack, i);
  }

  /** The tree after a rollback that went through: every path holds its backup, or nothing
      where there was nothing, and no other path changed. */
  lemma {:induction false} SuccessTree(w: World, entries: seq<Entry>, batch: nat, faults: RollbackFaults, q: Path)
    requires EntriesApart(entries) && Revert(w, entries, batch, faults).1.RolledBackBatch?
    ensures forall i :: 0 <= i < |entries| && Within(q, entries[i].path) ==>
              Get(Revert(w, entries, batch, faults).0.tree, q) == Reverted(entries[i], q, Get(w.tree, q))
    ensures !Touches(entries, |entries|, q) ==> Get(Revert(w, entries, batch, faults).0.tree, q) == Get(w.tree, q)
  {
    RevertWrites(w, entries, batch, faults);
    forall i | 0 <= i < |entries| && Within(q, entries[i].path)
      ensures Get(Revert(w, entries, batch, faults).0.tree, q) == Reverted(entries[i], q, Get(w.tree, q))
    {
      RevertedAt(w.tree, entries, faults, |entries|, q, i);
    }
    if !Touches(entries, |entries|, q) { RevertAllOutside(w.tree, entries, faults, |entries|, q); }
  }

  // ----- The journal against the tree

  /** The committed undo records reached the file. */
  predicate UndoReported(w: World, entries: seq<Entry>, faults: RollbackFaults) {
    faults.prepared.NoFault? && RevertAll(w.tree, entries, faults, |entries|).1 && !faults.commit.ThrowsBefore?
  }

  lemma {:induction false} AppendUndoes(journal: seq<Record>, entries: seq<Entry>, firstId: nat, status: Status, batch: nat, fault: Fault, i: nat)
    requires i < |entries|
    ensures Undone(Append(journal, UndoRecords(entries, firstId, status, batch), fault).0, entries[i].target)
        <==> Undone(journal, entries[i].target) || (status.Committed? && !fault.ThrowsBefore?)
  {
    var more := UndoRecords(entries, firstId, status, batch);
    UndoneOfAppended(journal, more, entries[i].target);
    if status.Committed? { assert Undoes(more[i], entries[i].target); }
  }

  /** An update counts as undone exactly when the committed undo records reached the file,
      even if the append then threw and the tree was put back. */
  lemma {:induction false} UndoneIff(w: World, entries: seq<Entry>, batch: nat, faults: RollbackFaults, i: nat)
    requires i < |entries| && !Undone(w.journal, entries[i].target)
    ensures Undone(Revert(w, entries, batch, faults).0.journal, entries[i].target) <==> UndoReported(w, entries, faults)
  {
    JournalIsUndoJournal(w, entries, batch, faults);
    var first := Append(w.journal, UndoRecords(entries, w.nextId, Prepared, batch), faults.prepared).0;
    var second := Append(first, UndoRecords(entries, w.nextId, Committed, batch), faults.commit).0;
    AppendUndoes(w.journal, entries, w.nextId, Prepared, batch, faults.prepared, i);
    AppendUndoes(first, entries, w.nextId, Committed, batch, faults.commit, i);
    AppendUndoes(first, entries, w.nextId, RolledBack, batch, faults.rolledBack, i);
    AppendUndoes(second, entries, w.nextId, RolledBack, batch, faults.rolledBack, i);
  }

  /** Every path of the batch is at its before-state. */
  predicate AtBefore(t: Tree, entries: seq<Entry>) {
    forall i :: 0 <= i < |entries| ==> Get(t, entries[i].path) == entries[i].bytes
  }

  lemma {:induction false} SuccessAtBefore(w: World, entries: seq<Entry>, batch: nat, faults: RollbackFaults)
    requires EntriesApart(entries) && Revert(w, entries, batch, faults).1.RolledBackBatch?
    ensures AtBefore(Revert(w, entries, batch, faults).0.tree, entries)
  {
    forall i | 0 <= i < |entries|
      ensures Get(Revert(w, entries, batch, faults).0.tree, entries[i].path) == entries[i].bytes
    {
      WithinSelf(entries[i].path);
      SuccessTree(w, entries, batch, faults, entries[i].path);
    }
  }

  /** After a rollback the tree is at the before-state of the batch or is what it was. The
      journal calls the batch undone exactly in the first case, except when the append of the
      committed undo records threw after writing them; the last status of its undo records
      tells the same except when, on top of that, the rollback could not be journaled. */
  lemma {:induction false} UndoAgreesIff(w: World, entries: seq<Entry>, batch: nat, faults: RollbackFaults, i: nat)
    requires EntriesApart(entries) && i < |entries|
    requires !Undone(w.journal, entries[i].target) && LastStatus(w.journal, w.nextId + i) == None
    ensures var (now, outcome) := Revert(w, entries, batch, faults);
            if outcome.RolledBackBatch? then AtBefore(now.tree, entries) else now.tree == w.tree
    ensures var (now, outcome) := Revert(w, entries, batch, faults);
            (Undone(now.journal, entries[i].target) <==> outcome.RolledBackBatch?)
            <==> !(UndoReported(w, entries, faults) && faults.commit.ThrowsAfter?)
    ensures var (now, outcome) := Revert(w, entries, batch, faults);
            var status := LastStatus(now.journal, w.nextId + i);
            && ((status == Some(Committed) <==> outcome.RolledBackBatch?)
                <==> !(UndoReported(w, entries, faults) && faults.commit.ThrowsAfter? && faults.rolledBack.ThrowsBefore?))
            && (outcome.Restored? ==> status == Some(RolledBack))
  {
    UndoVerdict(w, entries, batch, faults, i);
    UndoneIff(w, entries, batch, faults, i);
    FailedRevertRestores(w, entries, batch, faults);
    EndingOf(w, entries, batch, faults);
    if Revert(w, entries, batch, faults).1.RolledBackBatch? { SuccessAtBefore(w, entries, batch, faults); }
  }

  /** How a rollback past its checks ends, as its faults decide. */
  lemma {:induction false} EndingOf(w: World, entries: seq<Entry>, batch: nat, faults: RollbackFaults)
    ensures var outcome := Revert(w, entries, batch, faults).1;
            && (outcome.NotPrepared? <==> !faults.prepared.NoFault?)
            && (outcome.RolledBackBatch? <==> UndoReported(w, entries, faults) && faults.commit.NoFault?)
            && (outcome.Restored? <==> faults.prepared.NoFault? && !outcome.RolledBackBatch? && faults.rolledBack.NoFault?)
  {
  }

  // ----- A rollback that was undone but counts

  /** If that append throws after writing, the tree is put back, the batch is at its
      after-state, and yet every later rollback of it is refused as already done. */
  lemma {:induction false} HalfUndoneIsStuck(codec: Codec, w: World, batch: nat, faults: RollbackFaults, again: RollbackFaults)
    requires !Corrupt(w.journal) && CommittedUpdates(w.journal, batch) != [] && !AllUndone(w.journal, CommittedUpdates(w.journal, batch))
    requires EntriesOf(codec, w, batch).Entries? && !SnapshotBreaks(w.tree, EntriesOf(codec, w, batch).entries, faults)
    requires UndoReported(w, EntriesOf(codec, w, batch).entries, faults) && faults.commit.ThrowsAfter?
    ensures var (now, outcome) := Rollback(codec, w, batch, faults);
            && now.tree == w.tree && (outcome.Restored? || outcome.RollbackIntegrityError?)
            && Rollback(codec, now, batch, again) == (now, AlreadyRolledBack)
  {
    var entries := EntriesOf(codec, w, batch).entries;
    FailedRevertRestores(w, entries, batch, faults);
    HalfUndoneJournal(codec, w, batch, entries, faults);
  }

  lemma {:induction false} HalfUndoneJournal(codec: Codec, w: World, batch: nat, entries: seq<Entry>, faults: RollbackFaults)
    requires !Corrupt(w.journal) && EntriesOf(codec, w, batch) == Entries(entries)
    requires UndoReported(w, entries, faults) && faults.commit.ThrowsAfter?
    ensures var now, updates := Revert(w, entries, batch, faults).0, CommittedUpdates(w.journal, batch);
            !Corrupt(now.journal) && CommittedUpdates(now.journal, batch) == updates && AllUndone(now.journal, updates)
  {
    var updates := CommittedUpdates(w.journal, batch);
    var closed, more := Closed(w.journal, entries, w.nextId, batch), UndoRecords(entries, w.nextId, RolledBack, batch);
    HalfUndoneWrites(w, entries, batch, faults);
    ClosedIsSound(w.journal, entries, w.nextId, batch);
    FinalKeepsSound(closed, more);
    ClosedHasSameUpdates(w.journal, entries, w.nextId, batch, batch);
    UpdatesUnchanged(closed, more, batch);
    forall i | 0 <= i < |updates| ensures Undone(closed, updates[i].id) && Undone(closed + more, updates[i].id) {
      ClosedUndoesAll(codec, w, batch, entries, i);
      UndoneOfAppended(closed, more, updates[i].id);
    }
  }

  lemma {:induction false} ClosedUndoesAll(codec: Codec, w: World, batch: nat, entries: seq<Entry>, i: nat)
    requires EntriesOf(codec, w, batch) == Entries(entries) && i < |CommittedUpdates(w.journal, batch)|
    ensures Undone(Closed(w.journal, entries, w.nextId, batch), CommittedUpdates(w.journal, batch)[i].id)
  {
    var updates := CommittedUpdates(w.journal, batch);
    ResolvedEntries(codec, w.tree, w.backups, updates, |updates|, i);
    assert entries[i].target == updates[i].id;
    ClosedUndoes(w.journal, entries, w.nextId, batch, updates[i].id);
  }

  lemma {:induction false} HalfUndoneWrites(w: World, entries: seq<Entry>, batch: nat, faults: RollbackFaults)
    requires UndoReported(w, entries, faults) && faults.commit.ThrowsAfter?
    ensures var (now, outcome) := Revert(w, entries, batch, faults);
            && (outcome.Restored? || outcome.RollbackIntegrityError?)
            && now == World(w.tree, now.journal, w.backups, w.nextId + |entries|)
            && (now.journal == Closed(w.journal, entries, w.nextId, batch)
                || now.journal == Closed(w.journal, entries, w.nextId, batch) + UndoRecords(entries, w.nextId, RolledBack, batch))
  {
    FailedRevertRestores(w, entries, batch, faults);
  }
}
