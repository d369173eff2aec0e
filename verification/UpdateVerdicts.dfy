/** How a rollback answers and what it leaves, told over the journal, the tree, the backups and
    the faults alone (cli/commands/update.ts:597-764). */
module UpdateVerdicts {
  import opened Wrappers
  import opened UpdateTree
  import opened UpdateRollback
  import opened UpdateRollbackLaws

  // ----- What the journal says

  /** Some id was prepared and never got another status. */
  predicate LeftOpen(journal: seq<Record>) {
    exists i :: 0 <= i < |journal| && journal[i].status.Prepared?
                && forall j :: 0 <= j < |journal| && journal[j].id == journal[i].id ==> journal[j].status.Prepared?
  }

  predicate CommittedOf(r: Record, batch: nat) {
    r.Update? && r.status.Committed? && r.batch == batch
  }

  predicate TakenBack(journal: seq<Record>, id: nat) {
    exists j :: 0 <= j < |journal| && journal[j].Undo? && journal[j].status.Committed? && journal[j].target == id
  }

  /** The batch has committed updates, one of them not taken back. */
  predicate ToRollBack(journal: seq<Record>, batch: nat) {
    exists i :: 0 <= i < |journal| && CommittedOf(journal[i], batch) && !TakenBack(journal, journal[i].id)
  }

  predicate HasCommitted(journal: seq<Record>, batch: nat) {
    exists i :: 0 <= i < |journal| && CommittedOf(journal[i], batch)
  }

  // ----- What stands in the way

  /** What is at the path has not the digest that the batch left there. */
  predicate Drifted(codec: Codec, t: Tree, r: Record)
    requires r.Update?
  {
    r.afterHash != if r.path in t then Some(codec.hash(codec.text(t[r.path]))) else None
  }

  predicate BackupGone(backups: map<nat, Tree>, r: Record)
    requires r.Update?
  {
    r.beforeExisted && r.id !in backups
  }

  /** There is a backup, but no file in it. */
  predicate BackupNoFile(backups: map<nat, Tree>, r: Record)
    requires r.Update?
  {
    r.beforeExisted && r.id in backups && r.path !in backups[r.id]
  }

  predicate InTheWay(codec: Codec, w: World, r: Record)
    requires r.Update?
  {
    Drifted(codec, w.tree, r) || BackupGone(w.backups, r) || BackupNoFile(w.backups, r)
  }

  /** Drift is found before a bad backup. */
  function Reason(codec: Codec, w: World, r: Record): Problem
    requires r.Update? && InTheWay(codec, w, r)
  {
    if Drifted(codec, w.tree, r) then Drift(r.path)
    else if BackupGone(w.backups, r) then BackupMissing(r.path)
    else BackupUnsafe(r.path)
  }

  /** A committed update of the batch has something in its way, and none before it in the
      journal has. */
  predicate FirstInTheWay(codec: Codec, w: World, batch: nat, i: nat)
    requires i < |w.journal|
  {
    && CommittedOf(w.journal[i], batch) && InTheWay(codec, w, w.journal[i])
    && forall j :: 0 <= j < i && CommittedOf(w.journal[j], batch) ==> !InTheWay(codec, w, w.journal[j])
  }

  predicate AnyInTheWay(codec: Codec, w: World, batch: nat) {
    exists i :: 0 <= i < |w.journal| && CommittedOf(w.journal[i], batch) && InTheWay(codec, w, w.journal[i])
  }

  // ----- The updates found are those of the journal

  lemma {:induction false} UpdatesAre(journal: seq<Record>, batch: nat)
    ensures forall r :: r in CommittedUpdates(journal, batch) <==> exists i :: 0 <= i < |journal| && journal[i] == r && CommittedOf(r, batch)
    decreases |journal|
  {
    if journal != [] {
      var front := journal[..|journal| - 1];
      UpdatesAre(front, batch);
      forall r ensures r in CommittedUpdates(journal, batch) <==> exists i :: 0 <= i < |journal| && journal[i] == r && CommittedOf(r, batch) {
        if i :| 0 <= i < |journal| && journal[i] == r && CommittedOf(r, batch) {
          if i < |front| { assert front[i] == r; }
        }
        if i :| 0 <= i < |front| && front[i] == r && CommittedOf(r, batch) { assert journal[i] == r; }
      }
    }
  }

  lemma {:induction false} FoundIff(journal: seq<Record>, batch: nat)
    ensures |CommittedUpdates(journal, batch)| == 0 <==> !HasCommitted(journal, batch)
    ensures AllUndone(journal, CommittedUpdates(journal, batch)) <==> !ToRollBack(journal, batch)
  {
    var updates := CommittedUpdates(journal, batch);
    UpdatesAre(journal, batch);
    if i :| 0 <= i < |journal| && CommittedOf(journal[i], batch) { assert journal[i] in updates; }
    if |updates| > 0 { assert updates[0] in updates; }
    forall id ensures Undone(journal, id) <==> TakenBack(journal, id) { UndoneIsTakenBack(journal, id); }
    if i :| 0 <= i < |journal| && CommittedOf(journal[i], batch) && !TakenBack(journal, journal[i].id) {
      assert journal[i] in updates;
    }
    if k :| 0 <= k < |updates| && !Undone(journal, updates[k].id) { assert updates[k] in updates; }
  }

  lemma {:induction false} UndoneIsTakenBack(journal: seq<Record>, id: nat)
    ensures Undone(journal, id) <==> TakenBack(journal, id)
  {
    if j :| 0 <= j < |journal| && Undoes(journal[j], id) { assert journal[j].Undo?; }
    if j :| 0 <= j < |journal| && journal[j].Undo? && journal[j].status.Committed? && journal[j].target == id { assert Undoes(journal[j], id); }
  }

  lemma {:induction false} CorruptIsLeftOpen(journal: seq<Record>)
    ensures Corrupt(journal) <==> LeftOpen(journal)
  {
    forall id ensures Settled(journal, id) <==> exists j :: 0 <= j < |journal| && journal[j].id == id && !journal[j].status.Prepared? {
      if j :| 0 <= j < |journal| && journal[j].id == id && !journal[j].status.Prepared? { assert Settles(journal[j], id); }
    }
  }

  // ----- The checks

  lemma {:induction false} BlockedIff(codec: Codec, w: World, r: Record)
    requires r.Update?
    ensures ResolveOne(codec, w.tree, w.backups, r)
         == if InTheWay(codec, w, r) then Blocked(Reason(codec, w, r))
            else Entries([Entry(r.path, r.id, if r.beforeExisted then Some(w.backups[r.id][r.path]) else None)])
  {
  }

  lemma {:induction false} ResolveAppend(codec: Codec, t: Tree, backups: map<nat, Tree>, a: seq<Record>, b: seq<Record>, n: nat)
    requires n <= |a| && (forall k :: 0 <= k < |a| ==> a[k].Update?) && forall k :: 0 <= k < |b| ==> b[k].Update?
    ensures Resolve(codec, t, backups, a + b, n) == Resolve(codec, t, backups, a, n)
  {
    if n > 0 {
      ResolveAppend(codec, t, backups, a, b, n - 1);
      assert (a + b)[n - 1] == a[n - 1];
    }
  }

  /** One more record at the end of the journal. */
  lemma {:induction false} ResolveLast(codec: Codec, w: World, batch: nat, front: seq<Record>, last: Record)
    ensures var a, b := CommittedUpdates(front, batch), CommittedUpdates(front + [last], batch);
            var before, after := Resolve(codec, w.tree, w.backups, a, |a|), Resolve(codec, w.tree, w.backups, b, |b|);
            && (before.Blocked? || !CommittedOf(last, batch) ==> after == before)
            && (before.Entries? && CommittedOf(last, batch) ==>
                  b == a + [last]
                  && after == var one := ResolveOne(codec, w.tree, w.backups, last);
                              if one.Blocked? then one else Entries(before.entries + one.entries))
  {
    var a := CommittedUpdates(front, batch);
    assert (front + [last])[..|front|] == front;
    if CommittedOf(last, batch) {
      ResolveAppend(codec, w.tree, w.backups, a, [last], |a|);
    } else {
      assert CommittedUpdates(front + [last], batch) == a + [];
      assert a + [] == a;
    }
  }

  /** The checks found what there is to find. */
  predicate Finds(codec: Codec, w: World, batch: nat, resolution: Resolution) {
    match resolution
    case Entries(_) => !AnyInTheWay(codec, w, batch)
    case Blocked(problem) =>
      exists i :: 0 <= i < |w.journal| && FirstInTheWay(codec, w, batch, i) && problem == Reason(codec, w, w.journal[i])
  }

  lemma {:induction false} ResolvedIn(codec: Codec, w: World, batch: nat)
    ensures Finds(codec, w, batch, EntriesOf(codec, w, batch))
    decreases |w.journal|
  {
    if w.journal != [] {
      var front, last := w.journal[..|w.journal| - 1], w.journal[|w.journal| - 1];
      assert w.journal == front + [last];
      ResolvedIn(codec, w.(journal := front), batch);
      ResolveLast(codec, w, batch, front, last);
      FindsLast(codec, w, w.(journal := front), batch, EntriesOf(codec, w.(journal := front), batch), EntriesOf(codec, w, batch));
    }
  }

  lemma {:induction false} FindsLast(codec: Codec, w: World, before: World, batch: nat, was: Resolution, now: Resolution)
    requires w.journal != [] && before == w.(journal := w.journal[..|w.journal| - 1]) && Finds(codec, before, batch, was)
    requires var last := w.journal[|w.journal| - 1];
             if was.Blocked? || !CommittedOf(last, batch) then now == was
             else var one := ResolveOne(codec, w.tree, w.backups, last);
                  now == if one.Blocked? then one else Entries(was.entries + one.entries)
    ensures Finds(codec, w, batch, now)
  {
    match was
    case Blocked(problem) =>
      var i :| 0 <= i < |before.journal| && FirstInTheWay(codec, before, batch, i) && problem == Reason(codec, before, before.journal[i]);
      FirstStays(codec, w, before, batch, i);
    case Entries(_) =>
      var last := w.journal[|w.journal| - 1];
      if CommittedOf(last, batch) { BlockedIff(codec, w, last); }
      NoneStays(codec, w, before, batch);
  }

  lemma {:induction false} FirstStays(codec: Codec, w: World, before: World, batch: nat, i: nat)
    requires w.journal != [] && before == w.(journal := w.journal[..|w.journal| - 1])
    requires i < |before.journal| && FirstInTheWay(codec, before, batch, i)
    ensures FirstInTheWay(codec, w, batch, i) && Reason(codec, w, w.journal[i]) == Reason(codec, before, before.journal[i])
  {
    assert forall j :: 0 <= j < |before.journal| ==> before.journal[j] == w.journal[j];
  }

  lemma {:induction false} NoneStays(codec: Codec, w: World, before: World, batch: nat)
    requires w.journal != [] && before == w.(journal := w.journal[..|w.journal| - 1]) && !AnyInTheWay(codec, before, batch)
    ensures var k := |w.journal| - 1;
            if CommittedOf(w.journal[k], batch) && InTheWay(codec, w, w.journal[k]) then FirstInTheWay(codec, w, batch, k)
            else !AnyInTheWay(codec, w, batch)
  {
    var k := |w.journal| - 1;
    forall j | 0 <= j < k && CommittedOf(w.journal[j], batch) ensures !InTheWay(codec, w, w.journal[j]) {
      assert before.journal[j] == w.journal[j];
    }
  }

  lemma {:induction false} EntriesAre(codec: Codec, w: World, batch: nat, k: nat)
    requires EntriesOf(codec, w, batch).Entries? && k < |CommittedUpdates(w.journal, batch)|
    ensures var entries, r := EntriesOf(codec, w, batch).entries, CommittedUpdates(w.journal, batch)[k];
            && |entries| == |CommittedUpdates(w.journal, batch)| && !InTheWay(codec, w, r)
            && entries[k] == Entry(r.path, r.id, if r.beforeExisted then Some(w.backups[r.id][r.path]) else None)
  {
    var updates := CommittedUpdates(w.journal, batch);
    ResolvedEntries(codec, w.tree, w.backups, updates, |updates|, k);
    BlockedIff(codec, w, updates[k]);
  }

  // ----- How a rollback ends

  /** A readable journal and a batch that is not taken back: the rollback is refused exactly when
      something is in the way of one of its updates, and the refusal names the first one in the
      journal and its own reason. */
  lemma {:induction false} RefusedIff(codec: Codec, w: World, batch: nat, faults: RollbackFaults)
    requires !LeftOpen(w.journal) && ToRollBack(w.journal, batch)
    ensures var (now, outcome) := Rollback(codec, w, batch, faults);
            && (outcome.Refused? <==> AnyInTheWay(codec, w, batch))
            && (outcome.Refused? ==>
                  && now == w
                  && exists i :: 0 <= i < |w.journal| && FirstInTheWay(codec, w, batch, i) && outcome.problem == Reason(codec, w, w.journal[i]))
  {
    CorruptIsLeftOpen(w.journal);
    FoundIff(w.journal, batch);
    ResolvedIn(codec, w, batch);
    GoesToChecks(codec, w, batch, faults);
  }

  lemma {:induction false} GoesToChecks(codec: Codec, w: World, batch: nat, faults: RollbackFaults)
    requires !Corrupt(w.journal) && |CommittedUpdates(w.journal, batch)| > 0 && !AllUndone(w.journal, CommittedUpdates(w.journal, batch))
    ensures var (now, outcome) := Rollback(codec, w, batch, faults);
            match EntriesOf(codec, w, batch)
            case Blocked(problem) => now == w && outcome == Refused(problem)
            case Entries(entries) =>
              && !outcome.Refused?
              && (now, outcome) == if SnapshotBreaks(w.tree, entries, faults) then (w, SnapshotFailed) else Revert(w, entries, batch, faults)
  {
    if EntriesOf(codec, w, batch).Entries? { RevertIsNoRefusal(w, EntriesOf(codec, w, batch).entries, batch, faults); }
  }

  ghost predicate UpdatesApart(updates: seq<Record>) {
    forall k, l :: 0 <= k < |updates| && 0 <= l < |updates| && k != l ==> Disjoint(updates[k].path, updates[l].path)
  }

  /** The copy of what is at the path throws. */
  predicate NoSnapshot(t: Tree, updates: seq<Record>, faults: RollbackFaults) {
    exists k :: 0 <= k < |updates| && faults.snapshot(k) && exists q :: q in t && Within(q, updates[k].path)
  }

  /** Nothing breaks at the path, and its file has room. */
  predicate PutsBack(t: Tree, updates: seq<Record>, faults: RollbackFaults, k: nat)
    requires k < |updates| && updates[k].Update?
  {
    && faults.revert(k).Fine?
    && (updates[k].beforeExisted ==> forall q :: q in t && (Within(q, updates[k].path) || Within(updates[k].path, q)) ==> q == updates[k].path)
  }

  predicate AllPutBack(t: Tree, updates: seq<Record>, faults: RollbackFaults)
    requires forall k :: 0 <= k < |updates| ==> updates[k].Update?
  {
    forall k :: 0 <= k < |updates| ==> PutsBack(t, updates, faults, k)
  }

  lemma {:induction false} EntriesMatch(codec: Codec, w: World, batch: nat, faults: RollbackFaults)
    requires EntriesOf(codec, w, batch).Entries? && UpdatesApart(CommittedUpdates(w.journal, batch))
    ensures var entries, updates := EntriesOf(codec, w, batch).entries, CommittedUpdates(w.journal, batch);
            && EntriesApart(entries)
            && (SnapshotBreaks(w.tree, entries, faults) <==> NoSnapshot(w.tree, updates, faults))
            && (RevertAll(w.tree, entries, faults, |entries|).1 <==> AllPutBack(w.tree, updates, faults))
  {
    var entries, updates := EntriesOf(codec, w, batch).entries, CommittedUpdates(w.journal, batch);
    assert |entries| == |updates|;
    forall k | 0 <= k < |updates|
      ensures entries[k].path == updates[k].path && (entries[k].bytes.Some? <==> updates[k].beforeExisted)
    {
      EntriesAre(codec, w, batch, k);
    }
    RevertAllOkIff(w.tree, entries, faults, |entries|);
    MatchingBreaks(w.tree, entries, updates, faults);
    MatchingPutBack(w.tree, entries, updates, faults);
  }

  lemma {:induction false} MatchingBreaks(t: Tree, entries: seq<Entry>, updates: seq<Record>, faults: RollbackFaults)
    requires |entries| == |updates| && forall k :: 0 <= k < |updates| ==> entries[k].path == updates[k].path
    ensures SnapshotBreaks(t, entries, faults) <==> NoSnapshot(t, updates, faults)
  {
    if k :| 0 <= k < |entries| && Exists(t, entries[k].path) && faults.snapshot(k) { assert entries[k].path == updates[k].path; }
    if k :| 0 <= k < |updates| && faults.snapshot(k) && exists q :: q in t && Within(q, updates[k].path) {
      assert Exists(t, entries[k].path);
    }
  }

  lemma {:induction false} MatchingPutBack(t: Tree, entries: seq<Entry>, updates: seq<Record>, faults: RollbackFaults)
    requires |entries| == |updates| && forall k :: 0 <= k < |updates| ==> updates[k].Update?
    requires forall k :: 0 <= k < |updates| ==> entries[k].path == updates[k].path && (entries[k].bytes.Some? <==> updates[k].beforeExisted)
    ensures (forall k :: 0 <= k < |entries| ==> faults.revert(k).Fine? && CanRevert(t, entries[k])) <==> AllPutBack(t, updates, faults)
  {
    forall k | 0 <= k < |updates|
      ensures faults.revert(k).Fine? && CanRevert(t, entries[k]) <==> PutsBack(t, updates, faults, k)
    {
    }
  }

  /** How every rollback ends. */
  lemma {:induction false} RollbackEndings(codec: Codec, w: World, batch: nat, faults: RollbackFaults)
    requires UpdatesApart(CommittedUpdates(w.journal, batch))
    ensures var outcome, updates := Rollback(codec, w, batch, faults).1, CommittedUpdates(w.journal, batch);
            if LeftOpen(w.journal) then outcome == JournalCorrupt
            else if !HasCommitted(w.journal, batch) then outcome == BatchNotFound
            else if !ToRollBack(w.journal, batch) then outcome == AlreadyRolledBack
            else if AnyInTheWay(codec, w, batch) then outcome.Refused?
            else outcome == PastChecks(w.tree, updates, faults)
  {
    var updates := CommittedUpdates(w.journal, batch);
    CorruptIsLeftOpen(w.journal);
    FoundIff(w.journal, batch);
    if !LeftOpen(w.journal) && ToRollBack(w.journal, batch) {
      HasToRollBack(w.journal, batch);
      ResolvedIn(codec, w, batch);
      GoesToChecks(codec, w, batch, faults);
      if EntriesOf(codec, w, batch).Entries? {
        EntriesMatch(codec, w, batch, faults);
        RevertEnds(w, EntriesOf(codec, w, batch).entries, batch, faults);
      }
    }
  }

  lemma {:induction false} HasToRollBack(journal: seq<Record>, batch: nat)
    requires ToRollBack(journal, batch)
    ensures HasCommitted(journal, batch)
  {
  }

  /** Once nothing is in the way, the faults decide. */
  function PastChecks(t: Tree, updates: seq<Record>, faults: RollbackFaults): RollbackOutcome
    requires forall k :: 0 <= k < |updates| ==> updates[k].Update?
  {
    if NoSnapshot(t, updates, faults) then SnapshotFailed
    else if !faults.prepared.NoFault? then NotPrepared
    else if AllPutBack(t, updates, faults) && faults.commit.NoFault? then RolledBackBatch
    else if faults.rolledBack.NoFault? then Restored
    else RollbackIntegrityError
  }

  lemma {:induction false} RevertEnds(w: World, entries: seq<Entry>, batch: nat, faults: RollbackFaults)
    ensures Revert(w, entries, batch, faults).1
         == if !faults.prepared.NoFault? then NotPrepared
            else if RevertAll(w.tree, entries, faults, |entries|).1 && faults.commit.NoFault? then RolledBackBatch
            else if faults.rolledBack.NoFault? then Restored
            else RollbackIntegrityError
  {
  }

  // ----- What a successful rollback leaves

  /** The tree: every path holds its backup, or nothing at or below it where there was nothing,
      and everything else is as it was. */
  lemma {:induction false} RollbackPutsBack(codec: Codec, w: World, batch: nat, faults: RollbackFaults)
    requires UpdatesApart(CommittedUpdates(w.journal, batch)) && Rollback(codec, w, batch, faults).1.RolledBackBatch?
    ensures var t, updates := Rollback(codec, w, batch, faults).0.tree, CommittedUpdates(w.journal, batch);
            && (forall k :: 0 <= k < |updates| && updates[k].beforeExisted ==>
                  && updates[k].id in w.backups && updates[k].path in w.backups[updates[k].id]
                  && Get(t, updates[k].path) == Some(w.backups[updates[k].id][updates[k].path]))
            && (forall k, q :: 0 <= k < |updates| && !updates[k].beforeExisted && Within(q, updates[k].path) ==> q !in t)
            && (forall q :: (forall k :: 0 <= k < |updates| ==>
                               if updates[k].beforeExisted then q != updates[k].path else !Within(q, updates[k].path)) ==> Get(t, q) == Get(w.tree, q))
  {
    var t, updates := Rollback(codec, w, batch, faults).0.tree, CommittedUpdates(w.journal, batch);
    forall k | 0 <= k < |updates| && updates[k].beforeExisted
      ensures updates[k].id in w.backups && updates[k].path in w.backups[updates[k].id]
      ensures Get(t, updates[k].path) == Some(w.backups[updates[k].id][updates[k].path])
    {
      WithinSelf(updates[k].path);
      PutBackAt(codec, w, batch, faults, updates[k].path, k);
    }
    forall k, q | 0 <= k < |updates| && !updates[k].beforeExisted && Within(q, updates[k].path) ensures q !in t {
      PutBackAt(codec, w, batch, faults, q, k);
    }
    forall q | forall k :: 0 <= k < |updates| ==> if updates[k].beforeExisted then q != updates[k].path else !Within(q, updates[k].path)
      ensures Get(t, q) == Get(w.tree, q)
    {
      if k :| 0 <= k < |updates| && Within(q, updates[k].path) {
        PutBackAt(codec, w, batch, faults, q, k);
      } else {
        NotPutBackAt(codec, w, batch, faults, q);
      }
    }
  }

  lemma {:induction false} PutBackAt(codec: Codec, w: World, batch: nat, faults: RollbackFaults, q: Path, k: nat)
    requires UpdatesApart(CommittedUpdates(w.journal, batch)) && Rollback(codec, w, batch, faults).1.RolledBackBatch?
    requires k < |CommittedUpdates(w.journal, batch)| && Within(q, CommittedUpdates(w.journal, batch)[k].path)
    ensures var t, r := Rollback(codec, w, batch, faults).0.tree, CommittedUpdates(w.journal, batch)[k];
            if r.beforeExisted then
              && r.id in w.backups && r.path in w.backups[r.id]
              && Get(t, q) == if q == r.path then Some(w.backups[r.id][r.path]) else Get(w.tree, q)
            else q !in t
  {
    SucceedsThroughRevert(codec, w, batch, faults);
    EntriesAre(codec, w, batch, k);
    EntriesMatch(codec, w, batch, faults);
    SuccessTree(w, EntriesOf(codec, w, batch).entries, batch, faults, q);
    assert q in Rollback(codec, w, batch, faults).0.tree <==> Get(Rollback(codec, w, batch, faults).0.tree, q) != None;
  }

  lemma {:induction false} NotPutBackAt(codec: Codec, w: World, batch: nat, faults: RollbackFaults, q: Path)
    requires UpdatesApart(CommittedUpdates(w.journal, batch)) && Rollback(codec, w, batch, faults).1.RolledBackBatch?
    requires forall k :: 0 <= k < |CommittedUpdates(w.journal, batch)| ==> !Within(q, CommittedUpdates(w.journal, batch)[k].path)
    ensures Get(Rollback(codec, w, batch, faults).0.tree, q) == Get(w.tree, q)
  {
    SucceedsThroughRevert(codec, w, batch, faults);
    EntriesMatch(codec, w, batch, faults);
    var entries := EntriesOf(codec, w, batch).entries;
    forall k | 0 <= k < |entries| ensures !Within(q, entries[k].path) { EntriesAre(codec, w, batch, k); }
    SuccessTree(w, entries, batch, faults, q);
  }

  /** The journal: a prepared and then a committed undo record for each update, in their order;
      the backups stay. */
  lemma {:induction false} RollbackRecords(codec: Codec, w: World, batch: nat, faults: RollbackFaults, k: nat)
    requires Rollback(codec, w, batch, faults).1.RolledBackBatch? && k < |CommittedUpdates(w.journal, batch)|
    ensures var now, updates := Rollback(codec, w, batch, faults).0, CommittedUpdates(w.journal, batch);
            var n, r := |updates|, updates[k];
            && now.backups == w.backups && now.nextId == w.nextId + n
            && |now.journal| == |w.journal| + n + n && now.journal[..|w.journal|] == w.journal
            && now.journal[|w.journal| + k] == Undo(w.nextId + k, Prepared, r.id, r.path, batch)
            && now.journal[|w.journal| + n + k] == Undo(w.nextId + k, Committed, r.id, r.path, batch)
  {
    SucceedsThroughRevert(codec, w, batch, faults);
    EntriesAre(codec, w, batch, k);
    RevertWrites(w, EntriesOf(codec, w, batch).entries, batch, faults);
  }
}
