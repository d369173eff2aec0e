/** A batch that was put back and yet counts as committed, because the append of its
    committed records threw after writing them (cli/commands/update.ts:549-577), and what it
    does to the unwinding of a run. */
module UpdatePhantoms {
  import opened Wrappers
  import opened UpdateTree
  import opened UpdateApply
  import opened UpdateOutcomes
  import opened UpdateHistory
  import opened UpdateRollback
  import opened UpdateJournal
  import opened UpdateRuns
  import opened UpdateApplySteps
  import Laws = UpdateRollbackLaws
  import RollbackSteps = UpdateRollbackSteps
  import Unwinding = UpdateUnwinding
  import Stranding = UpdateStranding

  /** The committed records reached the file, and then the append threw. */
  predicate Phantom(staged: seq<Staged>, t: Tree, faults: Faults) {
    AtCommit(staged, t, faults) && faults.commit.ThrowsAfter?
  }

  /** Each path holds, as far as the digest can tell, what the batch would have left there. */
  predicate SameDigests(codec: Codec, live: Live) {
    forall i :: 0 <= i < |live.edits| ==>
      RollbackSteps.TextHash(codec, live.edits[i].before) == HashOf(codec, live.edits[i].after)
  }

  /** The paths hold what the batch found. */
  predicate HoldsBefores(t: Tree, live: Live) {
    forall i :: 0 <= i < |live.edits| ==> Get(t, live.edits[i].path) == live.edits[i].before
  }

  // ----- Rolling such a batch back

  lemma {:induction false} PhantomSucceeds(codec: Codec, w: World, live: Live, faults: RollbackFaults)
    requires Recorded(codec, w, live) && Sensible(live) && !Corrupt(w.journal) && WellFormed(w.tree)
    requires HoldsBefores(w.tree, live) && SameDigests(codec, live) && RollbackSteps.Calm(faults)
    ensures Rollback(codec, w, live.batch, faults).1.RolledBackBatch?
  {
    RollbackSteps.EntriesOfUndrifted(codec, w, live);
    RollbackSteps.LiveIsLive(codec, w, live);
    Laws.SucceedsIff(codec, w, live.batch, faults);
  }

  lemma {:induction false} PhantomTreeAt(t: Tree, entries: seq<Entry>, live: Live, faults: RollbackFaults, q: Path)
    requires RollbackSteps.Mirror(entries, live) && Sensible(live) && HoldsBefores(t, live) && WellFormed(t)
    requires (forall i :: 0 <= i < |live.edits| ==> live.edits[i].before.Some?) && RevertAll(t, entries, faults, |entries|).1
    ensures Get(RevertAll(t, entries, faults, |entries|).0, q) == Get(t, q)
  {
    if i :| 0 <= i < |entries| && Within(q, entries[i].path) {
      assert entries[i] == RollbackSteps.EntryOf(live.edits[i]);
      Laws.RevertedAt(t, entries, faults, |entries|, q, i);
    } else {
      Laws.RevertAllOutside(t, entries, faults, |entries|, q);
    }
  }

  lemma {:induction false} PhantomChangesNothing(codec: Codec, w: World, live: Live, faults: RollbackFaults)
    requires Recorded(codec, w, live) && Sensible(live) && WellFormed(w.tree) && HoldsBefores(w.tree, live)
    requires SameDigests(codec, live) && Rollback(codec, w, live.batch, faults).1.RolledBackBatch?
    ensures Rollback(codec, w, live.batch, faults).0.tree == w.tree
  {
    RollbackSteps.SuccessWorld(codec, w, live, faults);
    var entries := Laws.EntriesOf(codec, w, live.batch).entries;
    FoundEverywhere(codec, live);
    forall q ensures Get(RevertAll(w.tree, entries, faults, |entries|).0, q) == Get(w.tree, q) {
      PhantomTreeAt(w.tree, entries, live, faults, q);
    }
    SameTree(RevertAll(w.tree, entries, faults, |entries|).0, w.tree);
  }

  lemma {:induction false} FoundEverywhere(codec: Codec, live: Live)
    requires Sensible(live) && SameDigests(codec, live)
    ensures forall i :: 0 <= i < |live.edits| ==> live.edits[i].before.Some?
  {
    forall i | 0 <= i < |live.edits| ensures live.edits[i].before.Some? {
      assert RollbackSteps.TextHash(codec, live.edits[i].before) == HashOf(codec, live.edits[i].after);
    }
  }

  lemma {:induction false} PhantomRollsBackIff(codec: Codec, w: World, live: Live, faults: RollbackFaults)
    requires Recorded(codec, w, live) && Sensible(live) && !Corrupt(w.journal) && WellFormed(w.tree)
    requires HoldsBefores(w.tree, live) && RollbackSteps.Calm(faults)
    ensures Rollback(codec, w, live.batch, faults).1.RolledBackBatch? <==> SameDigests(codec, live)
    ensures Rollback(codec, w, live.batch, faults).0.tree == w.tree
  {
    Laws.AllOrNothing(codec, w, live.batch, faults);
    if Rollback(codec, w, live.batch, faults).1.RolledBackBatch? {
      forall i | 0 <= i < |live.edits|
        ensures RollbackSteps.TextHash(codec, live.edits[i].before) == HashOf(codec, live.edits[i].after)
      {
        RollbackSteps.PassedDrift(codec, w, live, faults, i);
      }
      PhantomChangesNothing(codec, w, live, faults);
    } else if SameDigests(codec, live) {
      PhantomSucceeds(codec, w, live, faults);
    }
  }

  // ----- The run after it

  lemma {:induction false} PhantomFiled(codec: Codec, w0: World, w: World, staged: seq<Staged>, batch: nat, faults: Faults, init: Tree, history: seq<Live>)
    requires Starts(codec, w0, w, staged, batch) && Inv(codec, w0, init, history) && Phantom(staged, w.tree, faults)
    ensures Filed(codec, Transact(codec, w, staged, batch, faults).0, history + [Live(batch, EditsOf(w.tree, staged))])
  {
    var live := Live(batch, EditsOf(w.tree, staged));
    OthersStay(codec, w0, w, staged, batch, faults, init, history);
    ReportedRecorded(codec, w0, w, staged, batch, faults);
    AftersApart(codec, w.tree, staged);
    NewIsOrdered(w0.nextId, history, live);
    PhantomJournal(codec, w0, w, staged, batch, faults);
  }

  lemma {:induction false} PhantomJournal(codec: Codec, w0: World, w: World, staged: seq<Staged>, batch: nat, faults: Faults)
    requires Starts(codec, w0, w, staged, batch) && Fresh(w0.journal, w0.nextId) && !Corrupt(w0.journal) && Phantom(staged, w.tree, faults)
    ensures var now := Transact(codec, w, staged, batch, faults).0;
            now.nextId == w.nextId && Fresh(now.journal, w.nextId) && !Corrupt(now.journal)
  {
    TransactGrows(codec, w, staged, batch, w0.nextId, faults);
    AddedKnown(codec, w.tree, staged, batch, w0.nextId, w.nextId, faults);
    FreshAppend(w0.journal, Added(codec, w.tree, staged, batch, faults), w0.nextId, w.nextId);
    CorruptsIff(codec, w0, w, staged, batch, faults);
  }

  lemma {:induction false} PhantomTree(codec: Codec, w: World, staged: seq<Staged>, batch: nat, faults: Faults)
    requires Ready(codec, staged, w.tree) && Phantom(staged, w.tree, faults) && Recoverable(staged, w.tree, w.backups, faults)
    ensures Transact(codec, w, staged, batch, faults).0.tree == w.tree
  {
    CommitsIff(codec, w, staged, batch, faults);
    FailureRestoresIff(codec, w, staged, batch, faults);
  }

  /** After such an apply the batch is the newest live one although the tree is as before. The
      live batches can be unwound, and then to the first tree, exactly when every path of the
      batch holds content of the digest it was to get; otherwise the newest is refused. */
  lemma {:induction false} PhantomIff(codec: Codec, w0: World, w: World, staged: seq<Staged>, batch: nat, faults: Faults, init: Tree, history: seq<Live>, calm: RollbackFaults)
    requires Starts(codec, w0, w, staged, batch) && Inv(codec, w0, init, history) && Phantom(staged, w.tree, faults)
    requires Recoverable(staged, w.tree, w.backups, faults) && RollbackSteps.Calm(calm)
    ensures var now, live := Transact(codec, w, staged, batch, faults).0, Live(batch, EditsOf(w.tree, staged));
            var (last, ok) := Unwinding.Unwind(codec, now, history + [live], calm);
            && now.tree == w.tree && IsLive(now.journal, batch)
            && (ok <==> SameDigests(codec, live)) && (ok ==> last.tree == init)
  {
    PhantomTree(codec, w, staged, batch, faults);
    LiveIff(codec, w0, w, staged, batch, faults);
    PhantomFiled(codec, w0, w, staged, batch, faults, init, history);
    AftersApart(codec, w.tree, staged);
    ReportedRecorded(codec, w0, w, staged, batch, faults);
    PhantomUnwinds(codec, Transact(codec, w, staged, batch, faults).0, init, history, Live(batch, EditsOf(w.tree, staged)), calm);
  }

  lemma {:induction false} PhantomUnwinds(codec: Codec, w: World, init: Tree, history: seq<Live>, live: Live, calm: RollbackFaults)
    requires Filed(codec, w, history + [live]) && Chain(init, w.tree, history) && HoldsBefores(w.tree, live)
    requires Sensible(live) && Recorded(codec, w, live) && RollbackSteps.Calm(calm)
    ensures var (last, ok) := Unwinding.Unwind(codec, w, history + [live], calm);
            (ok <==> SameDigests(codec, live)) && (ok ==> last.tree == init)
  {
    var all := history + [live];
    assert all[..|all| - 1] == history && all[|all| - 1] == live;
    ChainWellFormed(init, w.tree, history);
    PhantomRollsBackIff(codec, w, live, calm);
    Unwinding.UnwindStep(codec, w, all, calm);
    if SameDigests(codec, live) {
      Stranding.NewestDropped(codec, w, all, calm);
      Stranding.UnwindArrives(codec, Rollback(codec, w, live.batch, calm).0, init, history, calm);
    }
  }
}
