/** How a rollback moves a run on: a batch that no later live batch comes near always rolls
    back and leaves the history; a failed rollback leaves the history alone. */
module UpdateRollbackSteps {
  import opened Wrappers
  import opened UpdateTree
  import opened UpdateHistory
  import opened UpdateRollback
  import opened UpdateJournal
  import opened UpdateRuns
  import Laws = UpdateRollbackLaws

  // ----- The entries of a live batch

  function EntryOf(e: Edit): Entry {
    Entry(e.path, e.id, e.before)
  }

  ghost predicate Mirror(entries: seq<Entry>, live: Live) {
    |entries| == |live.edits| && forall i :: 0 <= i < |entries| ==> entries[i] == EntryOf(live.edits[i])
  }

  /** No path of the batch has drifted, as far as the digest can tell. */
  predicate Undrifted(codec: Codec, t: Tree, live: Live) {
    forall i :: 0 <= i < |live.edits| ==> CurrentHash(codec, t, live.edits[i].path) == HashOf(codec, live.edits[i].after)
  }

  lemma {:induction false} EntriesOfLive(codec: Codec, w: World, live: Live)
    requires Recorded(codec, w, live) && Matches(w.tree, live)
    ensures var resolution := Laws.EntriesOf(codec, w, live.batch);
            resolution.Entries? && Mirror(resolution.entries, live)
  {
    forall i | 0 <= i < |live.edits| ensures CurrentHash(codec, w.tree, live.edits[i].path) == HashOf(codec, live.edits[i].after) {
      assert Tells(codec, CommittedUpdates(w.journal, live.batch)[i], live.edits[i]);
    }
    EntriesOfUndrifted(codec, w, live);
  }

  lemma {:induction false} EntriesOfUndrifted(codec: Codec, w: World, live: Live)
    requires Recorded(codec, w, live) && Undrifted(codec, w.tree, live)
    ensures var resolution := Laws.EntriesOf(codec, w, live.batch);
            resolution.Entries? && Mirror(resolution.entries, live)
  {
    var updates := CommittedUpdates(w.journal, live.batch);
    forall i | 0 <= i < |updates|
      ensures ResolveOne(codec, w.tree, w.backups, updates[i]) == Entries([EntryOf(live.edits[i])])
    {
      assert Tells(codec, updates[i], live.edits[i]) && BackedUp(w.backups, live.edits[i]);
    }
    Laws.ResolvesIff(codec, w.tree, w.backups, updates, |updates|);
    forall i | 0 <= i < |updates|
      ensures Laws.EntriesOf(codec, w, live.batch).entries[i] == EntryOf(live.edits[i])
    {
      Laws.ResolvedEntries(codec, w.tree, w.backups, updates, |updates|, i);
    }
  }

  lemma {:induction false} EntriesMirror(codec: Codec, w: World, live: Live, faults: RollbackFaults)
    requires Recorded(codec, w, live) && Rollback(codec, w, live.batch, faults).1.RolledBackBatch?
    ensures Mirror(Laws.EntriesOf(codec, w, live.batch).entries, live)
  {
    Laws.SucceedsThroughRevert(codec, w, live.batch, faults);
    MirrorIfResolved(codec, w, live);
  }

  lemma {:induction false} MirrorIfResolved(codec: Codec, w: World, live: Live)
    requires Recorded(codec, w, live) && Laws.EntriesOf(codec, w, live.batch).Entries?
    ensures Mirror(Laws.EntriesOf(codec, w, live.batch).entries, live)
  {
    var updates, entries := CommittedUpdates(w.journal, live.batch), Laws.EntriesOf(codec, w, live.batch).entries;
    forall i | 0 <= i < |updates| ensures entries[i] == EntryOf(live.edits[i]) {
      Laws.ResolvedEntries(codec, w.tree, w.backups, updates, |updates|, i);
      assert Tells(codec, updates[i], live.edits[i]) && BackedUp(w.backups, live.edits[i]);
    }
  }

  lemma {:induction false} PassedDrift(codec: Codec, w: World, live: Live, faults: RollbackFaults, i: nat)
    requires Recorded(codec, w, live) && i < |live.edits| && Rollback(codec, w, live.batch, faults).1.RolledBackBatch?
    ensures CurrentHash(codec, w.tree, live.edits[i].path) == HashOf(codec, live.edits[i].after)
  {
    var updates := CommittedUpdates(w.journal, live.batch);
    Laws.SucceedsThroughRevert(codec, w, live.batch, faults);
    Laws.ResolvedEntries(codec, w.tree, w.backups, updates, |updates|, i);
    assert Tells(codec, updates[i], live.edits[i]);
  }

  lemma {:induction false} LiveIsLive(codec: Codec, w: World, live: Live)
    requires Recorded(codec, w, live)
    ensures IsLive(w.journal, live.batch)
  {
    var updates := CommittedUpdates(w.journal, live.batch);
    assert Tells(codec, updates[0], live.edits[0]) && !Undone(w.journal, live.edits[0].id);
  }

  // ----- The tree

  lemma {:induction false} RevertedLiveAt(t: Tree, entries: seq<Entry>, live: Live, faults: RollbackFaults, q: Path)
    requires Mirror(entries, live) && Sensible(live) && WellFormed(t) && Matches(t, live)
    requires RevertAll(t, entries, faults, |entries|).1
    ensures Get(RevertAll(t, entries, faults, |entries|).0, q) == Get(Without(t, live), q)
  {
    var paths := Paths(Befores(live.edits));
    if i :| 0 <= i < |entries| && Within(q, entries[i].path) {
      Laws.RevertedAt(t, entries, faults, |entries|, q, i);
      if q == entries[i].path {
        UndoHit(t, live, i);
      } else {
        ComparableIsNotOwn(live, i, q);
        UndoMiss(t, live, q);
        if live.edits[i].before.None? { BelowNothing(t, live, i, q); }
      }
    } else {
      Laws.RevertAllOutside(t, entries, faults, |entries|, q);
      NotAPath(entries, live, q);
      UndoMiss(t, live, q);
    }
  }

  /** Nothing lies below a path where the batch found nothing: it holds a file now. */
  lemma {:induction false} BelowNothing(t: Tree, live: Live, i: nat, q: Path)
    requires Sensible(live) && WellFormed(t) && Matches(t, live) && i < |live.edits|
    requires Within(q, live.edits[i].path) && q != live.edits[i].path && live.edits[i].before.None?
    ensures q !in t
  {
    assert live.edits[i].path in t;
  }

  lemma {:induction false} NotAPath(entries: seq<Entry>, live: Live, q: Path)
    requires Mirror(entries, live) && forall i :: 0 <= i < |entries| ==> !Within(q, entries[i].path)
    ensures q !in Paths(Befores(live.edits))
  {
    WithinSelf(q);
    forall i | 0 <= i < |live.edits| ensures Befores(live.edits)[i].path != q {
      assert !Within(q, entries[i].path);
    }
  }

  lemma {:induction false} RevertIsWithout(t: Tree, entries: seq<Entry>, live: Live, faults: RollbackFaults)
    requires Mirror(entries, live) && Sensible(live) && WellFormed(t) && Matches(t, live)
    requires RevertAll(t, entries, faults, |entries|).1
    ensures RevertAll(t, entries, faults, |entries|).0 == Without(t, live)
  {
    forall q ensures Get(RevertAll(t, entries, faults, |entries|).0, q) == Get(Without(t, live), q) {
      RevertedLiveAt(t, entries, live, faults, q);
    }
    SameTree(RevertAll(t, entries, faults, |entries|).0, Without(t, live));
  }

  // ----- The topmost batches

  /** No live batch committed after the `k`-th comes near its paths. */
  ghost predicate Topmost(history: seq<Live>, k: nat) {
    k < |history| && SeparateFromAll(history[k], history[k + 1..])
  }

  function Dropped(history: seq<Live>, k: nat): seq<Live>
    requires k < |history|
  {
    history[..k] + history[k + 1..]
  }

  lemma {:induction false} TopmostChain(codec: Codec, w: World, init: Tree, history: seq<Live>, k: nat)
    requires Inv(codec, w, init, history) && Topmost(history, k)
    ensures Matches(w.tree, history[k]) && WellFormed(w.tree)
    ensures Chain(init, Without(w.tree, history[k]), Dropped(history, k)) && WellFormed(Without(w.tree, history[k]))
  {
    assert history == history[..k] + [history[k]] + history[k + 1..];
    ChainWithout(init, w.tree, history[..k], history[k], history[k + 1..]);
  }

  /** The paths of the `k`-th batch hold what it left there, and without it the others still
      lead back to `init`. */
  ghost predicate Takeable(init: Tree, t: Tree, history: seq<Live>, k: nat) {
    k < |history| && Matches(t, history[k]) && Chain(init, Without(t, history[k]), Dropped(history, k))
  }

  lemma {:induction false} TopmostIsTakeable(codec: Codec, w: World, init: Tree, history: seq<Live>, k: nat)
    requires Inv(codec, w, init, history) && Topmost(history, k)
    ensures Takeable(init, w.tree, history, k)
  {
    TopmostChain(codec, w, init, history, k);
  }

  function TextHash(codec: Codec, v: Option<Bytes>): Option<int> {
    match v
    case Some(bytes) => Some(codec.hash(codec.text(bytes)))
    case None => None
  }

  /** At the paths of the batch the digest tells what it left there from what is there now and
      from what it had found. */
  predicate DigestTells(codec: Codec, t: Tree, live: Live) {
    forall i :: 0 <= i < |live.edits| ==>
      var e := live.edits[i];
      && (TextHash(codec, Get(t, e.path)) == HashOf(codec, e.after) ==> Get(t, e.path) == e.after)
      && (TextHash(codec, e.before) == HashOf(codec, e.after) ==> e.before == e.after)
  }

  /** A batch that passes the drift check and changed nothing where later ones came near. */
  lemma {:induction false} HarmlessIsTakeable(codec: Codec, w: World, init: Tree, history: seq<Live>, k: nat, faults: RollbackFaults)
    requires Inv(codec, w, init, history) && k < |history| && Harmless(history[k], history[k + 1..])
    requires Rollback(codec, w, history[k].batch, faults).1.RolledBackBatch? && DigestTells(codec, w.tree, history[k])
    ensures Takeable(init, w.tree, history, k)
  {
    assert Recorded(codec, w, history[k]);
    NothingDrifted(codec, w, history[k], faults);
    HarmlessChain(init, w.tree, history, k);
  }

  lemma {:induction false} NothingDrifted(codec: Codec, w: World, live: Live, faults: RollbackFaults)
    requires Recorded(codec, w, live) && Rollback(codec, w, live.batch, faults).1.RolledBackBatch?
    requires DigestTells(codec, w.tree, live)
    ensures Matches(w.tree, live)
  {
    forall i | 0 <= i < |live.edits| ensures Get(w.tree, live.edits[i].path) == live.edits[i].after {
      PassedDrift(codec, w, live, faults, i);
    }
  }

  lemma {:induction false} HarmlessChain(init: Tree, t: Tree, history: seq<Live>, k: nat)
    requires Chain(init, t, history) && k < |history| && Sensible(history[k])
    requires Harmless(history[k], history[k + 1..]) && Matches(t, history[k])
    ensures Takeable(init, t, history, k)
  {
    assert history == history[..k] + [history[k]] + history[k + 1..];
    ChainWithoutHarmless(init, t, history[..k], history[k], history[k + 1..]);
  }

  /** Nothing throws. */
  ghost predicate Calm(faults: RollbackFaults) {
    && faults.prepared.NoFault? && faults.commit.NoFault?
    && (forall i :: !faults.snapshot(i)) && (forall i :: faults.revert(i).Fine?)
  }

  /** A batch whose paths hold what it left there rolls back where nothing throws. */
  lemma {:induction false} MatchingSucceeds(codec: Codec, w: World, live: Live, faults: RollbackFaults)
    requires Recorded(codec, w, live) && Sensible(live) && !Corrupt(w.journal) && Matches(w.tree, live)
    requires WellFormed(Without(w.tree, live)) && Calm(faults)
    ensures Rollback(codec, w, live.batch, faults).1.RolledBackBatch?
  {
    EntriesOfLive(codec, w, live);
    LiveIsLive(codec, w, live);
    RoomForAll(w.tree, live, Laws.EntriesOf(codec, w, live.batch).entries);
    Laws.SucceedsIff(codec, w, live.batch, faults);
  }

  lemma {:induction false} RoomForAll(t: Tree, live: Live, entries: seq<Entry>)
    requires Mirror(entries, live) && Sensible(live) && WellFormed(Without(t, live))
    ensures forall i :: 0 <= i < |entries| ==> CanRevert(t, entries[i])
  {
    forall i | 0 <= i < |entries| ensures CanRevert(t, entries[i]) {
      if live.edits[i].before.Some? { RoomForBefore(t, live, i); }
    }
  }

  lemma {:induction false} TakeableRollsBack(codec: Codec, w: World, init: Tree, history: seq<Live>, k: nat, faults: RollbackFaults)
    requires Inv(codec, w, init, history) && Takeable(init, w.tree, history, k) && Calm(faults)
    ensures Rollback(codec, w, history[k].batch, faults).1.RolledBackBatch?
  {
    assert Recorded(codec, w, history[k]) && Sensible(history[k]);
    MatchingSucceeds(codec, w, history[k], faults);
  }

  /** The rollback of a topmost batch never runs into drift, a missing backup or a path
      where no file can stand. */
  lemma {:induction false} TopmostRollsBack(codec: Codec, w: World, init: Tree, history: seq<Live>, k: nat, faults: RollbackFaults)
    requires Inv(codec, w, init, history) && Topmost(history, k) && Calm(faults)
    ensures Rollback(codec, w, history[k].batch, faults).1.RolledBackBatch?
  {
    TopmostIsTakeable(codec, w, init, history, k);
    TakeableRollsBack(codec, w, init, history, k, faults);
  }

  /** The world after a rollback of `live` that went through. */
  lemma {:induction false} SuccessWorld(codec: Codec, w: World, live: Live, faults: RollbackFaults)
    requires Recorded(codec, w, live) && Rollback(codec, w, live.batch, faults).1.RolledBackBatch?
    ensures Laws.EntriesOf(codec, w, live.batch).Entries?
    ensures var entries := Laws.EntriesOf(codec, w, live.batch).entries;
            && Mirror(entries, live) && RevertAll(w.tree, entries, faults, |entries|).1
            && Rollback(codec, w, live.batch, faults).0
               == World(RevertAll(w.tree, entries, faults, |entries|).0,
                        w.journal + UndoAdded(entries, w.nextId, live.batch, Committed), w.backups, w.nextId + |entries|)
  {
    EntriesMirror(codec, w, live, faults);
    var entries := Laws.EntriesOf(codec, w, live.batch).entries;
    Laws.SucceedsThroughRevert(codec, w, live.batch, faults);
    Laws.RevertWrites(w, entries, live.batch, faults);
    ClosedGrows(w.journal, entries, w.nextId, live.batch);
  }

  lemma {:induction false} SuccessTakesBack(codec: Codec, w: World, live: Live, faults: RollbackFaults)
    requires Recorded(codec, w, live) && Rollback(codec, w, live.batch, faults).1.RolledBackBatch?
    requires Sensible(live) && WellFormed(w.tree) && Matches(w.tree, live)
    ensures Rollback(codec, w, live.batch, faults).0.tree == Without(w.tree, live)
  {
    SuccessWorld(codec, w, live, faults);
    RevertIsWithout(w.tree, Laws.EntriesOf(codec, w, live.batch).entries, live, faults);
  }

  // ----- The journal

  function UndoAdded(entries: seq<Entry>, firstId: nat, batch: nat, status: Status): seq<Record> {
    UndoRecords(entries, firstId, Prepared, batch) + UndoRecords(entries, firstId, status, batch)
  }

  lemma {:induction false} ClosedGrows(journal: seq<Record>, entries: seq<Entry>, firstId: nat, batch: nat)
    ensures Laws.Closed(journal, entries, firstId, batch) == journal + UndoAdded(entries, firstId, batch, Committed)
  {
  }

  lemma {:induction false} UndoKnown(entries: seq<Entry>, live: Live, nextId: nat, status: Status)
    requires Mirror(entries, live) && Below(live, nextId)
    ensures forall j :: 0 <= j < |UndoAdded(entries, nextId, live.batch, status)| ==>
              Known(UndoAdded(entries, nextId, live.batch, status)[j], nextId + |entries|)
  {
    forall i | 0 <= i < |entries| ensures entries[i].target < nextId {
      assert entries[i] == EntryOf(live.edits[i]);
    }
  }

  ghost predicate ForeignIds(a: Live, b: Live) {
    forall i, j :: 0 <= i < |a.edits| && 0 <= j < |b.edits| ==> a.edits[i].id != b.edits[j].id
  }

  /** Undoing one batch undoes nothing of another. */
  lemma {:induction false} UndoSpares(entries: seq<Entry>, live: Live, other: Live, firstId: nat, status: Status)
    requires Mirror(entries, live) && ForeignIds(live, other)
    ensures forall j :: 0 <= j < |UndoAdded(entries, firstId, live.batch, status)| ==>
              Spares(other, UndoAdded(entries, firstId, live.batch, status)[j])
  {
    var added := UndoAdded(entries, firstId, live.batch, status);
    forall j, i | 0 <= j < |added| && 0 <= i < |other.edits|
      ensures !Undoes(added[j], other.edits[i].id)
    {
      var k := if j < |entries| then j else j - |entries|;
      assert entries[k] == EntryOf(live.edits[k]);
    }
  }

  lemma {:induction false} OthersAreForeign(history: seq<Live>, j: nat, k: nat)
    requires AllOrdered(history) && j < |history| && k < |history| && j != k
    ensures ForeignIds(history[j], history[k]) && history[j].batch != history[k].batch
  {
    if j < k { assert Ordered(history[j], history[k]); } else { assert Ordered(history[k], history[j]); }
  }

  lemma {:induction false} DroppedOrdered(history: seq<Live>, k: nat)
    requires AllOrdered(history) && k < |history|
    ensures AllOrdered(Dropped(history, k))
  {
    var rest := Dropped(history, k);
    forall i, j | 0 <= i < j < |rest| ensures Ordered(rest[i], rest[j]) {
      var i', j' := if i < k then i else i + 1, if j < k then j else j + 1;
      assert Ordered(history[i'], history[j']);
    }
  }

  lemma {:induction false} DroppedRecorded(codec: Codec, w: World, now: World, history: seq<Live>, k: nat, entries: seq<Entry>)
    requires AllOrdered(history) && AllRecorded(codec, w, history) && k < |history| && Mirror(entries, history[k])
    requires Grew(w, now, UndoAdded(entries, w.nextId, history[k].batch, Committed))
    ensures AllRecorded(codec, now, Dropped(history, k))
  {
    var rest := Dropped(history, k);
    forall i | 0 <= i < |rest|
      ensures Sensible(rest[i]) && Below(rest[i], now.nextId) && Recorded(codec, now, rest[i])
    {
      var j := if i < k then i else i + 1;
      OthersAreForeign(history, k, j);
      UndoSpares(entries, history[k], history[j], w.nextId, Committed);
      StaysRecorded(codec, w, now, UndoAdded(entries, w.nextId, history[k].batch, Committed), history[j]);
    }
  }

  lemma {:induction false} StillLive(journal: seq<Record>, entries: seq<Entry>, firstId: nat, batch: nat, other: nat)
    requires IsLive(Laws.Closed(journal, entries, firstId, batch), other)
    ensures IsLive(journal, other)
  {
    Laws.ClosedHasSameUpdates(journal, entries, firstId, batch, other);
    forall id | Undone(journal, id) ensures Undone(Laws.Closed(journal, entries, firstId, batch), id) {
      Laws.ClosedUndoes(journal, entries, firstId, batch, id);
    }
  }

  lemma {:induction false} LiveAfterWasLive(codec: Codec, w: World, live: Live, faults: RollbackFaults, batch: nat)
    requires Recorded(codec, w, live) && Rollback(codec, w, live.batch, faults).1.RolledBackBatch?
    requires IsLive(Rollback(codec, w, live.batch, faults).0.journal, batch)
    ensures IsLive(w.journal, batch) && batch != live.batch
  {
    var entries := Laws.EntriesOf(codec, w, live.batch).entries;
    SuccessWorld(codec, w, live, faults);
    ClosedGrows(w.journal, entries, w.nextId, live.batch);
    Laws.MarksUndone(codec, w, live.batch, faults);
    StillLive(w.journal, entries, w.nextId, live.batch, batch);
  }

  lemma {:induction false} DroppedStillLists(history: seq<Live>, k: nat, batch: nat)
    requires k < |history| && Lists(history, batch) && batch != history[k].batch
    ensures Lists(Dropped(history, k), batch)
  {
    var j :| 0 <= j < |history| && history[j].batch == batch;
    assert Dropped(history, k)[if j < k then j else j - 1] == history[j];
  }

  lemma {:induction false} DroppedLists(codec: Codec, w: World, history: seq<Live>, k: nat, faults: RollbackFaults)
    requires Filed(codec, w, history) && OnlyLive(w.journal, history) && k < |history|
    requires Rollback(codec, w, history[k].batch, faults).1.RolledBackBatch?
    ensures OnlyLive(Rollback(codec, w, history[k].batch, faults).0.journal, Dropped(history, k))
  {
    assert Recorded(codec, w, history[k]);
    forall b | IsLive(Rollback(codec, w, history[k].batch, faults).0.journal, b) ensures Lists(Dropped(history, k), b) {
      LiveAfterWasLive(codec, w, history[k], faults, b);
      DroppedStillLists(history, k, b);
    }
  }

  /** Whatever the tree, a rollback that goes through leaves the other batches as recorded. */
  lemma {:induction false} SuccessKeepsFiled(codec: Codec, w: World, history: seq<Live>, k: nat, faults: RollbackFaults)
    requires Filed(codec, w, history) && k < |history|
    requires Rollback(codec, w, history[k].batch, faults).1.RolledBackBatch?
    ensures Filed(codec, Rollback(codec, w, history[k].batch, faults).0, Dropped(history, k))
  {
    var now := Rollback(codec, w, history[k].batch, faults).0;
    var entries := Laws.EntriesOf(codec, w, history[k].batch).entries;
    assert Recorded(codec, w, history[k]) && Below(history[k], w.nextId);
    SuccessWorld(codec, w, history[k], faults);
    Laws.MarksUndone(codec, w, history[k].batch, faults);
    UndoKnown(entries, history[k], w.nextId, Committed);
    FreshAppend(w.journal, UndoAdded(entries, w.nextId, history[k].batch, Committed), w.nextId, now.nextId);
    DroppedOrdered(history, k);
    DroppedRecorded(codec, w, now, history, k, entries);
  }

  /** A rollback that goes through takes a takeable batch out of the history. */
  lemma {:induction false} TakenKeeps(codec: Codec, w: World, init: Tree, history: seq<Live>, k: nat, faults: RollbackFaults)
    requires Inv(codec, w, init, history) && Takeable(init, w.tree, history, k)
    requires Rollback(codec, w, history[k].batch, faults).1.RolledBackBatch?
    ensures Inv(codec, Rollback(codec, w, history[k].batch, faults).0, init, Dropped(history, k))
  {
    SuccessKeepsFiled(codec, w, history, k, faults);
    assert Recorded(codec, w, history[k]) && Sensible(history[k]);
    SuccessTakesBack(codec, w, history[k], faults);
  }

  lemma {:induction false} SuccessKeeps(codec: Codec, w: World, init: Tree, history: seq<Live>, k: nat, faults: RollbackFaults)
    requires Inv(codec, w, init, history) && Topmost(history, k)
    requires Rollback(codec, w, history[k].batch, faults).1.RolledBackBatch?
    ensures Inv(codec, Rollback(codec, w, history[k].batch, faults).0, init, Dropped(history, k))
  {
    TopmostIsTakeable(codec, w, init, history, k);
    TakenKeeps(codec, w, init, history, k, faults);
  }

  // ----- A failed rollback

  /** The journal tells the failure as it is: no undo record is left open, and none is called
      committed. */
  predicate FailureTold(w: World, entries: seq<Entry>, faults: RollbackFaults) {
    !Laws.UndosLeftOpen(w.tree, entries, faults) && !(Laws.UndoReported(w, entries, faults) && faults.commit.ThrowsAfter?)
  }

  /** A rollback that was refused, or failed and is told so by the journal. */
  predicate RollbackMended(codec: Codec, w: World, batch: nat, faults: RollbackFaults) {
    FailsInside(codec, w, batch, faults) ==>
      && Laws.EntriesOf(codec, w, batch).Entries?
      && FailureTold(w, Laws.EntriesOf(codec, w, batch).entries, faults)
  }

  /** What a failed rollback of `entries` wrote. */
  function FailureAdded(outcome: RollbackOutcome, entries: seq<Entry>, firstId: nat, batch: nat): seq<Record> {
    if outcome.NotPrepared? then [] else UndoAdded(entries, firstId, batch, RolledBack)
  }

  lemma {:induction false} FailureWorld(w: World, entries: seq<Entry>, batch: nat, faults: RollbackFaults)
    requires !Revert(w, entries, batch, faults).1.RolledBackBatch? && FailureTold(w, entries, faults)
    ensures var (now, outcome) := Revert(w, entries, batch, faults);
            now == World(w.tree, w.journal + FailureAdded(outcome, entries, w.nextId, batch), w.backups, w.nextId + |entries|)
  {
    Laws.FailedRevertRestores(w, entries, batch, faults);
    var open, final := UndoRecords(entries, w.nextId, Prepared, batch), UndoRecords(entries, w.nextId, RolledBack, batch);
    assert w.journal + open + final == w.journal + (open + final);
    assert w.journal + [] == w.journal;
  }

  lemma {:induction false} FailureSound(journal: seq<Record>, outcome: RollbackOutcome, entries: seq<Entry>, firstId: nat, batch: nat)
    requires !Corrupt(journal)
    ensures !Corrupt(journal + FailureAdded(outcome, entries, firstId, batch))
  {
    var open, final := UndoRecords(entries, firstId, Prepared, batch), UndoRecords(entries, firstId, RolledBack, batch);
    SettlingKeepsSound(journal, open, final);
    assert journal + open + final == journal + (open + final);
    assert journal + [] == journal;
  }

  lemma {:induction false} TargetsKnown(codec: Codec, w: World, batch: nat)
    requires Fresh(w.journal, w.nextId) && Laws.EntriesOf(codec, w, batch).Entries?
    ensures var entries := Laws.EntriesOf(codec, w, batch).entries;
            forall i :: 0 <= i < |entries| ==> entries[i].target < w.nextId
    ensures CommittedUpdates(w.journal, batch) != [] ==> batch < w.nextId
  {
    var updates := CommittedUpdates(w.journal, batch);
    forall i | 0 <= i < |updates| ensures Laws.EntriesOf(codec, w, batch).entries[i].target < w.nextId && batch < w.nextId {
      Laws.ResolvedEntries(codec, w.tree, w.backups, updates, |updates|, i);
      assert updates[i] in w.journal;
    }
    if updates != [] { assert updates[0] in w.journal; }
  }

  lemma {:induction false} RevertFailureKeeps(codec: Codec, w: World, init: Tree, history: seq<Live>, entries: seq<Entry>, batch: nat, faults: RollbackFaults)
    requires Inv(codec, w, init, history) && batch < w.nextId && forall i :: 0 <= i < |entries| ==> entries[i].target < w.nextId
    requires !Revert(w, entries, batch, faults).1.RolledBackBatch? && FailureTold(w, entries, faults)
    ensures Inv(codec, Revert(w, entries, batch, faults).0, init, history)
  {
    var (now, outcome) := Revert(w, entries, batch, faults);
    var added := FailureAdded(outcome, entries, w.nextId, batch);
    FailureWorld(w, entries, batch, faults);
    FailureSound(w.journal, outcome, entries, w.nextId, batch);
    QuietKeepsInv(codec, w, now, added, init, history);
  }

  /** The rollback failed past its checks. */
  predicate FailsInside(codec: Codec, w: World, batch: nat, faults: RollbackFaults) {
    var outcome := Rollback(codec, w, batch, faults).1;
    outcome.NotPrepared? || outcome.Restored? || outcome.RollbackIntegrityError?
  }

  lemma {:induction false} FailsThroughRevert(codec: Codec, w: World, batch: nat, faults: RollbackFaults)
    requires FailsInside(codec, w, batch, faults)
    ensures CommittedUpdates(w.journal, batch) != [] && Laws.EntriesOf(codec, w, batch).Entries?
    ensures Rollback(codec, w, batch, faults) == Revert(w, Laws.EntriesOf(codec, w, batch).entries, batch, faults)
  {
  }

  lemma {:induction false} FailsOutside(codec: Codec, w: World, batch: nat, faults: RollbackFaults)
    requires !Rollback(codec, w, batch, faults).1.RolledBackBatch? && !FailsInside(codec, w, batch, faults)
    ensures Rollback(codec, w, batch, faults).0 == w
  {
  }

  lemma {:induction false} InsideKeeps(codec: Codec, w: World, init: Tree, history: seq<Live>, batch: nat, faults: RollbackFaults)
    requires Inv(codec, w, init, history) && FailsInside(codec, w, batch, faults) && RollbackMended(codec, w, batch, faults)
    ensures Inv(codec, Rollback(codec, w, batch, faults).0, init, history)
  {
    FailsThroughRevert(codec, w, batch, faults);
    TargetsKnown(codec, w, batch);
    RevertFailureKeeps(codec, w, init, history, Laws.EntriesOf(codec, w, batch).entries, batch, faults);
  }

  /** A rollback that does not go through keeps the history. */
  lemma {:induction false} FailedRollbackKeeps(codec: Codec, w: World, init: Tree, history: seq<Live>, batch: nat, faults: RollbackFaults)
    requires Inv(codec, w, init, history)
    requires !Rollback(codec, w, batch, faults).1.RolledBackBatch? && RollbackMended(codec, w, batch, faults)
    ensures Inv(codec, Rollback(codec, w, batch, faults).0, init, history)
  {
    if FailsInside(codec, w, batch, faults) {
      InsideKeeps(codec, w, init, history, batch, faults);
    } else {
      FailsOutside(codec, w, batch, faults);
    }
  }

  lemma {:induction false} RevertFailureLists(w: World, history: seq<Live>, entries: seq<Entry>, batch: nat, faults: RollbackFaults)
    requires OnlyLive(w.journal, history)
    requires !Revert(w, entries, batch, faults).1.RolledBackBatch? && FailureTold(w, entries, faults)
    ensures OnlyLive(Revert(w, entries, batch, faults).0.journal, history)
  {
    FailureWorld(w, entries, batch, faults);
    QuietKeepsLists(w.journal, FailureAdded(Revert(w, entries, batch, faults).1, entries, w.nextId, batch), history);
  }

  lemma {:induction false} FailedRollbackLists(codec: Codec, w: World, history: seq<Live>, batch: nat, faults: RollbackFaults)
    requires OnlyLive(w.journal, history)
    requires !Rollback(codec, w, batch, faults).1.RolledBackBatch? && RollbackMended(codec, w, batch, faults)
    ensures OnlyLive(Rollback(codec, w, batch, faults).0.journal, history)
  {
    if FailsInside(codec, w, batch, faults) {
      FailsThroughRevert(codec, w, batch, faults);
      RevertFailureLists(w, history, Laws.EntriesOf(codec, w, batch).entries, batch, faults);
    } else {
      FailsOutside(codec, w, batch, faults);
    }
  }
}
