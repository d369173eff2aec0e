/** How an apply moves a run on: a committed batch becomes the newest live one, a failed
    batch that was restored leaves the history alone. */
module UpdateApplySteps {
  import opened Wrappers
  import opened UpdateTree
  import opened UpdateApply
  import opened UpdateOutcomes
  import opened UpdateHistory
  import opened UpdateRollback
  import opened UpdateJournal
  import opened UpdateRuns

  // ----- What the planner hands over

  /** The planned paths are not nested, only existing files are removed, and what is written
      is text. */
  ghost predicate Fits(codec: Codec, t: Tree, ops: seq<Operation>) {
    && (forall i, j :: 0 <= i < |ops| && 0 <= j < |ops| && i != j ==> Disjoint(ops[i].path, ops[j].path))
    && (forall i :: 0 <= i < |ops| ==> FitsOne(codec, t, ops[i]))
  }

  predicate FitsOne(codec: Codec, t: Tree, op: Operation) {
    match op
    case Create(_, next) => codec.text(next) == next
    case UpdateManaged(_, next) => codec.text(next) == next
    case RemoveStale(p) => p in t
    case _ => false
  }

  lemma {:induction false} StagedIsReady(codec: Codec, t: Tree, ops: seq<Operation>, firstId: nat)
    requires WellFormed(t) && Fits(codec, t, ops)
    ensures Ready(codec, Stage(codec, t, ops, firstId), t)
  {
    var staged := Stage(codec, t, ops, firstId);
    forall i | 0 <= i < |staged|
      ensures IsWritable(staged[i].op) && StillCurrent(codec, staged[i], t)
    {
      assert FitsOne(codec, t, ops[i]);
    }
  }

  function EditOf(t: Tree, s: Staged): Edit {
    Edit(s.id, s.op.path, Get(t, s.op.path), if IsWrite(s.op) then Some(s.op.next) else None)
  }

  function EditsOf(t: Tree, staged: seq<Staged>): (r: seq<Edit>)
    ensures |r| == |staged|
    ensures forall i :: 0 <= i < |r| ==> r[i] == EditOf(t, staged[i])
  {
    seq(|staged|, i requires 0 <= i < |staged| => EditOf(t, staged[i]))
  }

  ghost predicate Planned(codec: Codec, t: Tree, staged: seq<Staged>) {
    Ready(codec, staged, t) && forall i :: 0 <= i < |staged| ==> FitsOne(codec, t, staged[i].op)
  }

  // ----- The tree of a committed batch

  lemma {:induction false} AftersApart(codec: Codec, t: Tree, staged: seq<Staged>)
    requires Planned(codec, t, staged)
    ensures Apart(Afters(EditsOf(t, staged)))
    ensures forall batch :: Sensible(Live(batch, EditsOf(t, staged)))
  {
  }

  lemma {:induction false} CommitAt(codec: Codec, w: World, staged: seq<Staged>, batch: nat, faults: Faults, q: Path)
    requires Planned(codec, w.tree, staged) && Transact(codec, w, staged, batch, faults).1.CommittedBatch?
    ensures Get(Transact(codec, w, staged, batch, faults).0.tree, q) == Get(Overlay(w.tree, Afters(EditsOf(w.tree, staged))), q)
  {
    var changes := Afters(EditsOf(w.tree, staged));
    AftersApart(codec, w.tree, staged);
    if i :| 0 <= i < |staged| && Within(q, staged[i].op.path) {
      CommittedTree(codec, w, staged, batch, faults, q, i);
      ApartFromOthers(staged, i, q);
      if q == staged[i].op.path {
        OverlayHit(w.tree, changes, i);
      } else {
        OverlayMiss(w.tree, changes, q);
        assert FitsOne(codec, w.tree, staged[i].op);
      }
    } else {
      UnstagedUnchanged(codec, w, staged, batch, faults, q);
      WithinSelf(q);
      OverlayMiss(w.tree, changes, q);
    }
  }

  lemma {:induction false} CommitIsOverlay(codec: Codec, w: World, staged: seq<Staged>, batch: nat, faults: Faults)
    requires Planned(codec, w.tree, staged) && Transact(codec, w, staged, batch, faults).1.CommittedBatch?
    ensures Transact(codec, w, staged, batch, faults).0.tree == Overlay(w.tree, Afters(EditsOf(w.tree, staged)))
  {
    var now, expected := Transact(codec, w, staged, batch, faults).0.tree, Overlay(w.tree, Afters(EditsOf(w.tree, staged)));
    forall q ensures Get(now, q) == Get(expected, q) {
      CommitAt(codec, w, staged, batch, faults, q);
    }
    SameTree(now, expected);
  }

  /** Where every write has room, the overlay is a well-formed tree again. */
  lemma {:induction false} OverlayWellFormed(codec: Codec, t: Tree, staged: seq<Staged>)
    requires Planned(codec, t, staged) && forall i :: 0 <= i < |staged| ==> Possible(staged[i].op, t)
    ensures WellFormed(Overlay(t, Afters(EditsOf(t, staged))))
  {
    var changes := Afters(EditsOf(t, staged));
    var now := Overlay(t, changes);
    AftersApart(codec, t, staged);
    forall p, q | p in now && q in now && Within(p, q)
      ensures p == q
    {
      if p != q {
        if p in Paths(changes) {
          RoomAround(codec, t, staged, p, q);
        } else if q in Paths(changes) {
          RoomAround(codec, t, staged, q, p);
        } else {
          OverlayMiss(t, changes, p);
          OverlayMiss(t, changes, q);
        }
      }
    }
  }

  lemma {:induction false} RoomAround(codec: Codec, t: Tree, staged: seq<Staged>, p: Path, q: Path)
    requires Planned(codec, t, staged) && forall i :: 0 <= i < |staged| ==> Possible(staged[i].op, t)
    requires p in Paths(Afters(EditsOf(t, staged))) && p in Overlay(t, Afters(EditsOf(t, staged)))
    requires Comparable(p, q) && p != q
    ensures q !in Overlay(t, Afters(EditsOf(t, staged)))
  {
    var changes := Afters(EditsOf(t, staged));
    var i :| 0 <= i < |changes| && changes[i].path == p;
    AftersApart(codec, t, staged);
    OverlayHit(t, changes, i);
    assert IsWrite(staged[i].op);
    ApartFromOthers(staged, i, q);
    WithinSelf(q);
    OverlayMiss(t, changes, q);
  }

  lemma {:induction false} OverlayUndone(codec: Codec, t: Tree, staged: seq<Staged>, batch: nat)
    requires Planned(codec, t, staged)
    ensures var now, live := Overlay(t, Afters(EditsOf(t, staged))), Live(batch, EditsOf(t, staged));
            Matches(now, live) && Without(now, live) == t
  {
    var edits := EditsOf(t, staged);
    var changes, now, live := Afters(edits), Overlay(t, Afters(edits)), Live(batch, edits);
    AftersApart(codec, t, staged);
    forall i | 0 <= i < |edits| ensures Get(now, edits[i].path) == edits[i].after {
      OverlayHit(t, changes, i);
    }
    forall q ensures Get(Without(now, live), q) == Get(t, q) {
      if i :| 0 <= i < |edits| && edits[i].path == q {
        UndoHit(now, live, i);
      } else {
        UndoMiss(now, live, q);
        OverlayMiss(t, changes, q);
      }
    }
    SameTree(Without(now, live), t);
  }

  // ----- The journal and the backups of a committed batch

  lemma {:induction false} BackUpExtends(staged: seq<Staged>, locked: Tree, backups: map<nat, Tree>, faults: Faults, n: nat, id: nat)
    requires n <= |staged| && forall i :: 0 <= i < n ==> staged[i].id != id
    requires id in backups
    ensures var now := BackUp(staged, locked, backups, faults, n).0;
            id in now && now[id] == backups[id]
  {
    if n > 0 {
      BackUpExtends(staged, locked, backups, faults, n - 1, id);
    }
  }

  function Wrote(records: seq<Record>, fault: Fault): seq<Record> {
    if fault.ThrowsBefore? then [] else records
  }

  lemma {:induction false} AppendWrote(journal: seq<Record>, records: seq<Record>, fault: Fault)
    ensures Append(journal, records, fault).0 == journal + Wrote(records, fault)
  {
  }

  /** What a batch adds to the journal. */
  function Added(codec: Codec, t: Tree, staged: seq<Staged>, batch: nat, faults: Faults): seq<Record> {
    Wrote(Records(codec, staged, Prepared, batch), faults.prepared)
    + (if AtCommit(staged, t, faults) then Wrote(Records(codec, staged, Committed, batch), faults.commit) else [])
    + (if Undisturbed(staged, t, faults) then [] else Wrote(Records(codec, staged, RolledBack, batch), faults.rolledBack))
  }

  lemma Regroup(j: seq<Record>, a: seq<Record>, b: seq<Record>, c: seq<Record>)
    ensures j + a + b + c == j + (a + b + c)
  {
  }

  lemma {:induction false} JournalGrows(codec: Codec, w: World, staged: seq<Staged>, batch: nat, faults: Faults)
    requires StagedApart(staged)
    ensures Transact(codec, w, staged, batch, faults).0.journal == w.journal + Added(codec, w.tree, staged, batch, faults)
  {
    JournalIsWritten(codec, w, staged, batch, faults);
    WrittenIsAdded(codec, w.journal, w.tree, staged, batch, faults);
  }

  lemma {:induction false} WrittenIsAdded(codec: Codec, journal: seq<Record>, t: Tree, staged: seq<Staged>, batch: nat, faults: Faults)
    ensures Written(codec, journal, t, staged, batch, faults) == journal + Added(codec, t, staged, batch, faults)
  {
    var a := Wrote(Records(codec, staged, Prepared, batch), faults.prepared);
    var b := if AtCommit(staged, t, faults) then Wrote(Records(codec, staged, Committed, batch), faults.commit) else [];
    var c := if Undisturbed(staged, t, faults) then [] else Wrote(Records(codec, staged, RolledBack, batch), faults.rolledBack);
    AppendWrote(journal, Records(codec, staged, Prepared, batch), faults.prepared);
    AppendWrote(journal + a, Records(codec, staged, Committed, batch), faults.commit);
    AppendWrote(journal + a + b, Records(codec, staged, RolledBack, batch), faults.rolledBack);
    Regroup(journal, a, b, c);
  }

  /** The ids of the batch were all handed out after `nextId` and before `later`. */
  ghost predicate Between(staged: seq<Staged>, batch: nat, nextId: nat, later: nat) {
    nextId <= batch < later && forall i :: 0 <= i < |staged| ==> nextId <= staged[i].id < later
  }

  lemma {:induction false} RecordsKnown(codec: Codec, staged: seq<Staged>, status: Status, batch: nat, nextId: nat, later: nat)
    requires Between(staged, batch, nextId, later)
    ensures forall j :: 0 <= j < |staged| ==> Known(Records(codec, staged, status, batch)[j], later)
  {
  }

  predicate AllKnown(more: seq<Record>, nextId: nat) {
    forall j :: 0 <= j < |more| ==> Known(more[j], nextId)
  }

  lemma {:induction false} AddedKnown(codec: Codec, t: Tree, staged: seq<Staged>, batch: nat, nextId: nat, later: nat, faults: Faults)
    requires Between(staged, batch, nextId, later)
    ensures AllKnown(Added(codec, t, staged, batch, faults), later)
  {
    RecordsKnown(codec, staged, Prepared, batch, nextId, later);
    RecordsKnown(codec, staged, Committed, batch, nextId, later);
    RecordsKnown(codec, staged, RolledBack, batch, nextId, later);
  }

  lemma {:induction false} BackupsKept(codec: Codec, w: World, staged: seq<Staged>, batch: nat, nextId: nat, faults: Faults, id: nat)
    requires Between(staged, batch, nextId, w.nextId) && id in w.backups && id < nextId
    ensures var now := Transact(codec, w, staged, batch, faults).0.backups;
            id in now && now[id] == w.backups[id]
  {
    BackUpExtends(staged, w.tree, w.backups, faults, |staged|, id);
  }

  lemma {:induction false} TransactGrows(codec: Codec, w: World, staged: seq<Staged>, batch: nat, nextId: nat, faults: Faults)
    requires StagedApart(staged) && Between(staged, batch, nextId, w.nextId)
    ensures Transact(codec, w, staged, batch, faults).0.nextId == w.nextId
    ensures Grew(w.(nextId := nextId), Transact(codec, w, staged, batch, faults).0, Added(codec, w.tree, staged, batch, faults))
  {
    JournalGrows(codec, w, staged, batch, faults);
    var now := Transact(codec, w, staged, batch, faults).0;
    forall id | id in w.backups && id < nextId ensures id in now.backups && now.backups[id] == w.backups[id] {
      BackupsKept(codec, w, staged, batch, nextId, faults, id);
    }
  }

  // ----- One batch and the invariant

  /** The try block starts in `w`, which is `w0` with the ids of the batch handed out. */
  ghost predicate Starts(codec: Codec, w0: World, w: World, staged: seq<Staged>, batch: nat) {
    && w == w0.(nextId := w.nextId)
    && Between(staged, batch, w0.nextId, w.nextId)
    && Planned(codec, w.tree, staged)
    && |staged| > 0
  }

  lemma {:induction false} CommitAdds(codec: Codec, w: World, staged: seq<Staged>, batch: nat, faults: Faults)
    requires StagedApart(staged) && Transact(codec, w, staged, batch, faults).1.CommittedBatch?
    ensures Added(codec, w.tree, staged, batch, faults)
         == Records(codec, staged, Prepared, batch) + Records(codec, staged, Committed, batch)
  {
    CommitsIff(codec, w, staged, batch, faults);
  }

  lemma {:induction false} CommitSound(codec: Codec, journal: seq<Record>, staged: seq<Staged>, batch: nat)
    requires !Corrupt(journal)
    ensures !Corrupt(journal + (Records(codec, staged, Prepared, batch) + Records(codec, staged, Committed, batch)))
  {
    var open, final := Records(codec, staged, Prepared, batch), Records(codec, staged, Committed, batch);
    SettlingKeepsSound(journal, open, final);
    assert journal + open + final == journal + (open + final);
  }

  lemma {:induction false} NoUndoAdded(journal: seq<Record>, added: seq<Record>, id: nat)
    requires forall j :: 0 <= j < |added| ==> added[j].Update?
    ensures Undone(journal + added, id) <==> Undone(journal, id)
  {
    UndoneOfAppended(journal, added, id);
  }

  lemma {:induction false} AddedAreUpdates(codec: Codec, t: Tree, staged: seq<Staged>, batch: nat, faults: Faults)
    ensures forall j :: 0 <= j < |Added(codec, t, staged, batch, faults)| ==>
              var r := Added(codec, t, staged, batch, faults)[j]; r.Update? && r.batch == batch
  {
  }

  /** A batch that gets as far as its commit has a backup of every file it found. */
  lemma {:induction false} CommitBacksUp(codec: Codec, w: World, staged: seq<Staged>, batch: nat, faults: Faults, i: nat)
    requires StagedApart(staged) && i < |staged| && AtCommit(staged, w.tree, faults)
    requires AllCurrent(codec, staged, w.tree)
    ensures BackedUp(Transact(codec, w, staged, batch, faults).0.backups, EditOf(w.tree, staged[i]))
  {
    CommitBackups(codec, w, staged, batch, faults);
    BackUpKeeps(staged, w.tree, w.backups, faults, |staged|);
    assert StillCurrent(codec, staged[i], w.tree);
    WithinSelf(staged[i].op.path);
  }

  lemma {:induction false} CommitBackups(codec: Codec, w: World, staged: seq<Staged>, batch: nat, faults: Faults)
    requires AtCommit(staged, w.tree, faults)
    ensures BackUp(staged, w.tree, w.backups, faults, |staged|).1
    ensures Transact(codec, w, staged, batch, faults).0.backups == BackUp(staged, w.tree, w.backups, faults, |staged|).0
  {
    BackUpOkIff(staged, w.tree, w.backups, faults, |staged|);
  }

  lemma {:induction false} UpdatesOfBatch(codec: Codec, journal: seq<Record>, nextId: nat, t: Tree, staged: seq<Staged>, batch: nat, faults: Faults)
    requires Fresh(journal, nextId) && nextId <= batch
    ensures CommittedUpdates(journal + Added(codec, t, staged, batch, faults), batch) == CommittedRecords(codec, t, staged, batch, faults)
  {
    FreshHasNoUpdates(journal, nextId, batch);
    UpdatesOfAppended(journal, Added(codec, t, staged, batch, faults), batch);
    UpdatesAdded(codec, t, staged, batch, faults);
    assert [] + CommittedRecords(codec, t, staged, batch, faults) == CommittedRecords(codec, t, staged, batch, faults);
  }

  /** A batch whose committed records reached the file is recorded like a committed one. */
  lemma {:induction false} ReportedRecorded(codec: Codec, w0: World, w: World, staged: seq<Staged>, batch: nat, faults: Faults)
    requires Starts(codec, w0, w, staged, batch) && Fresh(w0.journal, w0.nextId)
    requires AtCommit(staged, w.tree, faults) && !faults.commit.ThrowsBefore?
    ensures Recorded(codec, Transact(codec, w, staged, batch, faults).0, Live(batch, EditsOf(w.tree, staged)))
  {
    var now, edits, added := Transact(codec, w, staged, batch, faults).0, EditsOf(w.tree, staged), Added(codec, w.tree, staged, batch, faults);
    JournalGrows(codec, w, staged, batch, faults);
    UpdatesOfBatch(codec, w.journal, w0.nextId, w.tree, staged, batch, faults);
    AddedAreUpdates(codec, w.tree, staged, batch, faults);
    forall i | 0 <= i < |staged|
      ensures Tells(codec, Records(codec, staged, Committed, batch)[i], edits[i])
      ensures BackedUp(now.backups, edits[i]) && !Undone(now.journal, edits[i].id)
    {
      CommitBacksUp(codec, w, staged, batch, faults, i);
      NoUndoAdded(w.journal, added, edits[i].id);
      FreshIsNotUndone(w0.journal, w0.nextId, edits[i].id);
      RecordTells(codec, w.tree, staged[i], batch);
    }
  }

  lemma {:induction false} CommitRecorded(codec: Codec, w0: World, w: World, staged: seq<Staged>, batch: nat, faults: Faults)
    requires Starts(codec, w0, w, staged, batch) && Fresh(w0.journal, w0.nextId)
    requires Transact(codec, w, staged, batch, faults).1.CommittedBatch?
    ensures Recorded(codec, Transact(codec, w, staged, batch, faults).0, Live(batch, EditsOf(w.tree, staged)))
  {
    CommitsIff(codec, w, staged, batch, faults);
    ReportedRecorded(codec, w0, w, staged, batch, faults);
  }

  lemma {:induction false} RecordTells(codec: Codec, t: Tree, s: Staged, batch: nat)
    requires StillCurrent(codec, s, t) && FitsOne(codec, t, s.op) && Possible(s.op, t)
    ensures Tells(codec, RecordOf(codec, s, Committed, batch), EditOf(t, s))
  {
    WithinSelf(s.op.path);
  }

  lemma {:induction false} CommitChain(codec: Codec, w: World, staged: seq<Staged>, batch: nat, faults: Faults, init: Tree, history: seq<Live>)
    requires Planned(codec, w.tree, staged) && Chain(init, w.tree, history)
    requires Transact(codec, w, staged, batch, faults).1.CommittedBatch?
    ensures Chain(init, Transact(codec, w, staged, batch, faults).0.tree, history + [Live(batch, EditsOf(w.tree, staged))])
  {
    var live := Live(batch, EditsOf(w.tree, staged));
    CommitsIff(codec, w, staged, batch, faults);
    CommitIsOverlay(codec, w, staged, batch, faults);
    OverlayWellFormed(codec, w.tree, staged);
    OverlayUndone(codec, w.tree, staged, batch);
    assert (history + [live])[..|history + [live]| - 1] == history;
  }

  /** The older batches are untouched by the records of a new one. */
  lemma {:induction false} OthersStay(codec: Codec, w0: World, w: World, staged: seq<Staged>, batch: nat, faults: Faults, init: Tree, history: seq<Live>)
    requires Starts(codec, w0, w, staged, batch) && Inv(codec, w0, init, history)
    ensures AllRecorded(codec, Transact(codec, w, staged, batch, faults).0, history)
  {
    var now, added := Transact(codec, w, staged, batch, faults).0, Added(codec, w.tree, staged, batch, faults);
    TransactGrows(codec, w, staged, batch, w0.nextId, faults);
    AddedAreUpdates(codec, w.tree, staged, batch, faults);
    forall k | 0 <= k < |history|
      ensures Sensible(history[k]) && Below(history[k], now.nextId) && Recorded(codec, now, history[k])
    {
      StaysRecorded(codec, w0, now, added, history[k]);
    }
  }

  lemma {:induction false} CommitLists(codec: Codec, w0: World, w: World, staged: seq<Staged>, batch: nat, faults: Faults, history: seq<Live>)
    requires Starts(codec, w0, w, staged, batch) && OnlyLive(w0.journal, history)
    ensures OnlyLive(Transact(codec, w, staged, batch, faults).0.journal, history + [Live(batch, EditsOf(w.tree, staged))])
  {
    var now, added := Transact(codec, w, staged, batch, faults).0, Added(codec, w.tree, staged, batch, faults);
    var all := history + [Live(batch, EditsOf(w.tree, staged))];
    JournalGrows(codec, w, staged, batch, faults);
    AddedAreUpdates(codec, w.tree, staged, batch, faults);
    forall b | IsLive(now.journal, b) ensures Lists(all, b) {
      if b == batch {
        assert all[|history|].batch == b;
      } else {
        OtherBatchLive(w.journal, added, batch, b);
        var k :| 0 <= k < |history| && history[k].batch == b;
        assert all[k].batch == b;
      }
    }
  }

  lemma {:induction false} OtherBatchLive(journal: seq<Record>, added: seq<Record>, batch: nat, other: nat)
    requires (forall j :: 0 <= j < |added| ==> added[j].Update? && added[j].batch == batch) && other != batch
    ensures IsLive(journal + added, other) <==> IsLive(journal, other)
  {
    UpdatesUnchanged(journal, added, other);
    forall id ensures Undone(journal + added, id) <==> Undone(journal, id) {
      NoUndoAdded(journal, added, id);
    }
  }

  lemma {:induction false} CommitJournal(codec: Codec, w0: World, w: World, staged: seq<Staged>, batch: nat, faults: Faults)
    requires Starts(codec, w0, w, staged, batch) && Fresh(w0.journal, w0.nextId) && !Corrupt(w0.journal)
    requires Transact(codec, w, staged, batch, faults).1.CommittedBatch?
    ensures var now := Transact(codec, w, staged, batch, faults).0;
            now.nextId == w.nextId && Fresh(now.journal, w.nextId) && !Corrupt(now.journal)
  {
    TransactGrows(codec, w, staged, batch, w0.nextId, faults);
    AddedKnown(codec, w.tree, staged, batch, w0.nextId, w.nextId, faults);
    FreshAppend(w0.journal, Added(codec, w.tree, staged, batch, faults), w0.nextId, w.nextId);
    CommitAdds(codec, w, staged, batch, faults);
    CommitSound(codec, w.journal, staged, batch);
  }

  lemma {:induction false} CommitIsListed(codec: Codec, w0: World, w: World, staged: seq<Staged>, batch: nat, faults: Faults, init: Tree, history: seq<Live>)
    requires Starts(codec, w0, w, staged, batch) && Inv(codec, w0, init, history)
    requires Transact(codec, w, staged, batch, faults).1.CommittedBatch?
    ensures var all, now := history + [Live(batch, EditsOf(w.tree, staged))], Transact(codec, w, staged, batch, faults).0;
            AllOrdered(all) && AllRecorded(codec, now, all)
  {
    OthersStay(codec, w0, w, staged, batch, faults, init, history);
    CommitRecorded(codec, w0, w, staged, batch, faults);
    AftersApart(codec, w.tree, staged);
    CommitJournal(codec, w0, w, staged, batch, faults);
    NewIsOrdered(w0.nextId, history, Live(batch, EditsOf(w.tree, staged)));
  }

  lemma {:induction false} CommitKeeps(codec: Codec, w0: World, w: World, staged: seq<Staged>, batch: nat, faults: Faults, init: Tree, history: seq<Live>)
    requires Starts(codec, w0, w, staged, batch) && Inv(codec, w0, init, history)
    requires Transact(codec, w, staged, batch, faults).1.CommittedBatch?
    ensures Inv(codec, Transact(codec, w, staged, batch, faults).0, init, history + [Live(batch, EditsOf(w.tree, staged))])
  {
    CommitChain(codec, w, staged, batch, faults, init, history);
    CommitJournal(codec, w0, w, staged, batch, faults);
    CommitIsListed(codec, w0, w, staged, batch, faults, init, history);
  }

  lemma {:induction false} NewIsOrdered(nextId: nat, history: seq<Live>, live: Live)
    requires AllOrdered(history) && forall k :: 0 <= k < |history| ==> Below(history[k], nextId)
    requires nextId <= live.batch && forall i :: 0 <= i < |live.edits| ==> nextId <= live.edits[i].id
    ensures AllOrdered(history + [live])
  {
    var all := history + [live];
    forall j, k | 0 <= j < k < |all| ensures Ordered(all[j], all[k]) {
      assert Below(history[j], nextId);
      if k < |history| { assert Ordered(history[j], history[k]); }
    }
  }

  // ----- A failed batch

  /** The journal tells the failure as it is: no record is left open, and none calls the batch
      committed. */
  predicate Journaled(staged: seq<Staged>, t: Tree, faults: Faults) {
    !LeavesOpen(staged, t, faults) && !(AtCommit(staged, t, faults) && faults.commit.ThrowsAfter?)
  }

  function FailureRecords(codec: Codec, staged: seq<Staged>, batch: nat, faults: Faults): seq<Record> {
    Wrote(Records(codec, staged, Prepared, batch), faults.prepared) + Wrote(Records(codec, staged, RolledBack, batch), faults.rolledBack)
  }

  lemma {:induction false} FailureAdds(codec: Codec, w: World, staged: seq<Staged>, batch: nat, faults: Faults)
    requires StagedApart(staged) && !Transact(codec, w, staged, batch, faults).1.CommittedBatch? && Journaled(staged, w.tree, faults)
    ensures Added(codec, w.tree, staged, batch, faults) == FailureRecords(codec, staged, batch, faults)
  {
    CommitsIff(codec, w, staged, batch, faults);
  }

  lemma {:induction false} FailedApplyKeeps(codec: Codec, w0: World, w: World, staged: seq<Staged>, batch: nat, faults: Faults, init: Tree, history: seq<Live>)
    requires Starts(codec, w0, w, staged, batch) && Inv(codec, w0, init, history)
    requires !Transact(codec, w, staged, batch, faults).1.CommittedBatch?
    requires Journaled(staged, w.tree, faults) && Recoverable(staged, w.tree, w.backups, faults)
    ensures Inv(codec, Transact(codec, w, staged, batch, faults).0, init, history)
  {
    var now, added := Transact(codec, w, staged, batch, faults).0, Added(codec, w.tree, staged, batch, faults);
    FailureRestoresIff(codec, w, staged, batch, faults);
    TransactGrows(codec, w, staged, batch, w0.nextId, faults);
    AddedKnown(codec, w.tree, staged, batch, w0.nextId, w.nextId, faults);
    FailureAdds(codec, w, staged, batch, faults);
    CorruptsIff(codec, w0, w, staged, batch, faults);
    FailureIsQuiet(codec, staged, batch, faults);
    QuietKeepsInv(codec, w0, now, added, init, history);
  }

  lemma {:induction false} FailureIsQuiet(codec: Codec, staged: seq<Staged>, batch: nat, faults: Faults)
    ensures var added := FailureRecords(codec, staged, batch, faults);
            forall j :: 0 <= j < |added| ==> Unremarkable(added[j])
  {
  }

  // ----- A whole apply

  /** A batch that failed was undone and is told so by the journal. */
  predicate Mended(outcome: Outcome, staged: seq<Staged>, t: Tree, backups: map<nat, Tree>, faults: Faults) {
    outcome.RestoredBatch? || outcome.IntegrityError? ==> Journaled(staged, t, faults) && Recoverable(staged, t, backups, faults)
  }

  function Extended(outcome: Outcome, history: seq<Live>, live: Live): seq<Live> {
    if outcome.CommittedBatch? then history + [live] else history
  }

  lemma {:induction false} TransactOutcome(codec: Codec, w: World, staged: seq<Staged>, batch: nat, faults: Faults)
    ensures var outcome := Transact(codec, w, staged, batch, faults).1;
            outcome.CommittedBatch? || outcome.RestoredBatch? || outcome.IntegrityError?
  {
  }

  lemma {:induction false} TransactKeeps(codec: Codec, w0: World, w: World, staged: seq<Staged>, batch: nat, faults: Faults, init: Tree, history: seq<Live>)
    requires Starts(codec, w0, w, staged, batch) && Inv(codec, w0, init, history)
    requires Mended(Transact(codec, w, staged, batch, faults).1, staged, w.tree, w.backups, faults)
    ensures var (now, outcome) := Transact(codec, w, staged, batch, faults);
            Inv(codec, now, init, Extended(outcome, history, Live(batch, EditsOf(w.tree, staged))))
  {
    TransactOutcome(codec, w, staged, batch, faults);
    if Transact(codec, w, staged, batch, faults).1.CommittedBatch? {
      CommitKeeps(codec, w0, w, staged, batch, faults, init, history);
    } else {
      FailedApplyKeeps(codec, w0, w, staged, batch, faults, init, history);
    }
  }

  /** The batch of the operations `ops`, staged on `w`. */
  function StagedOf(codec: Codec, w: World, ops: seq<Operation>): seq<Staged> {
    Stage(codec, w.tree, ops, w.nextId + 1)
  }

  function LiveOf(codec: Codec, w: World, ops: seq<Operation>): Live {
    Live(w.nextId, EditsOf(w.tree, StagedOf(codec, w, ops)))
  }

  lemma {:induction false} StagedRuns(codec: Codec, w: World, ops: seq<Operation>, faults: Faults)
    requires WellFormed(w.tree) && Fits(codec, w.tree, ops) && |ops| > 0
    ensures Starts(codec, w, w.(nextId := w.nextId + 1 + |ops|), StagedOf(codec, w, ops), w.nextId)
    ensures ApplyWritable(codec, w, ops, w.tree, faults)
         == Transact(codec, w.(nextId := w.nextId + 1 + |ops|), StagedOf(codec, w, ops), w.nextId, faults)
  {
    StagedIsReady(codec, w.tree, ops, w.nextId + 1);
  }

  lemma {:induction false} ChainWellFormed(init: Tree, t: Tree, history: seq<Live>)
    requires Chain(init, t, history)
    ensures WellFormed(t)
  {
  }

  lemma {:induction false} StagedKeeps(codec: Codec, w: World, ops: seq<Operation>, faults: Faults, init: Tree, history: seq<Live>)
    requires Inv(codec, w, init, history) && Fits(codec, w.tree, ops) && |ops| > 0
    requires Mended(ApplyWritable(codec, w, ops, w.tree, faults).1, StagedOf(codec, w, ops), w.tree, w.backups, faults)
    ensures var (now, outcome) := ApplyWritable(codec, w, ops, w.tree, faults);
            Inv(codec, now, init, Extended(outcome, history, LiveOf(codec, w, ops)))
  {
    ChainWellFormed(init, w.tree, history);
    StagedRuns(codec, w, ops, faults);
    TransactKeeps(codec, w, w.(nextId := w.nextId + 1 + |ops|), StagedOf(codec, w, ops), w.nextId, faults, init, history);
  }

  lemma {:induction false} NothingKeeps(codec: Codec, w: World, nextId: nat, init: Tree, history: seq<Live>)
    requires Inv(codec, w, init, history) && w.nextId <= nextId
    ensures Inv(codec, w.(nextId := nextId), init, history)
  {
    assert w.journal == w.journal + [];
    QuietKeepsInv(codec, w, w.(nextId := nextId), [], init, history);
  }

  /** An apply whose plan fits the tree and which, if it fails, is mended. */
  ghost predicate ApplyAllowed(codec: Codec, w: World, plan: seq<Operation>, faults: Faults) {
    && Fits(codec, w.tree, Writable(plan))
    && Mended(Apply(codec, w, plan, w.tree, faults).1, StagedOf(codec, w, Writable(plan)), w.tree, w.backups, faults)
  }

  lemma {:induction false} ApplyCases(codec: Codec, w: World, plan: seq<Operation>, faults: Faults)
    ensures var (now, outcome) := Apply(codec, w, plan, w.tree, faults);
            || (!outcome.CommittedBatch? && w.nextId <= now.nextId && now == w.(nextId := now.nextId))
            || (|Writable(plan)| > 0 && (now, outcome) == ApplyWritable(codec, w, Writable(plan), w.tree, faults))
  {
  }

  lemma {:induction false} ApplyKeeps(codec: Codec, w: World, plan: seq<Operation>, faults: Faults, init: Tree, history: seq<Live>)
    requires Inv(codec, w, init, history) && ApplyAllowed(codec, w, plan, faults)
    ensures var (now, outcome) := Apply(codec, w, plan, w.tree, faults);
            Inv(codec, now, init, Extended(outcome, history, LiveOf(codec, w, Writable(plan))))
  {
    ApplyCases(codec, w, plan, faults);
    var (now, outcome) := Apply(codec, w, plan, w.tree, faults);
    if |Writable(plan)| > 0 && (now, outcome) == ApplyWritable(codec, w, Writable(plan), w.tree, faults) {
      StagedKeeps(codec, w, Writable(plan), faults, init, history);
    } else {
      NothingKeeps(codec, w, now.nextId, init, history);
    }
  }

  // ----- The other batches

  lemma {:induction false} FailedApplyLists(codec: Codec, w: World, staged: seq<Staged>, batch: nat, faults: Faults, history: seq<Live>)
    requires StagedApart(staged) && OnlyLive(w.journal, history)
    requires !Transact(codec, w, staged, batch, faults).1.CommittedBatch? && Journaled(staged, w.tree, faults)
    ensures OnlyLive(Transact(codec, w, staged, batch, faults).0.journal, history)
  {
    JournalGrows(codec, w, staged, batch, faults);
    FailureAdds(codec, w, staged, batch, faults);
    FailureIsQuiet(codec, staged, batch, faults);
    QuietKeepsLists(w.journal, FailureRecords(codec, staged, batch, faults), history);
  }

  lemma {:induction false} TransactLists(codec: Codec, w0: World, w: World, staged: seq<Staged>, batch: nat, faults: Faults, history: seq<Live>)
    requires Starts(codec, w0, w, staged, batch) && OnlyLive(w0.journal, history)
    requires Mended(Transact(codec, w, staged, batch, faults).1, staged, w.tree, w.backups, faults)
    ensures var (now, outcome) := Transact(codec, w, staged, batch, faults);
            OnlyLive(now.journal, Extended(outcome, history, Live(batch, EditsOf(w.tree, staged))))
  {
    TransactOutcome(codec, w, staged, batch, faults);
    if Transact(codec, w, staged, batch, faults).1.CommittedBatch? {
      CommitLists(codec, w0, w, staged, batch, faults, history);
    } else {
      FailedApplyLists(codec, w, staged, batch, faults, history);
    }
  }

  lemma {:induction false} StagedLists(codec: Codec, w: World, ops: seq<Operation>, faults: Faults, history: seq<Live>)
    requires WellFormed(w.tree) && OnlyLive(w.journal, history) && Fits(codec, w.tree, ops) && |ops| > 0
    requires Mended(ApplyWritable(codec, w, ops, w.tree, faults).1, StagedOf(codec, w, ops), w.tree, w.backups, faults)
    ensures var (now, outcome) := ApplyWritable(codec, w, ops, w.tree, faults);
            OnlyLive(now.journal, Extended(outcome, history, LiveOf(codec, w, ops)))
  {
    StagedRuns(codec, w, ops, faults);
    TransactLists(codec, w, w.(nextId := w.nextId + 1 + |ops|), StagedOf(codec, w, ops), w.nextId, faults, history);
  }

  lemma {:induction false} ApplyLists(codec: Codec, w: World, plan: seq<Operation>, faults: Faults, history: seq<Live>)
    requires WellFormed(w.tree) && OnlyLive(w.journal, history) && ApplyAllowed(codec, w, plan, faults)
    ensures var (now, outcome) := Apply(codec, w, plan, w.tree, faults);
            OnlyLive(now.journal, Extended(outcome, history, LiveOf(codec, w, Writable(plan))))
  {
    ApplyCases(codec, w, plan, faults);
    var (now, outcome) := Apply(codec, w, plan, w.tree, faults);
    if |Writable(plan)| > 0 && (now, outcome) == ApplyWritable(codec, w, Writable(plan), w.tree, faults) {
      StagedLists(codec, w, Writable(plan), faults, history);
    }
  }

  // ----- What the journal says of a batch that failed

  lemma {:induction false} UpdatesInTheMiddle(a: seq<Record>, b: seq<Record>, c: seq<Record>, batch: nat)
    requires forall i :: 0 <= i < |a| ==> !IsUpdateOf(a[i], batch)
    requires forall i :: 0 <= i < |b| ==> IsUpdateOf(b[i], batch)
    requires forall i :: 0 <= i < |c| ==> !IsUpdateOf(c[i], batch)
    ensures CommittedUpdates(a + b + c, batch) == b
  {
    UpdatesOfAppended(a + b, c, batch);
    UpdatesOfAppended(a, b, batch);
    NoUpdates(a, batch);
    OnlyUpdates(b, batch);
    NoUpdates(c, batch);
  }

  /** The committed records of a batch that reached the file. */
  function CommittedRecords(codec: Codec, t: Tree, staged: seq<Staged>, batch: nat, faults: Faults): seq<Record> {
    if AtCommit(staged, t, faults) then Wrote(Records(codec, staged, Committed, batch), faults.commit) else []
  }

  lemma {:induction false} UpdatesAdded(codec: Codec, t: Tree, staged: seq<Staged>, batch: nat, faults: Faults)
    ensures CommittedUpdates(Added(codec, t, staged, batch, faults), batch) == CommittedRecords(codec, t, staged, batch, faults)
  {
    var a := Wrote(Records(codec, staged, Prepared, batch), faults.prepared);
    var b := CommittedRecords(codec, t, staged, batch, faults);
    var c := if Undisturbed(staged, t, faults) then [] else Wrote(Records(codec, staged, RolledBack, batch), faults.rolledBack);
    UpdatesInTheMiddle(a, b, c, batch);
  }

  lemma {:induction false} LiveIfReported(journal: seq<Record>, updates: seq<Record>, batch: nat)
    requires CommittedUpdates(journal, batch) == updates && forall i :: 0 <= i < |updates| ==> !Undone(journal, updates[i].id)
    ensures IsLive(journal, batch) <==> |updates| > 0
  {
    if |updates| > 0 { assert !Undone(journal, updates[0].id); }
  }

  /** A batch counts as committed exactly when its committed records reached the file, even
      if the append then threw and the tree was put back. */
  lemma {:induction false} LiveIff(codec: Codec, w0: World, w: World, staged: seq<Staged>, batch: nat, faults: Faults)
    requires Starts(codec, w0, w, staged, batch) && Fresh(w0.journal, w0.nextId)
    ensures IsLive(Transact(codec, w, staged, batch, faults).0.journal, batch)
        <==> AtCommit(staged, w.tree, faults) && !faults.commit.ThrowsBefore?
  {
    JournalGrows(codec, w, staged, batch, faults);
    AddedIsLive(codec, w0, w.tree, staged, batch, faults);
  }

  lemma {:induction false} AddedIsLive(codec: Codec, w0: World, t: Tree, staged: seq<Staged>, batch: nat, faults: Faults)
    requires Fresh(w0.journal, w0.nextId) && |staged| > 0 && w0.nextId <= batch
    requires forall i :: 0 <= i < |staged| ==> w0.nextId <= staged[i].id
    ensures IsLive(w0.journal + Added(codec, t, staged, batch, faults), batch) <==> |CommittedRecords(codec, t, staged, batch, faults)| > 0
  {
    var added, updates := Added(codec, t, staged, batch, faults), CommittedRecords(codec, t, staged, batch, faults);
    UpdatesOfBatch(codec, w0.journal, w0.nextId, t, staged, batch, faults);
    AddedAreUpdates(codec, t, staged, batch, faults);
    forall i | 0 <= i < |updates| ensures !Undone(w0.journal + added, updates[i].id) {
      NoUndoAdded(w0.journal, added, updates[i].id);
      FreshIsNotUndone(w0.journal, w0.nextId, updates[i].id);
    }
    LiveIfReported(w0.journal + added, updates, batch);
  }

  /** The prepared records were written and nothing after them. */
  predicate LeavesOpen(staged: seq<Staged>, t: Tree, faults: Faults) {
    && !faults.prepared.ThrowsBefore?
    && !(AtCommit(staged, t, faults) && !faults.commit.ThrowsBefore?)
    && faults.rolledBack.ThrowsBefore?
  }

  /** An apply makes the journal unreadable exactly in that case. */
  lemma {:induction false} CorruptsIff(codec: Codec, w0: World, w: World, staged: seq<Staged>, batch: nat, faults: Faults)
    requires Starts(codec, w0, w, staged, batch) && Fresh(w0.journal, w0.nextId) && !Corrupt(w0.journal)
    ensures Corrupt(Transact(codec, w, staged, batch, faults).0.journal) <==> LeavesOpen(staged, w.tree, faults)
  {
    JournalIsWritten(codec, w, staged, batch, faults);
    WrittenCorruptsIff(codec, w.journal, w.tree, staged, batch, w0.nextId, faults);
  }

  lemma {:induction false} WrittenCorruptsIff(codec: Codec, journal: seq<Record>, t: Tree, staged: seq<Staged>, batch: nat, nextId: nat, faults: Faults)
    requires Fresh(journal, nextId) && !Corrupt(journal) && |staged| > 0 && forall i :: 0 <= i < |staged| ==> nextId <= staged[i].id
    ensures Corrupt(Written(codec, journal, t, staged, batch, faults)) <==> LeavesOpen(staged, t, faults)
  {
    var open, final, undone := Records(codec, staged, Prepared, batch), Records(codec, staged, Committed, batch), Records(codec, staged, RolledBack, batch);
    OpenCorrupts(journal, open, nextId);
    SettlingKeepsSound(journal, open, final);
    SettlingKeepsSound(journal, open, undone);
    FinalKeepsSound(journal, final);
    FinalKeepsSound(journal, undone);
    FinalKeepsSound(journal + final, undone);
    FinalKeepsSound(journal + open + final, undone);
  }

  // ----- The tree after an apply

  /** A committed apply leaves exactly what was planned and nothing else changed; any other
      leaves the tree as it was exactly when the entries it applied are recoverable. */
  lemma {:induction false} ApplyAllOrNothing(codec: Codec, w: World, plan: seq<Operation>, faults: Faults)
    requires WellFormed(w.tree) && Fits(codec, w.tree, Writable(plan))
    ensures var (now, outcome) := Apply(codec, w, plan, w.tree, faults);
            var staged := StagedOf(codec, w, Writable(plan));
            if outcome.CommittedBatch? then now.tree == Overlay(w.tree, Afters(EditsOf(w.tree, staged)))
            else now.tree == w.tree <==>
                   (outcome.RestoredBatch? || outcome.IntegrityError? ==> Recoverable(staged, w.tree, w.backups, faults))
  {
    if !HasConflict(plan) && |Writable(plan)| > 0 {
      StagedAllOrNothing(codec, w, Writable(plan), faults);
    }
  }

  lemma {:induction false} StagedAllOrNothing(codec: Codec, w: World, ops: seq<Operation>, faults: Faults)
    requires WellFormed(w.tree) && Fits(codec, w.tree, ops) && |ops| > 0
    ensures var (now, outcome) := ApplyWritable(codec, w, ops, w.tree, faults);
            var staged := StagedOf(codec, w, ops);
            if outcome.CommittedBatch? then now.tree == Overlay(w.tree, Afters(EditsOf(w.tree, staged)))
            else (outcome.RestoredBatch? || outcome.IntegrityError?) && (now.tree == w.tree <==> Recoverable(staged, w.tree, w.backups, faults))
  {
    var w1 := w.(nextId := w.nextId + 1 + |ops|);
    var staged := StagedOf(codec, w, ops);
    StagedRuns(codec, w, ops, faults);
    TransactOutcome(codec, w1, staged, w.nextId, faults);
    if Transact(codec, w1, staged, w.nextId, faults).1.CommittedBatch? {
      CommitIsOverlay(codec, w1, staged, w.nextId, faults);
    } else {
      FailureRestoresIff(codec, w1, staged, w.nextId, faults);
    }
  }
}
