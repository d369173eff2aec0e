/** What a rollback out of order does to the rest of a run, and what the failures do that the
    journal tells wrongly (cli/commands/update.ts:447-764). */
module UpdateStranding {
  import opened Wrappers
  import opened UpdateTree
  import opened UpdateHistory
  import opened UpdateRollback
  import opened UpdateJournal
  import opened UpdateRuns
  import opened UpdateRollbackSteps
  import opened UpdateUnwinding
  import Laws = UpdateRollbackLaws

  // ----- Batches that cannot be rolled back

  /** The tree keeps the rollback of edit `f` from going through: what is at its own path has
      drifted, or a file stands at the comparable path `p` where `f` has to put one back. */
  predicate Spoiled(codec: Codec, t: Tree, f: Edit, p: Path) {
    if f.path == p then TextHash(codec, Get(t, p)) != HashOf(codec, f.after)
    else Comparable(f.path, p) && f.before.Some? && p in t
  }

  lemma {:induction false} SpoiledFails(codec: Codec, w: World, live: Live, j: nat, p: Path, faults: RollbackFaults)
    requires Recorded(codec, w, live) && Sensible(live) && j < |live.edits| && Spoiled(codec, w.tree, live.edits[j], p)
    ensures !Rollback(codec, w, live.batch, faults).1.RolledBackBatch?
  {
    if Rollback(codec, w, live.batch, faults).1.RolledBackBatch? {
      PassedDrift(codec, w, live, faults, j);
      RoomWasThere(codec, w, live, j, faults);
      assert false;
    }
  }

  /** A rollback that goes through found room for every file. */
  lemma {:induction false} RoomWasThere(codec: Codec, w: World, live: Live, j: nat, faults: RollbackFaults)
    requires Recorded(codec, w, live) && Sensible(live) && j < |live.edits|
    requires Rollback(codec, w, live.batch, faults).1.RolledBackBatch?
    ensures live.edits[j].before.Some? ==> CanWrite(w.tree, live.edits[j].path)
  {
    EntriesMirror(codec, w, live, faults);
    Laws.SucceedsIff(codec, w, live.batch, faults);
    assert Laws.EntriesOf(codec, w, live.batch).entries[j] == EntryOf(live.edits[j]);
  }

  /** What a rollback that goes through puts at the paths of the batch. */
  lemma {:induction false} SuccessPutsBefore(codec: Codec, w: World, live: Live, faults: RollbackFaults, i: nat)
    requires Recorded(codec, w, live) && Sensible(live) && i < |live.edits|
    requires Rollback(codec, w, live.batch, faults).1.RolledBackBatch?
    ensures Get(Rollback(codec, w, live.batch, faults).0.tree, live.edits[i].path) == live.edits[i].before
  {
    var entries := Laws.EntriesOf(codec, w, live.batch).entries;
    SuccessWorld(codec, w, live, faults);
    WithinSelf(entries[i].path);
    Laws.RevertedAt(w.tree, entries, faults, |entries|, entries[i].path, i);
  }

  /** A rollback that goes through leaves a path alone that the batch does not come near. */
  lemma {:induction false} SuccessLeavesFar(codec: Codec, w: World, live: Live, faults: RollbackFaults, p: Path)
    requires Recorded(codec, w, live) && Rollback(codec, w, live.batch, faults).1.RolledBackBatch? && !Near(p, live)
    ensures Get(Rollback(codec, w, live.batch, faults).0.tree, p) == Get(w.tree, p)
  {
    var entries := Laws.EntriesOf(codec, w, live.batch).entries;
    SuccessWorld(codec, w, live, faults);
    forall i | 0 <= i < |entries| ensures !Within(p, entries[i].path) {
      assert entries[i] == EntryOf(live.edits[i]);
      NotNear(p, live, i);
    }
    Laws.RevertAllOutside(w.tree, entries, faults, |entries|, p);
  }

  // ----- Unwinding with a stranded batch

  lemma {:induction false} NewestDropped(codec: Codec, w: World, history: seq<Live>, faults: RollbackFaults)
    requires Filed(codec, w, history) && |history| > 0
    requires Rollback(codec, w, history[|history| - 1].batch, faults).1.RolledBackBatch?
    ensures Filed(codec, Rollback(codec, w, history[|history| - 1].batch, faults).0, history[..|history| - 1])
  {
    NewestIsTopmost(history);
    SuccessKeepsFiled(codec, w, history, |history| - 1, faults);
  }

  /** No batch after the `m`-th comes near `p`. */
  ghost predicate FarAfter(history: seq<Live>, m: nat, p: Path) {
    forall k :: m < k < |history| ==> !Near(p, history[k])
  }

  /** A spoiled batch stops the unwinding, at the latest where its turn comes. */
  lemma {:induction false} StrandedUnwind(codec: Codec, w: World, history: seq<Live>, m: nat, j: nat, p: Path, faults: RollbackFaults)
    requires Filed(codec, w, history) && m < |history| && FarAfter(history, m, p)
    requires j < |history[m].edits| && Spoiled(codec, w.tree, history[m].edits[j], p)
    ensures !Unwind(codec, w, history, faults).1
    decreases |history|
  {
    var now, stopped := StrandedStep(codec, w, history, m, j, p, faults);
    if !stopped {
      StrandedUnwind(codec, now, history[..|history| - 1], m, j, p, faults);
    }
  }

  lemma {:induction false} StrandedStep(codec: Codec, w: World, history: seq<Live>, m: nat, j: nat, p: Path, faults: RollbackFaults)
    returns (now: World, stopped: bool)
    requires Filed(codec, w, history) && m < |history| && FarAfter(history, m, p)
    requires j < |history[m].edits| && Spoiled(codec, w.tree, history[m].edits[j], p)
    ensures stopped ==> !Unwind(codec, w, history, faults).1
    ensures !stopped ==>
              && m < |history| - 1 && Filed(codec, now, history[..|history| - 1]) && Get(now.tree, p) == Get(w.tree, p)
              && Unwind(codec, w, history, faults) == Unwind(codec, now, history[..|history| - 1], faults)
  {
    now := Rollback(codec, w, history[|history| - 1].batch, faults).0;
    stopped := !Rollback(codec, w, history[|history| - 1].batch, faults).1.RolledBackBatch?;
    UnwindStep(codec, w, history, faults);
    if !stopped {
      NotTheSpoiled(codec, w, history, m, j, p, faults);
      FarStep(codec, w, history, p, faults);
    }
  }

  lemma {:induction false} NotTheSpoiled(codec: Codec, w: World, history: seq<Live>, m: nat, j: nat, p: Path, faults: RollbackFaults)
    requires Filed(codec, w, history) && m < |history| && j < |history[m].edits| && Spoiled(codec, w.tree, history[m].edits[j], p)
    requires Rollback(codec, w, history[|history| - 1].batch, faults).1.RolledBackBatch?
    ensures m < |history| - 1
  {
    NewestRecorded(codec, w, history);
    if m == |history| - 1 { SpoiledFails(codec, w, history[m], j, p, faults); }
  }

  lemma {:induction false} ChainAt(init: Tree, u: Tree, history: seq<Live>, m: nat)
    requires Chain(init, u, history) && m < |history|
    ensures Chain(init, u, history[..m] + [history[m]] + history[m + 1..])
  {
    assert history == history[..m] + [history[m]] + history[m + 1..];
  }

  lemma {:induction false} FiledAt(codec: Codec, w: World, history: seq<Live>, m: nat)
    requires Filed(codec, w, history) && m < |history|
    ensures Recorded(codec, w, history[m]) && Sensible(history[m])
  {
  }

  lemma {:induction false} NewestRecorded(codec: Codec, w: World, history: seq<Live>)
    requires Filed(codec, w, history) && |history| > 0
    ensures Recorded(codec, w, history[|history| - 1]) && Sensible(history[|history| - 1])
  {
  }

  lemma {:induction false} FarStep(codec: Codec, w: World, history: seq<Live>, p: Path, faults: RollbackFaults)
    requires Filed(codec, w, history) && |history| > 0 && !Near(p, history[|history| - 1])
    requires Rollback(codec, w, history[|history| - 1].batch, faults).1.RolledBackBatch?
    ensures var now := Rollback(codec, w, history[|history| - 1].batch, faults).0;
            && Filed(codec, now, history[..|history| - 1]) && Get(now.tree, p) == Get(w.tree, p)
            && Unwind(codec, w, history, faults) == Unwind(codec, now, history[..|history| - 1], faults)
  {
    NewestRecorded(codec, w, history);
    NewestDropped(codec, w, history, faults);
    SuccessLeavesFar(codec, w, history[|history| - 1], faults, p);
    UnwindStep(codec, w, history, faults);
  }

  lemma {:induction false} UnwindLeavesFar(codec: Codec, w: World, history: seq<Live>, p: Path, faults: RollbackFaults)
    requires Filed(codec, w, history) && AllFar(history, p) && Unwind(codec, w, history, faults).1
    ensures Get(Unwind(codec, w, history, faults).0.tree, p) == Get(w.tree, p)
    decreases |history|
  {
    if history != [] {
      FarStep(codec, w, history, p, faults);
      UnwindLeavesFar(codec, Rollback(codec, w, history[|history| - 1].batch, faults).0, history[..|history| - 1], p, faults);
    }
  }

  // ----- A tree that differs from the chain at one path

  /** `v` holds something else at `p` than the chain through `u` does, and holds a file there
      only where `u` has room for one. */
  predicate OffTrack(codec: Codec, u: Tree, v: Tree, p: Path) {
    && TextHash(codec, Get(v, p)) != TextHash(codec, Get(u, p))
    && (p in v ==> CanWrite(u, p))
  }

  lemma {:induction false} OffTrackSpoils(codec: Codec, w: World, init: Tree, u: Tree, earlier: seq<Live>, a: Live, later: seq<Live>, j: nat, p: Path, v: Tree)
    requires Chain(init, u, earlier + [a] + later) && AllFar(later, p) && Sensible(a) && Recorded(codec, w, a)
    requires j < |a.edits| && Comparable(a.edits[j].path, p) && OffTrack(codec, u, v, p)
    ensures Spoiled(codec, v, a.edits[j], p)
  {
    var f := a.edits[j];
    var level := Level(init, u, earlier, a, later, p);
    WithinSelf(p);
    assert Get(level, f.path) == f.after && Get(level, p) == Get(u, p) && Get(level, f.path) == Get(u, f.path);
    assert Tells(codec, CommittedUpdates(w.journal, a.batch)[j], f);
    if f.path != p {
      NestedSpoils(codec, u, level, a, j, p, v);
    }
  }

  lemma {:induction false} NestedSpoils(codec: Codec, u: Tree, level: Tree, a: Live, j: nat, p: Path, v: Tree)
    requires Sensible(a) && j < |a.edits| && Comparable(a.edits[j].path, p) && a.edits[j].path != p && OffTrack(codec, u, v, p)
    requires WellFormed(level) && Matches(level, a) && WellFormed(Without(level, a))
    requires Get(level, p) == Get(u, p) && Get(level, a.edits[j].path) == Get(u, a.edits[j].path)
    ensures a.edits[j].before.Some? && p in v
  {
    var f := a.edits[j];
    assert Get(level, f.path) == f.after;
    UndoHit(level, a, j);
    ComparableIsNotOwn(a, j, p);
    UndoMiss(level, a, p);
  }

  lemma {:induction false} OffTrackStops(codec: Codec, w: World, init: Tree, u: Tree, history: seq<Live>, m: nat, p: Path, faults: RollbackFaults)
    requires Filed(codec, w, history) && Chain(init, u, history) && OffTrack(codec, u, w.tree, p)
    requires m < |history| && Near(p, history[m]) && AllFar(history[m + 1..], p)
    ensures !Unwind(codec, w, history, faults).1
  {
    var j :| 0 <= j < |history[m].edits| && Comparable(history[m].edits[j].path, p);
    OffTrackSpoilsIn(codec, w, init, u, history, m, j, p, w.tree);
    FarFromTail(history, m, p);
    StrandedUnwind(codec, w, history, m, j, p, faults);
  }

  lemma {:induction false} OffTrackSpoilsIn(codec: Codec, w: World, init: Tree, u: Tree, history: seq<Live>, m: nat, j: nat, p: Path, v: Tree)
    requires Filed(codec, w, history) && Chain(init, u, history) && OffTrack(codec, u, v, p)
    requires m < |history| && j < |history[m].edits| && Comparable(history[m].edits[j].path, p) && AllFar(history[m + 1..], p)
    ensures Spoiled(codec, v, history[m].edits[j], p)
  {
    ChainAt(init, u, history, m);
    FiledAt(codec, w, history, m);
    OffTrackSpoils(codec, w, init, u, history[..m], history[m], history[m + 1..], j, p, v);
  }

  /** From such a tree the chain cannot be unwound to its start. */
  lemma {:induction false} OffTrackNeverArrives(codec: Codec, w: World, init: Tree, u: Tree, history: seq<Live>, p: Path, faults: RollbackFaults)
    requires Filed(codec, w, history) && Chain(init, u, history) && OffTrack(codec, u, w.tree, p)
    ensures var (last, ok) := Unwind(codec, w, history, faults); !(ok && last.tree == init)
    ensures NearAny(p, history) ==> !Unwind(codec, w, history, faults).1
  {
    if NearAny(p, history) {
      var m := LastNear(history, p);
      OffTrackStops(codec, w, init, u, history, m, p, faults);
    } else {
      ChainKeeps(init, u, history, p);
      if Unwind(codec, w, history, faults).1 { UnwindLeavesFar(codec, w, history, p, faults); }
    }
  }

  // ----- Rolling back out of order

  lemma {:induction false} OutOfOrderOffTrack(codec: Codec, w: World, history: seq<Live>, k: nat, i: nat, faults: RollbackFaults)
    requires Filed(codec, w, history) && k < |history| && i < |history[k].edits|
    requires history[k].edits[i].before != history[k].edits[i].after
    requires Rollback(codec, w, history[k].batch, faults).1.RolledBackBatch? && DigestTells(codec, w.tree, history[k])
    ensures OffTrack(codec, w.tree, Rollback(codec, w, history[k].batch, faults).0.tree, history[k].edits[i].path)
  {
    var live := history[k];
    assert Recorded(codec, w, live) && Sensible(live);
    PassedDrift(codec, w, live, faults, i);
    SuccessPutsBefore(codec, w, live, faults, i);
    RoomWasThere(codec, w, live, i, faults);
  }

  lemma {:induction false} DroppedFar(history: seq<Live>, k: nat, m: nat, p: Path)
    requires k < m < |history| && AllFar(history[m + 1..], p)
    ensures Dropped(history, k)[m - 1] == history[m] && FarAfter(Dropped(history, k), m - 1, p)
  {
    forall l | m - 1 < l < |Dropped(history, k)| ensures !Near(p, Dropped(history, k)[l]) {
      assert Dropped(history, k)[l] == history[l + 1] == history[m + 1..][l - m];
    }
  }

  lemma {:induction false} NewestNear(history: seq<Live>, k: nat, p: Path) returns (m: nat, j: nat)
    requires k < |history| && NearAny(p, history[k + 1..])
    ensures k < m < |history| && j < |history[m].edits| && Comparable(history[m].edits[j].path, p)
    ensures AllFar(history[m + 1..], p) && FarAfter(history, m, p)
  {
    var last := LastNear(history[k + 1..], p);
    m := k + 1 + last;
    assert history[k + 1..][last + 1..] == history[m + 1..];
    j :| 0 <= j < |history[m].edits| && Comparable(history[m].edits[j].path, p);
    FarFromTail(history, m, p);
  }

  lemma {:induction false} FarFromTail(history: seq<Live>, m: nat, p: Path)
    requires m < |history| && AllFar(history[m + 1..], p)
    ensures FarAfter(history, m, p)
  {
    forall k | m < k < |history| ensures !Near(p, history[k]) {
      assert history[m + 1..][k - m - 1] == history[k];
    }
  }

  /** If the batch had changed a path that a later live one came near, the newest of those is
      stranded, and the unwinding stops there. */
  lemma {:induction false} OutOfOrderStrands(codec: Codec, w: World, init: Tree, history: seq<Live>, k: nat, i: nat, faults: RollbackFaults, again: RollbackFaults)
    returns (m: nat)
    requires Inv(codec, w, init, history) && k < |history| && i < |history[k].edits|
    requires NearAny(history[k].edits[i].path, history[k + 1..]) && history[k].edits[i].before != history[k].edits[i].after
    requires Rollback(codec, w, history[k].batch, faults).1.RolledBackBatch? && DigestTells(codec, w.tree, history[k])
    ensures var now := Rollback(codec, w, history[k].batch, faults).0;
            && k < m < |history| && Near(history[k].edits[i].path, history[m]) && FarAfter(history, m, history[k].edits[i].path)
            && !Rollback(codec, now, history[m].batch, again).1.RolledBackBatch?
            && !Unwind(codec, now, Dropped(history, k), again).1
  {
    var p := history[k].edits[i].path;
    var j;
    m, j := NewestNear(history, k, p);
    OutOfOrderOffTrack(codec, w, history, k, i, faults);
    OffTrackSpoilsIn(codec, w, init, w.tree, history, m, j, p, Rollback(codec, w, history[k].batch, faults).0.tree);
    SuccessKeepsFiled(codec, w, history, k, faults);
    StrandedAfter(codec, Rollback(codec, w, history[k].batch, faults).0, history, k, m, j, p, again);
  }

  lemma {:induction false} StrandedAfter(codec: Codec, now: World, history: seq<Live>, k: nat, m: nat, j: nat, p: Path, again: RollbackFaults)
    requires k < m < |history| && j < |history[m].edits| && AllFar(history[m + 1..], p)
    requires Filed(codec, now, Dropped(history, k)) && Spoiled(codec, now.tree, history[m].edits[j], p)
    ensures !Rollback(codec, now, history[m].batch, again).1.RolledBackBatch? && !Unwind(codec, now, Dropped(history, k), again).1
  {
    DroppedFar(history, k, m, p);
    StrandedNow(codec, now, Dropped(history, k), m - 1, j, p, again);
  }

  lemma {:induction false} StrandedNow(codec: Codec, w: World, history: seq<Live>, m: nat, j: nat, p: Path, faults: RollbackFaults)
    requires Filed(codec, w, history) && m < |history| && FarAfter(history, m, p)
    requires j < |history[m].edits| && Spoiled(codec, w.tree, history[m].edits[j], p)
    ensures !Rollback(codec, w, history[m].batch, faults).1.RolledBackBatch? && !Unwind(codec, w, history, faults).1
  {
    assert Recorded(codec, w, history[m]) && Sensible(history[m]);
    SpoiledFails(codec, w, history[m], j, p, faults);
    StrandedUnwind(codec, w, history, m, j, p, faults);
  }

  lemma {:induction false} HarmlessUnwinds(codec: Codec, w: World, init: Tree, history: seq<Live>, k: nat, faults: RollbackFaults, calm: RollbackFaults)
    requires Inv(codec, w, init, history) && k < |history| && Harmless(history[k], history[k + 1..]) && Calm(calm)
    requires Rollback(codec, w, history[k].batch, faults).1.RolledBackBatch? && DigestTells(codec, w.tree, history[k])
    ensures var (last, ok) := Unwind(codec, Rollback(codec, w, history[k].batch, faults).0, Dropped(history, k), calm);
            ok && last.tree == init
  {
    HarmlessIsTakeable(codec, w, init, history, k, faults);
    TakenKeeps(codec, w, init, history, k, faults);
    UnwindRestores(codec, Rollback(codec, w, history[k].batch, faults).0, init, Dropped(history, k), calm);
  }

  /** After a rollback of any live batch that goes through, the remaining ones can be unwound,
      and then to the first tree, exactly when the batch changed nothing where a later live
      one came near; a path above or below one of its own counts as near. */
  lemma {:induction false} OutOfOrderIff(codec: Codec, w: World, init: Tree, history: seq<Live>, k: nat, faults: RollbackFaults, calm: RollbackFaults)
    requires Inv(codec, w, init, history) && k < |history| && Calm(calm)
    requires Rollback(codec, w, history[k].batch, faults).1.RolledBackBatch? && DigestTells(codec, w.tree, history[k])
    ensures var (last, ok) := Unwind(codec, Rollback(codec, w, history[k].batch, faults).0, Dropped(history, k), calm);
            (ok <==> Harmless(history[k], history[k + 1..])) && (ok ==> last.tree == init)
  {
    if Harmless(history[k], history[k + 1..]) {
      HarmlessUnwinds(codec, w, init, history, k, faults, calm);
    } else {
      var i :| 0 <= i < |history[k].edits| && NearAny(history[k].edits[i].path, history[k + 1..])
               && history[k].edits[i].before != history[k].edits[i].after;
      var m := OutOfOrderStrands(codec, w, init, history, k, i, faults, calm);
    }
  }

  // ----- A rollback that was put back and yet counts

  lemma {:induction false} MatchingRollsBack(codec: Codec, w: World, live: Live, faults: RollbackFaults)
    requires Recorded(codec, w, live) && Sensible(live) && !Corrupt(w.journal) && Matches(w.tree, live)
    requires WellFormed(w.tree) && WellFormed(Without(w.tree, live)) && Calm(faults)
    ensures Rollback(codec, w, live.batch, faults).1.RolledBackBatch?
    ensures Rollback(codec, w, live.batch, faults).0.tree == Without(w.tree, live)
  {
    MatchingSucceeds(codec, w, live, faults);
    SuccessTakesBack(codec, w, live, faults);
  }

  lemma {:induction false} ArriveStep(codec: Codec, w: World, history: seq<Live>, faults: RollbackFaults) returns (now: World)
    requires Filed(codec, w, history) && |history| > 0 && Calm(faults)
    requires WellFormed(w.tree) && Matches(w.tree, history[|history| - 1]) && WellFormed(Without(w.tree, history[|history| - 1]))
    ensures Filed(codec, now, history[..|history| - 1]) && now.tree == Without(w.tree, history[|history| - 1])
    ensures Unwind(codec, w, history, faults) == Unwind(codec, now, history[..|history| - 1], faults)
  {
    var c := history[|history| - 1];
    now := Rollback(codec, w, c.batch, faults).0;
    NewestRecorded(codec, w, history);
    MatchingRollsBack(codec, w, c, faults);
    NewestDropped(codec, w, history, faults);
    UnwindStep(codec, w, history, faults);
  }

  lemma {:induction false} ChainHead(init: Tree, t: Tree, history: seq<Live>)
    requires Chain(init, t, history) && |history| > 0
    ensures var c := history[|history| - 1];
            WellFormed(t) && Matches(t, c) && WellFormed(Without(t, c)) && Chain(init, Without(t, c), history[..|history| - 1])
  {
  }

  lemma {:induction false} UnwindArrives(codec: Codec, w: World, init: Tree, history: seq<Live>, faults: RollbackFaults)
    requires Filed(codec, w, history) && Chain(init, w.tree, history) && Calm(faults)
    ensures var (last, ok) := Unwind(codec, w, history, faults); ok && last.tree == init
    decreases |history|
  {
    if |history| > 0 {
      ChainHead(init, w.tree, history);
      var now := ArriveStep(codec, w, history, faults);
      UnwindArrives(codec, now, init, history[..|history| - 1], faults);
    }
  }

  predicate Unchanging(b: Live) {
    forall i :: 0 <= i < |b.edits| ==> b.edits[i].before == b.edits[i].after
  }

  /** The digest tells what the batch wrote from what it found. */
  predicate Discernible(codec: Codec, b: Live) {
    forall i :: 0 <= i < |b.edits| ==>
      (TextHash(codec, b.edits[i].before) == HashOf(codec, b.edits[i].after) ==> b.edits[i].before == b.edits[i].after)
  }

  predicate WritesText(codec: Codec, b: Live) {
    forall i :: 0 <= i < |b.edits| ==> TextHash(codec, b.edits[i].after) == HashOf(codec, b.edits[i].after)
  }

  lemma {:induction false} RecordedWritesText(codec: Codec, w: World, b: Live)
    requires Recorded(codec, w, b)
    ensures WritesText(codec, b)
  {
    forall i | 0 <= i < |b.edits| ensures TextHash(codec, b.edits[i].after) == HashOf(codec, b.edits[i].after) {
      assert Tells(codec, CommittedUpdates(w.journal, b.batch)[i], b.edits[i]);
    }
  }

  lemma {:induction false} UnchangingIsNothing(t: Tree, b: Live)
    requires Sensible(b) && Matches(t, b) && Unchanging(b)
    ensures Without(t, b) == t
  {
    forall q ensures Get(Without(t, b), q) == Get(t, q) {
      if j :| 0 <= j < |b.edits| && b.edits[j].path == q { UndoHit(t, b, j); } else { UndoMiss(t, b, q); }
    }
    SameTree(Without(t, b), t);
  }

  lemma {:induction false} StillThereOffTrack(codec: Codec, t: Tree, b: Live, i: nat)
    requires Sensible(b) && Discernible(codec, b) && WritesText(codec, b) && WellFormed(t) && Matches(t, b)
    requires i < |b.edits| && b.edits[i].before != b.edits[i].after
    ensures OffTrack(codec, Without(t, b), t, b.edits[i].path)
  {
    var p, u := b.edits[i].path, Without(t, b);
    UndoHit(t, b, i);
    if p in t {
      forall q | q in u && (Within(q, p) || Within(p, q)) ensures q == p {
        if q != p {
          ComparableIsNotOwn(b, i, q);
          UndoMiss(t, b, q);
        }
      }
    }
  }

  /** Unwinding the other batches of a chain while `b` still stands. */
  lemma {:induction false} UnwindAround(codec: Codec, w: World, init: Tree, earlier: seq<Live>, b: Live, later: seq<Live>, faults: RollbackFaults)
    requires Filed(codec, w, earlier + later) && Chain(init, w.tree, earlier + [b] + later)
    requires Sensible(b) && Discernible(codec, b) && WritesText(codec, b) && Calm(faults)
    ensures var (last, ok) := Unwind(codec, w, earlier + later, faults);
            ok && last.tree == init <==> Unchanging(b)
    decreases |later|
  {
    if later == [] {
      DropLast(earlier, b, []);
      ChainHead(init, w.tree, earlier + [b] + []);
      assert earlier + later == earlier;
      UnwindBelow(codec, w, init, earlier, b, faults);
    } else {
      var now := AroundStep(codec, w, init, earlier, b, later, faults);
      UnwindAround(codec, now, init, earlier, b, later[..|later| - 1], faults);
    }
  }

  lemma {:induction false} AroundStep(codec: Codec, w: World, init: Tree, earlier: seq<Live>, b: Live, later: seq<Live>, faults: RollbackFaults)
    returns (now: World)
    requires Filed(codec, w, earlier + later) && Chain(init, w.tree, earlier + [b] + later) && |later| > 0 && Calm(faults)
    ensures Filed(codec, now, earlier + later[..|later| - 1]) && Chain(init, now.tree, earlier + [b] + later[..|later| - 1])
    ensures Unwind(codec, w, earlier + later, faults) == Unwind(codec, now, earlier + later[..|later| - 1], faults)
  {
    DropLast(earlier, b, later);
    ChainHead(init, w.tree, earlier + [b] + later);
    assert (earlier + later)[..|earlier + later| - 1] == earlier + later[..|later| - 1];
    now := ArriveStep(codec, w, earlier + later, faults);
  }

  lemma {:induction false} UnwindBelow(codec: Codec, w: World, init: Tree, earlier: seq<Live>, b: Live, faults: RollbackFaults)
    requires Filed(codec, w, earlier) && WellFormed(w.tree) && Matches(w.tree, b) && Chain(init, Without(w.tree, b), earlier)
    requires Sensible(b) && Discernible(codec, b) && WritesText(codec, b) && Calm(faults)
    ensures var (last, ok) := Unwind(codec, w, earlier, faults);
            ok && last.tree == init <==> Unchanging(b)
  {
    if Unchanging(b) {
      UnchangingIsNothing(w.tree, b);
      UnwindArrives(codec, w, init, earlier, faults);
    } else {
      var i :| 0 <= i < |b.edits| && b.edits[i].before != b.edits[i].after;
      StillThereOffTrack(codec, w.tree, b, i);
      OffTrackNeverArrives(codec, w, init, Without(w.tree, b), earlier, b.edits[i].path, faults);
    }
  }

  /** The rollback of `batch` wrote its committed undo records, threw, and was put back. */
  predicate HalfUndone(codec: Codec, w: World, batch: nat, faults: RollbackFaults) {
    && Laws.EntriesOf(codec, w, batch).Entries?
    && !SnapshotBreaks(w.tree, Laws.EntriesOf(codec, w, batch).entries, faults)
    && Laws.UndoReported(w, Laws.EntriesOf(codec, w, batch).entries, faults) && faults.commit.ThrowsAfter?
  }

  lemma {:induction false} HalfUndoneFiled(codec: Codec, w: World, history: seq<Live>, k: nat, faults: RollbackFaults)
    requires Filed(codec, w, history) && k < |history| && HalfUndone(codec, w, history[k].batch, faults)
    ensures var now := Rollback(codec, w, history[k].batch, faults).0;
            now.tree == w.tree && Filed(codec, now, Dropped(history, k))
  {
    var live, entries := history[k], Laws.EntriesOf(codec, w, history[k].batch).entries;
    assert Recorded(codec, w, live) && Below(live, w.nextId);
    LiveIsLive(codec, w, live);
    MirrorIfResolved(codec, w, live);
    HalfUndoneThroughRevert(codec, w, live.batch, faults);
    Laws.HalfUndoneWrites(w, entries, live.batch, faults);
    var mid := World(w.tree, Laws.Closed(w.journal, entries, w.nextId, live.batch), w.backups, w.nextId + |entries|);
    ClosedFiled(codec, w, mid, history, k, entries);
    HalfUndoneRest(codec, mid, Rollback(codec, w, live.batch, faults).0, Dropped(history, k), entries, w.nextId, live.batch);
  }

  lemma {:induction false} HalfUndoneThroughRevert(codec: Codec, w: World, batch: nat, faults: RollbackFaults)
    requires !Corrupt(w.journal) && IsLive(w.journal, batch) && HalfUndone(codec, w, batch, faults)
    ensures Rollback(codec, w, batch, faults) == Revert(w, Laws.EntriesOf(codec, w, batch).entries, batch, faults)
  {
  }

  lemma {:induction false} ClosedFiled(codec: Codec, w: World, mid: World, history: seq<Live>, k: nat, entries: seq<Entry>)
    requires Filed(codec, w, history) && k < |history| && Mirror(entries, history[k])
    requires mid == World(w.tree, Laws.Closed(w.journal, entries, w.nextId, history[k].batch), w.backups, w.nextId + |entries|)
    ensures Filed(codec, mid, Dropped(history, k))
  {
    var added := UndoAdded(entries, w.nextId, history[k].batch, Committed);
    assert Below(history[k], w.nextId);
    ClosedGrows(w.journal, entries, w.nextId, history[k].batch);
    Laws.ClosedIsSound(w.journal, entries, w.nextId, history[k].batch);
    UndoKnown(entries, history[k], w.nextId, Committed);
    FreshAppend(w.journal, added, w.nextId, mid.nextId);
    DroppedOrdered(history, k);
    DroppedRecorded(codec, w, mid, history, k, entries);
  }

  lemma {:induction false} HalfUndoneRest(codec: Codec, mid: World, now: World, rest: seq<Live>, entries: seq<Entry>, firstId: nat, batch: nat)
    requires Filed(codec, mid, rest) && mid.nextId == firstId + |entries| && batch < mid.nextId
    requires forall i :: 0 <= i < |entries| ==> entries[i].target < mid.nextId
    requires now == mid || now == mid.(journal := mid.journal + UndoRecords(entries, firstId, RolledBack, batch))
    ensures Filed(codec, now, rest)
  {
    if now != mid {
      var more := UndoRecords(entries, firstId, RolledBack, batch);
      FinalKeepsSound(mid.journal, more);
      QuietKeepsFiled(codec, mid, now, more, rest);
    }
  }

  /** After such a rollback the batch counts as undone although it stands; the live ones that
      are left can then be unwound to the first tree exactly when it had changed nothing. */
  lemma {:induction false} HalfUndoneIff(codec: Codec, w: World, init: Tree, history: seq<Live>, k: nat, faults: RollbackFaults, calm: RollbackFaults)
    requires Inv(codec, w, init, history) && k < |history| && HalfUndone(codec, w, history[k].batch, faults)
    requires Discernible(codec, history[k]) && Calm(calm)
    ensures var now := Rollback(codec, w, history[k].batch, faults).0;
            var (last, ok) := Unwind(codec, now, Dropped(history, k), calm);
            ok && last.tree == init <==> Unchanging(history[k])
  {
    HalfUndoneFiled(codec, w, history, k, faults);
    assert Sensible(history[k]) && Recorded(codec, w, history[k]);
    RecordedWritesText(codec, w, history[k]);
    UnwindDropped(codec, Rollback(codec, w, history[k].batch, faults).0, init, history, k, calm);
  }

  lemma {:induction false} UnwindDropped(codec: Codec, w: World, init: Tree, history: seq<Live>, k: nat, faults: RollbackFaults)
    requires k < |history| && Filed(codec, w, Dropped(history, k)) && Chain(init, w.tree, history)
    requires Sensible(history[k]) && Discernible(codec, history[k]) && WritesText(codec, history[k]) && Calm(faults)
    ensures var (last, ok) := Unwind(codec, w, Dropped(history, k), faults);
            ok && last.tree == init <==> Unchanging(history[k])
  {
    assert history == history[..k] + [history[k]] + history[k + 1..];
    UnwindAround(codec, w, init, history[..k], history[k], history[k + 1..], faults);
  }
}
