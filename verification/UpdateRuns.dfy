/** Runs of applies and rollbacks: what every step keeps, and what unwinding a run restores
    (cli/commands/update.ts:447-764). */
module UpdateRuns {
  import opened Wrappers
  import opened UpdateTree
  import opened UpdateHistory
  import opened UpdateRollback
  import opened UpdateJournal

  // ----- The invariant

  function HashOf(codec: Codec, v: Option<Bytes>): Option<int> {
    match v
    case Some(bytes) => Some(codec.hash(bytes))
    case None => None
  }

  /** A record of `updates` tells what a rollback needs to know about one edit. */
  predicate Tells(codec: Codec, r: Record, e: Edit) {
    && r.Update? && r.id == e.id && r.path == e.path
    && r.afterHash == HashOf(codec, e.after)
    && r.beforeExisted == e.before.Some?
    && (e.after.Some? ==> codec.text(e.after.value) == e.after.value)
  }

  predicate BackedUp(backups: map<nat, Tree>, e: Edit) {
    e.before.Some? ==> e.id in backups && Get(backups[e.id], e.path) == e.before
  }

  predicate Recorded(codec: Codec, w: World, live: Live) {
    var updates := CommittedUpdates(w.journal, live.batch);
    && |updates| == |live.edits| > 0
    && forall i :: 0 <= i < |updates| ==>
         && Tells(codec, updates[i], live.edits[i])
         && BackedUp(w.backups, live.edits[i])
         && !Undone(w.journal, live.edits[i].id)
  }

  predicate IsLive(journal: seq<Record>, batch: nat) {
    var updates := CommittedUpdates(journal, batch);
    updates != [] && !AllUndone(journal, updates)
  }

  predicate Lists(history: seq<Live>, batch: nat) {
    exists k :: 0 <= k < |history| && history[k].batch == batch
  }

  predicate Below(live: Live, nextId: nat) {
    live.batch < nextId && forall i :: 0 <= i < |live.edits| ==> live.edits[i].id < nextId
  }

  /** The older batch has the smaller number, and no edit of the one has the id of an edit of
      the other. */
  ghost predicate Ordered(a: Live, b: Live) {
    a.batch < b.batch && forall i, j :: 0 <= i < |a.edits| && 0 <= j < |b.edits| ==> a.edits[i].id != b.edits[j].id
  }

  ghost predicate AllOrdered(history: seq<Live>) {
    forall j, k :: 0 <= j < k < |history| ==> Ordered(history[j], history[k])
  }

  ghost predicate AllRecorded(codec: Codec, w: World, history: seq<Live>) {
    forall k :: 0 <= k < |history| ==> Sensible(history[k]) && Below(history[k], w.nextId) && Recorded(codec, w, history[k])
  }

  /** No other batch is live. */
  ghost predicate OnlyLive(journal: seq<Record>, history: seq<Live>) {
    forall batch :: IsLive(journal, batch) ==> Lists(history, batch)
  }

  /** The journal can be loaded and tells, together with the backups, how to undo every batch
      of `history`. */
  ghost predicate Filed(codec: Codec, w: World, history: seq<Live>) {
    && !Corrupt(w.journal)
    && Fresh(w.journal, w.nextId)
    && AllOrdered(history)
    && AllRecorded(codec, w, history)
  }

  /** `history` lists live batches in commit order, and undoing them from the newest on leads
      from the tree back to `init`. */
  ghost predicate Inv(codec: Codec, w: World, init: Tree, history: seq<Live>) {
    Chain(init, w.tree, history) && Filed(codec, w, history)
  }

  /** A project whose journal can be loaded. */
  ghost predicate Loadable(w: World) {
    WellFormed(w.tree) && !Corrupt(w.journal) && Fresh(w.journal, w.nextId)
  }

  lemma {:induction false} StartInv(codec: Codec, w: World)
    requires Loadable(w)
    ensures Inv(codec, w, w.tree, [])
  {
  }

  // ----- Ids and records stay known

  lemma {:induction false} FreshAppend(journal: seq<Record>, more: seq<Record>, nextId: nat, later: nat)
    requires Fresh(journal, nextId) && nextId <= later && forall i :: 0 <= i < |more| ==> Known(more[i], later)
    ensures Fresh(journal + more, later)
  {
  }

  lemma {:induction false} FreshIsNotUndone(journal: seq<Record>, nextId: nat, id: nat)
    requires Fresh(journal, nextId) && nextId <= id
    ensures !Undone(journal, id)
  {
  }

  lemma {:induction false} FreshHasNoUpdates(journal: seq<Record>, nextId: nat, batch: nat)
    requires Fresh(journal, nextId) && nextId <= batch
    ensures CommittedUpdates(journal, batch) == []
  {
    NoUpdates(journal, batch);
  }

  /** A world that only grew. */
  ghost predicate Grew(w: World, now: World, added: seq<Record>) {
    && now.journal == w.journal + added
    && w.nextId <= now.nextId
    && forall id :: id in w.backups && id < w.nextId ==> id in now.backups && now.backups[id] == w.backups[id]
  }

  /** Neither an update of the batch nor the undo of one of its edits. */
  predicate Spares(live: Live, r: Record) {
    && !IsUpdateOf(r, live.batch)
    && forall i :: 0 <= i < |live.edits| ==> !Undoes(r, live.edits[i].id)
  }

  lemma {:induction false} StaysRecorded(codec: Codec, w: World, now: World, added: seq<Record>, live: Live)
    requires Grew(w, now, added) && Below(live, w.nextId) && Recorded(codec, w, live)
    requires forall j :: 0 <= j < |added| ==> Spares(live, added[j])
    ensures Below(live, now.nextId) && Recorded(codec, now, live)
  {
    UpdatesUnchanged(w.journal, added, live.batch);
    forall i | 0 <= i < |live.edits|
      ensures BackedUp(now.backups, live.edits[i]) && !Undone(now.journal, live.edits[i].id)
    {
      assert BackedUp(w.backups, live.edits[i]) && !Undone(w.journal, live.edits[i].id);
      UndoneOfAppended(w.journal, added, live.edits[i].id);
    }
  }

  predicate Unremarkable(r: Record) {
    !r.status.Committed?
  }

  lemma {:induction false} QuietKeepsFiled(codec: Codec, w: World, now: World, added: seq<Record>, history: seq<Live>)
    requires Filed(codec, w, history) && Grew(w, now, added)
    requires forall j :: 0 <= j < |added| ==> Unremarkable(added[j]) && Known(added[j], now.nextId)
    requires !Corrupt(now.journal)
    ensures Filed(codec, now, history)
  {
    FreshAppend(w.journal, added, w.nextId, now.nextId);
    forall k | 0 <= k < |history|
      ensures Sensible(history[k]) && Below(history[k], now.nextId) && Recorded(codec, now, history[k])
    {
      StaysRecorded(codec, w, now, added, history[k]);
    }
  }

  /** Records that commit nothing change nothing a rollback looks at. */
  lemma {:induction false} QuietKeepsInv(codec: Codec, w: World, now: World, added: seq<Record>, init: Tree, history: seq<Live>)
    requires Inv(codec, w, init, history) && Grew(w, now, added) && now.tree == w.tree
    requires forall j :: 0 <= j < |added| ==> Unremarkable(added[j]) && Known(added[j], now.nextId)
    requires !Corrupt(now.journal)
    ensures Inv(codec, now, init, history)
  {
    QuietKeepsFiled(codec, w, now, added, history);
  }

  lemma {:induction false} QuietKeepsLists(journal: seq<Record>, added: seq<Record>, history: seq<Live>)
    requires OnlyLive(journal, history) && forall j :: 0 <= j < |added| ==> Unremarkable(added[j])
    ensures OnlyLive(journal + added, history)
  {
    forall batch | IsLive(journal + added, batch) ensures Lists(history, batch) {
      QuietKeepsLive(journal, added, batch);
    }
  }

  lemma {:induction false} QuietKeepsLive(journal: seq<Record>, added: seq<Record>, batch: nat)
    requires forall j :: 0 <= j < |added| ==> Unremarkable(added[j])
    ensures IsLive(journal + added, batch) <==> IsLive(journal, batch)
  {
    UpdatesUnchanged(journal, added, batch);
    forall id ensures Undone(journal + added, id) <==> Undone(journal, id) {
      UndoneOfAppended(journal, added, id);
    }
  }
}
