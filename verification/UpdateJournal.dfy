/** What appending to the mutation journal changes: which updates of a batch it shows,
    which of them are undone, and whether it can still be loaded. */
module UpdateJournal {
  import opened Wrappers
  import opened UpdateTree
  import opened UpdateRollback

  lemma {:induction false} UpdatesOfAppended(journal: seq<Record>, more: seq<Record>, batch: nat)
    ensures CommittedUpdates(journal + more, batch) == CommittedUpdates(journal, batch) + CommittedUpdates(more, batch)
    decreases |more|
  {
    if more == [] {
      assert journal + more == journal;
    } else {
      var all := journal + more;
      assert all[..|all| - 1] == journal + more[..|more| - 1];
      UpdatesOfAppended(journal, more[..|more| - 1], batch);
    }
  }

  lemma {:induction false} NoUpdates(more: seq<Record>, batch: nat)
    requires forall i :: 0 <= i < |more| ==> !IsUpdateOf(more[i], batch)
    ensures CommittedUpdates(more, batch) == []
    decreases |more|
  {
    if more != [] {
      NoUpdates(more[..|more| - 1], batch);
    }
  }

  lemma {:induction false} OnlyUpdates(more: seq<Record>, batch: nat)
    requires forall i :: 0 <= i < |more| ==> IsUpdateOf(more[i], batch)
    ensures CommittedUpdates(more, batch) == more
    decreases |more|
  {
    if more != [] {
      assert more == more[..|more| - 1] + [more[|more| - 1]];
      OnlyUpdates(more[..|more| - 1], batch);
    }
  }

  /** Records that are neither updates of `batch` nor committed undos. */
  lemma {:induction false} UpdatesUnchanged(journal: seq<Record>, more: seq<Record>, batch: nat)
    requires forall i :: 0 <= i < |more| ==> !IsUpdateOf(more[i], batch)
    ensures CommittedUpdates(journal + more, batch) == CommittedUpdates(journal, batch)
  {
    UpdatesOfAppended(journal, more, batch);
    NoUpdates(more, batch);
  }

  lemma {:induction false} UndoneOfAppended(journal: seq<Record>, more: seq<Record>, id: nat)
    ensures Undone(journal + more, id) <==> Undone(journal, id) || Undone(more, id)
  {
    var all := journal + more;
    if j :| 0 <= j < |journal| && Undoes(journal[j], id) { assert Undoes(all[j], id); }
    if j :| 0 <= j < |more| && Undoes(more[j], id) { assert Undoes(all[|journal| + j], id); }
    if j :| 0 <= j < |all| && Undoes(all[j], id) {
      if j < |journal| { assert Undoes(journal[j], id); } else { assert Undoes(more[j - |journal|], id); }
    }
  }

  lemma {:induction false} SettledOfAppended(journal: seq<Record>, more: seq<Record>, id: nat)
    ensures Settled(journal + more, id) <==> Settled(journal, id) || Settled(more, id)
  {
    var all := journal + more;
    if j :| 0 <= j < |journal| && Settles(journal[j], id) { assert Settles(all[j], id); }
    if j :| 0 <= j < |more| && Settles(more[j], id) { assert Settles(all[|journal| + j], id); }
    if j :| 0 <= j < |all| && Settles(all[j], id) {
      if j < |journal| { assert Settles(journal[j], id); } else { assert Settles(more[j - |journal|], id); }
    }
  }

  predicate NonePrepared(more: seq<Record>) {
    forall i :: 0 <= i < |more| ==> !more[i].status.Prepared?
  }

  /** Final records never make a journal unreadable. */
  lemma {:induction false} FinalKeepsSound(journal: seq<Record>, more: seq<Record>)
    requires !Corrupt(journal) && NonePrepared(more)
    ensures !Corrupt(journal + more)
  {
    var all := journal + more;
    forall i | 0 <= i < |all| && all[i].status.Prepared?
      ensures Settled(all, all[i].id)
    {
      assert all[i] == journal[i];
      SettledOfAppended(journal, more, all[i].id);
    }
  }

  /** Prepared records followed by a final one for each. */
  lemma {:induction false} SettlingKeepsSound(journal: seq<Record>, open: seq<Record>, final: seq<Record>)
    requires !Corrupt(journal) && NonePrepared(final) && |open| == |final|
    requires forall i :: 0 <= i < |open| ==> final[i].id == open[i].id
    ensures !Corrupt(journal + open + final)
  {
    var all := journal + open + final;
    forall i | 0 <= i < |all| && all[i].status.Prepared?
      ensures Settled(all, all[i].id)
    {
      if i < |journal| {
        assert all[i] == journal[i];
        SettledOfAppended(journal, open, all[i].id);
        SettledOfAppended(journal + open, final, all[i].id);
      } else {
        assert Settles(all[i + |open|], all[i].id);
      }
    }
  }

  /** Every id and batch in the journal was handed out before `nextId`. */
  ghost predicate Fresh(journal: seq<Record>, nextId: nat) {
    forall i :: 0 <= i < |journal| ==> Known(journal[i], nextId)
  }

  predicate Known(r: Record, nextId: nat) {
    r.id < nextId && r.batch < nextId && (r.Undo? ==> r.target < nextId)
  }

  /** Prepared records that stay open make the journal unreadable. */
  lemma {:induction false} OpenCorrupts(journal: seq<Record>, open: seq<Record>, id: nat)
    requires Fresh(journal, id) && |open| > 0
    requires forall i :: 0 <= i < |open| ==> open[i].status.Prepared? && open[i].id >= id
    ensures Corrupt(journal + open)
  {
    var all := journal + open;
    assert all[|journal|] == open[0];
    forall j | 0 <= j < |all| ensures !Settles(all[j], open[0].id) {
      if j < |journal| { assert all[j] == journal[j]; } else { assert all[j] == open[j - |journal|]; }
    }
  }

  /** A record with an id below `n` is open. */
  predicate OpenBelow(journal: seq<Record>, n: nat) {
    exists i :: 0 <= i < |journal| && journal[i].status.Prepared? && journal[i].id < n && !Settled(journal, journal[i].id)
  }

  /** Records with newer ids repair nothing. */
  lemma {:induction false} OpenForever(journal: seq<Record>, more: seq<Record>, n: nat)
    requires OpenBelow(journal, n) && forall i :: 0 <= i < |more| ==> more[i].id >= n
    ensures OpenBelow(journal + more, n) && Corrupt(journal + more)
  {
    var all := journal + more;
    var i :| 0 <= i < |journal| && journal[i].status.Prepared? && journal[i].id < n && !Settled(journal, journal[i].id);
    assert all[i] == journal[i];
    SettledOfAppended(journal, more, all[i].id);
    assert !Settled(more, all[i].id);
  }

  lemma {:induction false} CorruptIsOpen(journal: seq<Record>, nextId: nat)
    requires Corrupt(journal) && Fresh(journal, nextId)
    ensures OpenBelow(journal, nextId)
  {
    var i :| 0 <= i < |journal| && journal[i].status.Prepared? && !Settled(journal, journal[i].id);
    assert Known(journal[i], nextId);
  }

  // ----- The last status of an id

  function LastStatus(journal: seq<Record>, id: nat): Option<Status> {
    if journal == [] then None
    else if journal[|journal| - 1].id == id then Some(journal[|journal| - 1].status)
    else LastStatus(journal[..|journal| - 1], id)
  }

  lemma {:induction false} LastOfAppended(journal: seq<Record>, more: seq<Record>, id: nat, k: nat)
    requires k < |more| && more[k].id == id && forall j :: k < j < |more| ==> more[j].id != id
    ensures LastStatus(journal + more, id) == Some(more[k].status)
    decreases |more|
  {
    var all := journal + more;
    assert all[..|all| - 1] == journal + more[..|more| - 1];
    if k < |more| - 1 {
      LastOfAppended(journal, more[..|more| - 1], id, k);
    }
  }
}
