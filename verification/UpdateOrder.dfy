/** A run in which batches are rolled back out of order: every rollback it asks for passes
    the drift check, and yet the run can no longer be unwound. */
module UpdateOrder {
  import opened Wrappers
  import opened UpdateTree
  import opened UpdateApply
  import opened UpdateHistory
  import opened UpdateRollback
  import opened UpdateRuns
  import opened UpdateUnwinding
  import opened UpdateStranding
  import Laws = UpdateRollbackLaws
  import Outcomes = UpdateOutcomes
  import ApplySteps = UpdateApplySteps
  import RollbackSteps = UpdateRollbackSteps

  function NoFaults(): Faults {
    Faults(NoFault, (i: nat) => false, (i: nat) => NoFault, NoFault, NoFault)
  }

  function NoUndoFaults(): RollbackFaults {
    RollbackFaults((i: nat) => false, NoFault, (i: nat) => Fine, NoFault, NoFault)
  }

  /** Rewrites one file. */
  function Rewrite(p: Path, next: Bytes): Step {
    ApplyStep([UpdateManaged(p, next)], NoFaults())
  }

  function RewriteLive(w: World, p: Path, next: Bytes): Live {
    Live(w.nextId, [Edit(w.nextId + 1, p, Get(w.tree, p), Some(next))])
  }

  lemma {:induction false} RewriteCommits(codec: Codec, w: World, p: Path, next: Bytes)
    requires WellFormed(w.tree) && p in w.tree && codec.text(next) == next
    ensures Writable([UpdateManaged(p, next)]) == [UpdateManaged(p, next)]
    ensures ApplySteps.Fits(codec, w.tree, [UpdateManaged(p, next)])
    ensures Apply(codec, w, [UpdateManaged(p, next)], w.tree, NoFaults()).1.CommittedBatch?
  {
    var plan := [UpdateManaged(p, next)];
    assert plan[1..] == [];
    ApplySteps.StagedRuns(codec, w, plan, NoFaults());
    Outcomes.CommitsIff(codec, w.(nextId := w.nextId + 2), ApplySteps.StagedOf(codec, w, plan), w.nextId, NoFaults());
  }

  lemma {:induction false} RewriteKeeps(codec: Codec, w: World, init: Tree, history: seq<Live>, p: Path, next: Bytes)
    requires Inv(codec, w, init, history) && p in w.tree && codec.text(next) == next
    ensures Allowed(codec, w, history, Rewrite(p, next))
    ensures NextHistory(codec, w, history, Rewrite(p, next)) == history + [RewriteLive(w, p, next)]
    ensures var now := Next(codec, w, Rewrite(p, next));
            Inv(codec, now, init, history + [RewriteLive(w, p, next)]) && Get(now.tree, p) == Some(next)
  {
    ApplySteps.ChainWellFormed(init, w.tree, history);
    RewriteCommits(codec, w, p, next);
    assert ApplySteps.LiveOf(codec, w, [UpdateManaged(p, next)]) == RewriteLive(w, p, next);
    StepKeepsInv(codec, w, init, history, Rewrite(p, next));
    var now, live := Next(codec, w, Rewrite(p, next)), RewriteLive(w, p, next);
    MatchesNewest(init, now.tree, history, live);
    assert Get(now.tree, live.edits[0].path) == live.edits[0].after;
  }

  lemma {:induction false} MatchesNewest(init: Tree, t: Tree, history: seq<Live>, live: Live)
    requires Chain(init, t, history + [live])
    ensures Matches(t, live)
  {
  }

  /** The worlds in which a file is rewritten to `b`, to `c` and to `b` again. */
  ghost predicate ThereAndBack(codec: Codec, w: World, p: Path, b: Bytes, c: Bytes, w1: World, w2: World, w3: World) {
    && w1 == Next(codec, w, Rewrite(p, b))
    && w2 == Next(codec, w1, Rewrite(p, c))
    && w3 == Next(codec, w2, Rewrite(p, b))
  }

  function Grown(history: seq<Live>, w: World, w1: World, w2: World, p: Path, b: Bytes, c: Bytes): seq<Live> {
    history + [RewriteLive(w, p, b)] + [RewriteLive(w1, p, c)] + [RewriteLive(w2, p, b)]
  }

  lemma {:induction false} ThereAndBackKeeps(codec: Codec, w: World, init: Tree, history: seq<Live>, p: Path, b: Bytes, c: Bytes, w1: World, w2: World, w3: World)
    requires Inv(codec, w, init, history) && p in w.tree && codec.text(b) == b && codec.text(c) == c
    requires ThereAndBack(codec, w, p, b, c, w1, w2, w3)
    ensures Inv(codec, w3, init, Grown(history, w, w1, w2, p, b, c)) && Get(w3.tree, p) == Some(b)
    ensures Allowed(codec, w, history, Rewrite(p, b))
    ensures Allowed(codec, w1, history + [RewriteLive(w, p, b)], Rewrite(p, c))
    ensures Allowed(codec, w2, history + [RewriteLive(w, p, b)] + [RewriteLive(w1, p, c)], Rewrite(p, b))
  {
    RewriteKeeps(codec, w, init, history, p, b);
    RewriteKeeps(codec, w1, init, history + [RewriteLive(w, p, b)], p, c);
    RewriteKeeps(codec, w2, init, history + [RewriteLive(w, p, b)] + [RewriteLive(w1, p, c)], p, b);
  }

  /** From any reachable world: of three rewrites of one file, to `b`, to `c` and to `b`
      again, the first one's rollback passes every check, and afterwards the third, the
      newest live batch, is never rolled back again: the run cannot be unwound any more. */
  lemma {:induction false} OutOfOrderGoesThrough(codec: Codec, w: World, init: Tree, history: seq<Live>, p: Path, b: Bytes, c: Bytes, w1: World, w2: World, w3: World, again: RollbackFaults)
    requires Inv(codec, w, init, history) && p in w.tree && codec.text(b) == b && codec.text(c) == c
    requires ThereAndBack(codec, w, p, b, c, w1, w2, w3)
    requires codec.hash(codec.text(w.tree[p])) != codec.hash(b)
    ensures Rollback(codec, w3, w.nextId, NoUndoFaults()).1.RolledBackBatch?
    ensures !Rollback(codec, Rollback(codec, w3, w.nextId, NoUndoFaults()).0, w2.nextId, again).1.RolledBackBatch?
  {
    var grown, k := Grown(history, w, w1, w2, p, b, c), |history|;
    ThereAndBackKeeps(codec, w, init, history, p, b, c, w1, w2, w3);
    assert grown[k] == RewriteLive(w, p, b) && grown[k + 2] == RewriteLive(w2, p, b);
    ThirdIsNear(history, w, w1, w2, p, b, c);
    FirstStrandsThird(codec, w3, init, grown, k, p, again);
  }

  lemma {:induction false} FirstStrandsThird(codec: Codec, w: World, init: Tree, history: seq<Live>, k: nat, p: Path, again: RollbackFaults)
    requires Inv(codec, w, init, history) && |history| == k + 3 && Near(p, history[k + 2]) && NearAny(p, history[k + 1..])
    requires |history[k].edits| == 1 && history[k].edits[0].path == p && Get(w.tree, p).Some? && Get(w.tree, p) == history[k].edits[0].after
    requires RollbackSteps.TextHash(codec, history[k].edits[0].before) != HashOf(codec, history[k].edits[0].after)
    requires RollbackSteps.TextHash(codec, history[k].edits[0].after) == HashOf(codec, history[k].edits[0].after)
    ensures Rollback(codec, w, history[k].batch, NoUndoFaults()).1.RolledBackBatch?
    ensures !Rollback(codec, Rollback(codec, w, history[k].batch, NoUndoFaults()).0, history[k + 2].batch, again).1.RolledBackBatch?
  {
    AlreadyThere(codec, w, init, history, k, p);
    var m := OutOfOrderStrands(codec, w, init, history, k, 0, NoUndoFaults(), again);
  }

  lemma {:induction false} ThirdIsNear(history: seq<Live>, w: World, w1: World, w2: World, p: Path, b: Bytes, c: Bytes)
    ensures var grown, k := Grown(history, w, w1, w2, p, b, c), |history|;
            Near(p, grown[k + 2]) && NearAny(p, grown[k + 1..])
  {
    var grown, k := Grown(history, w, w1, w2, p, b, c), |history|;
    WithinSelf(p);
    assert grown[k + 2].edits[0].path == p && Comparable(grown[k + 2].edits[0].path, p);
    assert grown[k + 1..][1] == grown[k + 2];
  }

  /** A batch whose one file holds again what the batch left there passes every check. */
  lemma {:induction false} AlreadyThere(codec: Codec, w: World, init: Tree, history: seq<Live>, k: nat, p: Path)
    requires Inv(codec, w, init, history) && k < |history| && |history[k].edits| == 1 && history[k].edits[0].path == p
    requires Get(w.tree, p).Some? && Get(w.tree, p) == history[k].edits[0].after
    ensures Rollback(codec, w, history[k].batch, NoUndoFaults()).1.RolledBackBatch?
  {
    var live := history[k];
    assert Recorded(codec, w, live);
    ApplySteps.ChainWellFormed(init, w.tree, history);
    RollbackSteps.EntriesOfLive(codec, w, live);
    RollbackSteps.LiveIsLive(codec, w, live);
    Laws.SucceedsIff(codec, w, live.batch, NoUndoFaults());
  }
}
