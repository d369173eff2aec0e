/** What an apply makes of its plan, told over the plan, the tree and the faults alone
    (cli/commands/update.ts:358-583). */
module UpdatePlans {
  import opened Wrappers
  import opened UpdateTree
  import opened UpdateApply
  import opened UpdateOutcomes
  import Steps = UpdateApplySteps

  predicate Writes(op: Operation) {
    op.Create? || op.UpdateManaged?
  }

  /** The operation is to change the tree. */
  predicate Changes(op: Operation) {
    Writes(op) || op.RemoveStale?
  }

  /** How many of the first `n` operations are to change the tree. */
  function Rank(plan: seq<Operation>, n: nat): (k: nat)
    requires n <= |plan|
    ensures k <= n
  {
    if n == 0 then 0 else Rank(plan, n - 1) + if Changes(plan[n - 1]) then 1 else 0
  }

  ghost predicate PlanApart(plan: seq<Operation>) {
    forall i, j :: 0 <= i < |plan| && 0 <= j < |plan| && i != j && Changes(plan[i]) && Changes(plan[j]) ==>
      Disjoint(plan[i].path, plan[j].path)
  }

  // ----- Every such operation is staged, in order

  lemma {:induction false} RankTail(plan: seq<Operation>, n: nat)
    requires 0 < n <= |plan|
    ensures Rank(plan, n) == (if Changes(plan[0]) then 1 else 0) + Rank(plan[1..], n - 1)
    decreases n
  {
    if n > 1 {
      RankTail(plan, n - 1);
      assert plan[1..][n - 2] == plan[n - 1];
    }
  }

  lemma {:induction false} WritableCount(plan: seq<Operation>)
    ensures |Writable(plan)| == Rank(plan, |plan|)
    decreases |plan|
  {
    if plan != [] {
      RankTail(plan, |plan|);
      WritableCount(plan[1..]);
    }
  }

  lemma {:induction false} WritableAt(plan: seq<Operation>, i: nat)
    requires i < |plan| && Changes(plan[i])
    ensures Rank(plan, i) < |Writable(plan)| && Writable(plan)[Rank(plan, i)] == plan[i]
    decreases |plan|
  {
    if i > 0 {
      RankTail(plan, i);
      assert plan[1..][i - 1] == plan[i];
      WritableAt(plan[1..], i - 1);
    }
  }

  lemma {:induction false} WritableFrom(plan: seq<Operation>, k: nat) returns (i: nat)
    requires k < |Writable(plan)|
    ensures i < |plan| && Changes(plan[i]) && Rank(plan, i) == k && Writable(plan)[k] == plan[i]
    decreases |plan|
  {
    if Changes(plan[0]) && k == 0 {
      return 0;
    }
    i := WritableFrom(plan[1..], if Changes(plan[0]) then k - 1 else k);
    RankTail(plan, i + 1);
    i := i + 1;
  }

  /** The id under which operation `i` is journaled and backed up. */
  function IdOf(w: World, plan: seq<Operation>, i: nat): nat
    requires i <= |plan|
  {
    w.nextId + 1 + Rank(plan, i)
  }

  /** The staged entry of operation `i`. */
  lemma {:induction false} StagedIsPlan(codec: Codec, w: World, plan: seq<Operation>, i: nat)
    requires i < |plan| && Changes(plan[i])
    ensures var staged, p := Steps.StagedOf(codec, w, Writable(plan)), plan[i].path;
            && |staged| == Rank(plan, |plan|) && Rank(plan, i) < |staged|
            && staged[Rank(plan, i)]
               == Staged(plan[i], exists q :: q in w.tree && Within(q, p), if p in w.tree then codec.text(w.tree[p]) else [],
                         p !in w.tree && exists q :: q in w.tree && Within(q, p), IdOf(w, plan, i))
  {
    WritableCount(plan);
    WritableAt(plan, i);
  }

  lemma {:induction false} PlanIsStagedApart(codec: Codec, w: World, plan: seq<Operation>)
    requires PlanApart(plan)
    ensures StagedApart(Steps.StagedOf(codec, w, Writable(plan)))
  {
    var staged := Steps.StagedOf(codec, w, Writable(plan));
    forall k, l | 0 <= k < |staged| && 0 <= l < |staged| && k != l
      ensures Disjoint(staged[k].op.path, staged[l].op.path) && staged[k].id != staged[l].id
    {
      var i := WritableFrom(plan, k);
      var j := WritableFrom(plan, l);
    }
  }

  // ----- How an apply ends

  /** What the checks under the locks notice: the path has come or gone since it was staged, or
      its file is no file any more or has another digest. */
  predicate Moved(codec: Codec, seen: Tree, locked: Tree, p: Path) {
    || ((exists q :: q in seen && Within(q, p)) != (exists q :: q in locked && Within(q, p)))
    || (p in seen && (p !in locked || codec.hash(codec.text(locked[p])) != codec.hash(codec.text(seen[p]))))
  }

  predicate AnyMoved(codec: Codec, seen: Tree, locked: Tree, plan: seq<Operation>) {
    exists i :: 0 <= i < |plan| && Changes(plan[i]) && Moved(codec, seen, locked, plan[i].path)
  }

  /** No primitive throws at operation `i`, and a file it writes has room. */
  predicate RunsThrough(seen: Tree, locked: Tree, plan: seq<Operation>, faults: Faults, i: nat)
    requires i < |plan|
  {
    var p, k := plan[i].path, Rank(plan, i);
    && ((exists q :: q in seen && Within(q, p)) ==> !faults.backup(k))
    && faults.mutate(k).NoFault?
    && (Writes(plan[i]) ==> forall q :: q in locked && (Within(q, p) || Within(p, q)) ==> q == p)
  }

  predicate AllRunThrough(seen: Tree, locked: Tree, plan: seq<Operation>, faults: Faults) {
    && faults.prepared.NoFault? && faults.commit.NoFault?
    && forall i :: 0 <= i < |plan| && Changes(plan[i]) ==> RunsThrough(seen, locked, plan, faults, i)
  }

  lemma {:induction false} NoneWritableIff(plan: seq<Operation>)
    ensures |Writable(plan)| == 0 <==> forall i :: 0 <= i < |plan| ==> !Changes(plan[i])
  {
    if i :| 0 <= i < |plan| && Changes(plan[i]) { WritableAt(plan, i); }
    if |Writable(plan)| > 0 { var i := WritableFrom(plan, 0); }
  }

  lemma {:induction false} CurrentIff(codec: Codec, w: World, locked: Tree, plan: seq<Operation>)
    ensures AllCurrent(codec, Steps.StagedOf(codec, w, Writable(plan)), locked) <==> !AnyMoved(codec, w.tree, locked, plan)
  {
    var staged := Steps.StagedOf(codec, w, Writable(plan));
    if AllCurrent(codec, staged, locked) {
      forall i | 0 <= i < |plan| && Changes(plan[i]) ensures !Moved(codec, w.tree, locked, plan[i].path) {
        StagedIsPlan(codec, w, plan, i);
        assert StillCurrent(codec, staged[Rank(plan, i)], locked);
      }
    }
    if !AnyMoved(codec, w.tree, locked, plan) {
      forall k | 0 <= k < |staged| ensures StillCurrent(codec, staged[k], locked) {
        var i := WritableFrom(plan, k);
        StagedIsPlan(codec, w, plan, i);
        assert !Moved(codec, w.tree, locked, plan[i].path);
      }
    }
  }

  lemma {:induction false} UndisturbedIff(codec: Codec, w: World, locked: Tree, plan: seq<Operation>, faults: Faults)
    ensures Undisturbed(Steps.StagedOf(codec, w, Writable(plan)), locked, faults) <==> AllRunThrough(w.tree, locked, plan, faults)
  {
    var staged := Steps.StagedOf(codec, w, Writable(plan));
    if Undisturbed(staged, locked, faults) {
      forall i | 0 <= i < |plan| && Changes(plan[i]) ensures RunsThrough(w.tree, locked, plan, faults, i) {
        StagedIsPlan(codec, w, plan, i);
        assert Possible(staged[Rank(plan, i)].op, locked);
      }
    }
    if AllRunThrough(w.tree, locked, plan, faults) {
      forall k | 0 <= k < |staged|
        ensures faults.mutate(k).NoFault? && Possible(staged[k].op, locked) && (staged[k].existed ==> !faults.backup(k))
      {
        var i := WritableFrom(plan, k);
        StagedIsPlan(codec, w, plan, i);
        assert RunsThrough(w.tree, locked, plan, faults, i);
      }
    }
  }

  predicate AnyConflict(plan: seq<Operation>) {
    exists i :: 0 <= i < |plan| && plan[i].Conflict?
  }

  predicate AnyChange(plan: seq<Operation>) {
    exists i :: 0 <= i < |plan| && Changes(plan[i])
  }

  lemma {:induction false} FailEndings(codec: Codec, w: World, staged: seq<Staged>, batch: nat, faults: Faults)
    ensures var outcome := Transact(codec, w, staged, batch, faults).1;
            && (outcome.CommittedBatch? ==> outcome.batch == batch)
            && (!outcome.CommittedBatch? ==> outcome == if faults.rolledBack.NoFault? then RestoredBatch else IntegrityError)
  {
  }

  /** How every apply ends: it refuses a plan with a conflict, does nothing if nothing is to
      change, refuses if a staged path moved, and otherwise commits exactly when nothing
      throws and every written file has room. */
  lemma {:induction false} ApplyEndings(codec: Codec, w: World, plan: seq<Operation>, locked: Tree, faults: Faults)
    requires PlanApart(plan)
    ensures Apply(codec, w, plan, locked, faults).1
         == if AnyConflict(plan) then ConflictFound
            else if !AnyChange(plan) then NothingToDo
            else if AnyMoved(codec, w.tree, locked, plan) then Stale
            else if AllRunThrough(w.tree, locked, plan, faults) then CommittedBatch(w.nextId)
            else if faults.rolledBack.NoFault? then RestoredBatch
            else IntegrityError
  {
    NoneWritableIff(plan);
    CurrentIff(codec, w, locked, plan);
    UndisturbedIff(codec, w, locked, plan, faults);
    PlanIsStagedApart(codec, w, plan);
    var w1 := w.(nextId := w.nextId + 1 + |Writable(plan)|, tree := locked);
    CommitsIff(codec, w1, Steps.StagedOf(codec, w, Writable(plan)), w.nextId, faults);
    FailEndings(codec, w1, Steps.StagedOf(codec, w, Writable(plan)), w.nextId, faults);
  }

  lemma {:induction false} StaleKeeps(codec: Codec, w: World, staged: seq<Staged>, batch: nat, locked: Tree, faults: Faults)
    ensures var (now, outcome) := ApplyStaged(codec, w, staged, batch, locked, faults);
            !outcome.ConflictFound? && !outcome.NothingToDo? && (outcome.Stale? ==> now == w.(tree := locked))
  {
    FailEndings(codec, w.(tree := locked), staged, batch, faults);
  }

  lemma {:induction false} NoneWritable(codec: Codec, w: World, locked: Tree, faults: Faults)
    ensures ApplyWritable(codec, w, [], locked, faults) == (w.(nextId := w.nextId + 1), NothingToDo)
  {
  }

  lemma {:induction false} SomeWritable(codec: Codec, w: World, ops: seq<Operation>, locked: Tree, faults: Faults)
    requires |ops| > 0
    ensures ApplyWritable(codec, w, ops, locked, faults)
         == ApplyStaged(codec, w.(nextId := w.nextId + 1 + |ops|), Steps.StagedOf(codec, w, ops), w.nextId, locked, faults)
  {
  }

  lemma {:induction false} ConflictKeeps(codec: Codec, w: World, plan: seq<Operation>, locked: Tree, faults: Faults)
    ensures Apply(codec, w, plan, locked, faults)
         == if HasConflict(plan) then (w, ConflictFound) else ApplyWritable(codec, w, Writable(plan), locked, faults)
  {
  }

  /** An apply that does not get to its transaction changes nothing but uses up ids. */
  lemma {:induction false} RefusedApplyKeeps(codec: Codec, w: World, plan: seq<Operation>, locked: Tree, faults: Faults)
    ensures var (now, outcome) := Apply(codec, w, plan, locked, faults);
            && (outcome.ConflictFound? ==> now == w)
            && (outcome.NothingToDo? ==> now == w.(nextId := w.nextId + 1))
            && (outcome.Stale? ==> now == w.(tree := locked, nextId := w.nextId + 1 + Rank(plan, |plan|)))
  {
    var ops := Writable(plan);
    WritableCount(plan);
    ConflictKeeps(codec, w, plan, locked, faults);
    NoneWritable(codec, w, locked, faults);
    if ops != [] {
      SomeWritable(codec, w, ops, locked, faults);
      StaleKeeps(codec, w.(nextId := w.nextId + 1 + |ops|), Steps.StagedOf(codec, w, ops), w.nextId, locked, faults);
    }
  }

  // ----- What a committed apply leaves

  /** The transaction behind a committed apply. */
  lemma {:induction false} CommittedThrough(codec: Codec, w: World, plan: seq<Operation>, locked: Tree, faults: Faults) returns (w1: World)
    requires Apply(codec, w, plan, locked, faults).1.CommittedBatch?
    ensures w1 == World(locked, w.journal, w.backups, w.nextId + 1 + Rank(plan, |plan|))
    ensures Apply(codec, w, plan, locked, faults) == Transact(codec, w1, Steps.StagedOf(codec, w, Writable(plan)), w.nextId, faults)
  {
    WritableCount(plan);
    w1 := World(locked, w.journal, w.backups, w.nextId + 1 + Rank(plan, |plan|));
  }

  /** The tree: every written path holds what was planned and nothing is left at or below a
      removed one; what stands below a written path, or apart from all, is as it was. */
  lemma {:induction false} ApplyCarriesOutPlan(codec: Codec, w: World, plan: seq<Operation>, locked: Tree, faults: Faults)
    requires PlanApart(plan) && Apply(codec, w, plan, locked, faults).1.CommittedBatch?
    ensures var t := Apply(codec, w, plan, locked, faults).0.tree;
            && (forall i :: 0 <= i < |plan| && Writes(plan[i]) ==> Get(t, plan[i].path) == Some(plan[i].next))
            && (forall i, q :: 0 <= i < |plan| && plan[i].RemoveStale? && Within(q, plan[i].path) ==> q !in t)
            && (forall q :: (forall i :: 0 <= i < |plan| && Changes(plan[i]) ==>
                               if Writes(plan[i]) then q != plan[i].path else !Within(q, plan[i].path)) ==> Get(t, q) == Get(locked, q))
  {
    var t := Apply(codec, w, plan, locked, faults).0.tree;
    forall i, q | 0 <= i < |plan| && Changes(plan[i]) && Within(q, plan[i].path)
      ensures Get(t, q) == if Writes(plan[i]) then (if q == plan[i].path then Some(plan[i].next) else Get(locked, q)) else None
    {
      PlannedAt(codec, w, plan, locked, faults, q, i);
    }
    forall i | 0 <= i < |plan| && Writes(plan[i]) ensures Get(t, plan[i].path) == Some(plan[i].next) {
      WithinSelf(plan[i].path);
    }
    forall i, q | 0 <= i < |plan| && plan[i].RemoveStale? && Within(q, plan[i].path) ensures q !in t {
      assert Get(t, q) == None;
    }
    forall q | forall i :: 0 <= i < |plan| && Changes(plan[i]) ==> if Writes(plan[i]) then q != plan[i].path else !Within(q, plan[i].path)
      ensures Get(t, q) == Get(locked, q)
    {
      if i :| 0 <= i < |plan| && Changes(plan[i]) && Within(q, plan[i].path) {
      } else {
        UnplannedAt(codec, w, plan, locked, faults, q);
      }
    }
  }

  lemma {:induction false} PlannedAt(codec: Codec, w: World, plan: seq<Operation>, locked: Tree, faults: Faults, q: Path, i: nat)
    requires PlanApart(plan) && Apply(codec, w, plan, locked, faults).1.CommittedBatch?
    requires i < |plan| && Changes(plan[i]) && Within(q, plan[i].path)
    ensures Get(Apply(codec, w, plan, locked, faults).0.tree, q)
         == if Writes(plan[i]) then (if q == plan[i].path then Some(plan[i].next) else Get(locked, q)) else None
  {
    var w1 := CommittedThrough(codec, w, plan, locked, faults);
    PlanIsStagedApart(codec, w, plan);
    StagedIsPlan(codec, w, plan, i);
    CommittedTree(codec, w1, Steps.StagedOf(codec, w, Writable(plan)), w.nextId, faults, q, Rank(plan, i));
  }

  lemma {:induction false} UnplannedAt(codec: Codec, w: World, plan: seq<Operation>, locked: Tree, faults: Faults, q: Path)
    requires Apply(codec, w, plan, locked, faults).1.CommittedBatch?
    requires forall i :: 0 <= i < |plan| && Changes(plan[i]) ==> !Within(q, plan[i].path)
    ensures Get(Apply(codec, w, plan, locked, faults).0.tree, q) == Get(locked, q)
  {
    var w1 := CommittedThrough(codec, w, plan, locked, faults);
    var staged := Steps.StagedOf(codec, w, Writable(plan));
    forall k | 0 <= k < |staged| ensures !Within(q, staged[k].op.path) {
      var i := WritableFrom(plan, k);
    }
    MutateOutside(staged, locked, faults, |staged|, q);
  }

  /** What the journal keeps of operation `i`. */
  function RecordFor(codec: Codec, w: World, plan: seq<Operation>, i: nat, status: Status): Record
    requires i < |plan|
  {
    var p, t := plan[i].path, w.tree;
    Update(IdOf(w, plan, i), status, p,
           if p in t then Some(codec.hash(codec.text(t[p]))) else None,
           if Writes(plan[i]) then Some(codec.hash(plan[i].next)) else None,
           exists q :: q in t && Within(q, p), w.nextId)
  }

  /** The journal and the backups: one prepared and then one committed record for each
      operation, in plan order, and a full copy of whatever stood at its path. */
  lemma {:induction false} ApplyRecordsPlan(codec: Codec, w: World, plan: seq<Operation>, locked: Tree, faults: Faults, i: nat)
    requires PlanApart(plan) && Apply(codec, w, plan, locked, faults).1.CommittedBatch?
    requires i < |plan| && Changes(plan[i])
    ensures var now := Apply(codec, w, plan, locked, faults).0;
            var n, k := Rank(plan, |plan|), Rank(plan, i);
            && now.nextId == w.nextId + 1 + n
            && k < n && |now.journal| == |w.journal| + n + n && now.journal[..|w.journal|] == w.journal
            && now.journal[|w.journal| + k] == RecordFor(codec, w, plan, i, Prepared)
            && now.journal[|w.journal| + n + k] == RecordFor(codec, w, plan, i, Committed)
            && ((exists q :: q in w.tree && Within(q, plan[i].path)) ==>
                  && IdOf(w, plan, i) in now.backups
                  && forall q :: Get(now.backups[IdOf(w, plan, i)], q) == if Within(q, plan[i].path) then Get(locked, q) else None)
  {
    var w1 := CommittedThrough(codec, w, plan, locked, faults);
    var staged := Steps.StagedOf(codec, w, Writable(plan));
    PlanIsStagedApart(codec, w, plan);
    StagedIsPlan(codec, w, plan, i);
    CommittedWrites(codec, w1, staged, w.nextId, faults);
    WrittenAt(codec, w.journal, staged, w.nextId, Rank(plan, i));
    BackedUpAt(staged, locked, w.backups, faults, Rank(plan, i));
    RecordIsFor(codec, w, plan, i, Prepared);
    RecordIsFor(codec, w, plan, i, Committed);
  }

  lemma {:induction false} RecordIsFor(codec: Codec, w: World, plan: seq<Operation>, i: nat, status: Status)
    requires i < |plan| && Changes(plan[i]) && Rank(plan, i) < |Steps.StagedOf(codec, w, Writable(plan))|
    ensures RecordOf(codec, Steps.StagedOf(codec, w, Writable(plan))[Rank(plan, i)], status, w.nextId) == RecordFor(codec, w, plan, i, status)
  {
    StagedIsPlan(codec, w, plan, i);
  }

  lemma {:induction false} WrittenAt(codec: Codec, journal: seq<Record>, staged: seq<Staged>, batch: nat, k: nat)
    requires k < |staged|
    ensures var all := journal + Records(codec, staged, Prepared, batch) + Records(codec, staged, Committed, batch);
            && |all| == |journal| + |staged| + |staged| && all[..|journal|] == journal
            && all[|journal| + k] == RecordOf(codec, staged[k], Prepared, batch)
            && all[|journal| + |staged| + k] == RecordOf(codec, staged[k], Committed, batch)
  {
  }

  lemma {:induction false} BackedUpAt(staged: seq<Staged>, locked: Tree, backups: map<nat, Tree>, faults: Faults, k: nat)
    requires k < |staged| && StagedApart(staged) && BackUp(staged, locked, backups, faults, |staged|).1
    ensures var copies := BackUp(staged, locked, backups, faults, |staged|).0;
            staged[k].existed ==>
              && staged[k].id in copies
              && forall q :: Get(copies[staged[k].id], q) == if Within(q, staged[k].op.path) then Get(locked, q) else None
  {
    BackUpKeeps(staged, locked, backups, faults, |staged|);
  }

  lemma {:induction false} CommittedWrites(codec: Codec, w: World, staged: seq<Staged>, batch: nat, faults: Faults)
    requires Transact(codec, w, staged, batch, faults).1.CommittedBatch?
    ensures var now := Transact(codec, w, staged, batch, faults).0;
            && now.journal == w.journal + Records(codec, staged, Prepared, batch) + Records(codec, staged, Committed, batch)
            && now.backups == BackUp(staged, w.tree, w.backups, faults, |staged|).0 && now.nextId == w.nextId
    ensures BackUp(staged, w.tree, w.backups, faults, |staged|).1
  {
  }
}
