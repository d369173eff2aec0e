/** Whole runs of applies and rollbacks, and unwinding them (cli/commands/update.ts:447-764). */
module UpdateUnwinding {
  import opened Wrappers
  import opened UpdateTree
  import opened UpdateApply
  import opened UpdateHistory
  import opened UpdateRollback
  import opened UpdateJournal
  import opened UpdateRuns
  import Laws = UpdateRollbackLaws
  import Outcomes = UpdateOutcomes
  import ApplySteps = UpdateApplySteps
  import RollbackSteps = UpdateRollbackSteps

  // ----- Runs

  datatype Step = ApplyStep(plan: seq<Operation>, faults: Faults) | RollbackStep(batch: nat, undoFaults: RollbackFaults)

  function Next(codec: Codec, w: World, step: Step): World {
    match step
    case ApplyStep(plan, faults) => Apply(codec, w, plan, w.tree, faults).0
    case RollbackStep(batch, faults) => Rollback(codec, w, batch, faults).0
  }

  function IndexOf(history: seq<Live>, batch: nat): (k: nat)
    ensures k < |history| ==> history[k].batch == batch
    ensures Lists(history, batch) ==> k < |history|
  {
    if history == [] then 0
    else if history[|history| - 1].batch == batch then |history| - 1
    else
      var front := history[..|history| - 1];
      var k := IndexOf(front, batch);
      if k < |front| then k
      else assert !Lists(history, batch) by { NotListed(history, batch); } |history|
  }

  lemma {:induction false} NotListed(history: seq<Live>, batch: nat)
    requires |history| > 0 && history[|history| - 1].batch != batch && !Lists(history[..|history| - 1], batch)
    ensures !Lists(history, batch)
  {
    forall k | 0 <= k < |history| ensures history[k].batch != batch {
      if k < |history| - 1 { assert history[..|history| - 1][k] == history[k]; }
    }
  }

  /** The live batches after `step`. */
  function NextHistory(codec: Codec, w: World, history: seq<Live>, step: Step): seq<Live> {
    match step
    case ApplyStep(plan, faults) =>
      ApplySteps.Extended(Apply(codec, w, plan, w.tree, faults).1, history, ApplySteps.LiveOf(codec, w, Writable(plan)))
    case RollbackStep(batch, faults) =>
      var k := IndexOf(history, batch);
      if Rollback(codec, w, batch, faults).1.RolledBackBatch? && k < |history| then RollbackSteps.Dropped(history, k) else history
  }

  ghost predicate MayLeave(codec: Codec, t: Tree, history: seq<Live>, k: nat) {
    && k < |history|
    && (|| RollbackSteps.Topmost(history, k)
        || (Harmless(history[k], history[k + 1..]) && RollbackSteps.DigestTells(codec, t, history[k])))
  }

  /** What the run may do: apply plans that fit; fail anywhere, as long as the failure is
      journaled and the files to restore are text; and roll back a batch that no later live
      one comes near, or that changed nothing where one does. */
  ghost predicate Allowed(codec: Codec, w: World, history: seq<Live>, step: Step) {
    match step
    case ApplyStep(plan, faults) => ApplySteps.ApplyAllowed(codec, w, plan, faults)
    case RollbackStep(batch, faults) =>
      var outcome := Rollback(codec, w, batch, faults).1;
      if outcome.RolledBackBatch? then MayLeave(codec, w.tree, history, IndexOf(history, batch))
      else RollbackSteps.RollbackMended(codec, w, batch, faults)
  }

  lemma {:induction false} LeavingKeeps(codec: Codec, w: World, init: Tree, history: seq<Live>, k: nat, faults: RollbackFaults)
    requires Inv(codec, w, init, history) && MayLeave(codec, w.tree, history, k)
    requires Rollback(codec, w, history[k].batch, faults).1.RolledBackBatch?
    ensures Inv(codec, Rollback(codec, w, history[k].batch, faults).0, init, RollbackSteps.Dropped(history, k))
  {
    if RollbackSteps.Topmost(history, k) {
      RollbackSteps.TopmostIsTakeable(codec, w, init, history, k);
    } else {
      RollbackSteps.HarmlessIsTakeable(codec, w, init, history, k, faults);
    }
    RollbackSteps.TakenKeeps(codec, w, init, history, k, faults);
  }

  lemma {:induction false} StepKeepsInv(codec: Codec, w: World, init: Tree, history: seq<Live>, step: Step)
    requires Inv(codec, w, init, history) && Allowed(codec, w, history, step)
    ensures Inv(codec, Next(codec, w, step), init, NextHistory(codec, w, history, step))
  {
    match step
    case ApplyStep(plan, faults) =>
      ApplySteps.ApplyKeeps(codec, w, plan, faults, init, history);
    case RollbackStep(batch, faults) =>
      if Rollback(codec, w, batch, faults).1.RolledBackBatch? {
        LeavingKeeps(codec, w, init, history, IndexOf(history, batch), faults);
      } else {
        RollbackSteps.FailedRollbackKeeps(codec, w, init, history, batch, faults);
      }
  }

  /** The worlds and the live batches of a run. */
  datatype Situation = Situation(world: World, history: seq<Live>)

  function After(codec: Codec, w: World, steps: seq<Step>): Situation {
    if steps == [] then Situation(w, [])
    else
      var before := After(codec, w, steps[..|steps| - 1]);
      var step := steps[|steps| - 1];
      Situation(Next(codec, before.world, step), NextHistory(codec, before.world, before.history, step))
  }

  ghost predicate RunAllowed(codec: Codec, w: World, steps: seq<Step>) {
    steps == [] ||
    var before := After(codec, w, steps[..|steps| - 1]);
    RunAllowed(codec, w, steps[..|steps| - 1]) && Allowed(codec, before.world, before.history, steps[|steps| - 1])
  }

  lemma {:induction false} RunKeepsInv(codec: Codec, w: World, steps: seq<Step>)
    requires Loadable(w) && RunAllowed(codec, w, steps)
    ensures var s := After(codec, w, steps); Inv(codec, s.world, w.tree, s.history)
    decreases |steps|
  {
    if steps == [] {
      StartInv(codec, w);
    } else {
      RunKeepsInv(codec, w, steps[..|steps| - 1]);
      var before := After(codec, w, steps[..|steps| - 1]);
      StepKeepsInv(codec, before.world, w.tree, before.history, steps[|steps| - 1]);
    }
  }

  lemma {:induction false} StepKeepsLists(codec: Codec, w: World, init: Tree, history: seq<Live>, step: Step)
    requires Inv(codec, w, init, history) && OnlyLive(w.journal, history) && Allowed(codec, w, history, step)
    ensures OnlyLive(Next(codec, w, step).journal, NextHistory(codec, w, history, step))
  {
    match step
    case ApplyStep(plan, faults) =>
      ApplySteps.ChainWellFormed(init, w.tree, history);
      ApplySteps.ApplyLists(codec, w, plan, faults, history);
    case RollbackStep(batch, faults) =>
      if Rollback(codec, w, batch, faults).1.RolledBackBatch? {
        RollbackSteps.DroppedLists(codec, w, history, IndexOf(history, batch), faults);
      } else {
        RollbackSteps.FailedRollbackLists(codec, w, history, batch, faults);
      }
  }

  /** A project that no update has touched yet. */
  function Untouched(t: Tree, nextId: nat): World {
    World(t, [], map[], nextId)
  }

  lemma {:induction false} RunKeepsLists(codec: Codec, w: World, steps: seq<Step>)
    requires Loadable(w) && OnlyLive(w.journal, []) && RunAllowed(codec, w, steps)
    ensures var s := After(codec, w, steps); OnlyLive(s.world.journal, s.history)
    decreases |steps|
  {
    if steps != [] {
      RunKeepsInv(codec, w, steps[..|steps| - 1]);
      RunKeepsLists(codec, w, steps[..|steps| - 1]);
      var before := After(codec, w, steps[..|steps| - 1]);
      StepKeepsLists(codec, before.world, w.tree, before.history, steps[|steps| - 1]);
    }
  }

  // ----- Unwinding

  /** Rolls the batches of `history` back, the newest first, as long as that works. */
  function Unwind(codec: Codec, w: World, history: seq<Live>, faults: RollbackFaults): (World, bool)
    decreases |history|
  {
    if history == [] then (w, true)
    else
      var (now, outcome) := Rollback(codec, w, history[|history| - 1].batch, faults);
      if !outcome.RolledBackBatch? then (now, false) else Unwind(codec, now, history[..|history| - 1], faults)
  }

  lemma {:induction false} NewestIsTopmost(history: seq<Live>)
    requires |history| > 0
    ensures RollbackSteps.Topmost(history, |history| - 1)
    ensures RollbackSteps.Dropped(history, |history| - 1) == history[..|history| - 1]
  {
  }

  lemma {:induction false} UnwindStep(codec: Codec, w: World, history: seq<Live>, faults: RollbackFaults)
    requires |history| > 0
    ensures var (now, outcome) := Rollback(codec, w, history[|history| - 1].batch, faults);
            Unwind(codec, w, history, faults)
            == if outcome.RolledBackBatch? then Unwind(codec, now, history[..|history| - 1], faults) else (now, false)
  {
  }

  lemma {:induction false} RestoreStep(codec: Codec, w: World, init: Tree, history: seq<Live>, faults: RollbackFaults) returns (now: World)
    requires Inv(codec, w, init, history) && RollbackSteps.Calm(faults) && |history| > 0
    ensures Inv(codec, now, init, history[..|history| - 1])
    ensures OnlyLive(w.journal, history) ==> OnlyLive(now.journal, history[..|history| - 1])
    ensures Unwind(codec, w, history, faults) == Unwind(codec, now, history[..|history| - 1], faults)
  {
    var k := |history| - 1;
    now := Rollback(codec, w, history[k].batch, faults).0;
    NewestIsTopmost(history);
    RollbackSteps.TopmostRollsBack(codec, w, init, history, k, faults);
    RollbackSteps.SuccessKeeps(codec, w, init, history, k, faults);
    if OnlyLive(w.journal, history) { RollbackSteps.DroppedLists(codec, w, history, k, faults); }
    UnwindStep(codec, w, history, faults);
  }

  lemma {:induction false} UnwindRestores(codec: Codec, w: World, init: Tree, history: seq<Live>, faults: RollbackFaults)
    requires Inv(codec, w, init, history) && RollbackSteps.Calm(faults)
    ensures Unwind(codec, w, history, faults).1 && Inv(codec, Unwind(codec, w, history, faults).0, init, [])
    ensures OnlyLive(w.journal, history) ==> OnlyLive(Unwind(codec, w, history, faults).0.journal, [])
    decreases |history|
  {
    if |history| > 0 {
      var now := RestoreStep(codec, w, init, history, faults);
      UnwindRestores(codec, now, init, history[..|history| - 1], faults);
    }
  }

  lemma {:induction false} LiveIffListed(codec: Codec, w: World, init: Tree, history: seq<Live>, batch: nat)
    requires Inv(codec, w, init, history) && OnlyLive(w.journal, history)
    ensures IsLive(w.journal, batch) <==> Lists(history, batch)
  {
    if k :| 0 <= k < |history| && history[k].batch == batch {
      assert Recorded(codec, w, history[k]);
      RollbackSteps.LiveIsLive(codec, w, history[k]);
    }
  }

  /** Whatever happened before, as long as the journal can be loaded: after any run from here,
      rolling back the live batches of the run in reverse commit order always goes through and
      returns the tree to what it is here. */
  lemma {:induction false} RunsUnwindFrom(codec: Codec, w: World, steps: seq<Step>, faults: RollbackFaults)
    requires Loadable(w) && RunAllowed(codec, w, steps) && RollbackSteps.Calm(faults)
    ensures var s := After(codec, w, steps);
            var (last, ok) := Unwind(codec, s.world, s.history, faults);
            ok && last.tree == w.tree && Loadable(last)
  {
    var s := After(codec, w, steps);
    RunKeepsInv(codec, w, steps);
    UnwindRestores(codec, s.world, w.tree, s.history, faults);
  }

  /** After any run of a fresh project these are all live batches, and none is left live. */
  lemma {:induction false} RunsUnwind(codec: Codec, t: Tree, nextId: nat, steps: seq<Step>, faults: RollbackFaults)
    requires WellFormed(t) && RunAllowed(codec, Untouched(t, nextId), steps) && RollbackSteps.Calm(faults)
    ensures var s := After(codec, Untouched(t, nextId), steps);
            var (last, ok) := Unwind(codec, s.world, s.history, faults);
            && ok && last.tree == t
            && (forall batch :: IsLive(s.world.journal, batch) <==> Lists(s.history, batch))
            && (forall batch :: !IsLive(last.journal, batch))
  {
    var w := Untouched(t, nextId);
    var s := After(codec, w, steps);
    RunKeepsInv(codec, w, steps);
    forall batch ensures !IsLive(w.journal, batch) { }
    RunKeepsLists(codec, w, steps);
    UnwindRestores(codec, s.world, t, s.history, faults);
    var last := Unwind(codec, s.world, s.history, faults).0;
    forall batch ensures IsLive(s.world.journal, batch) <==> Lists(s.history, batch) {
      LiveIffListed(codec, s.world, t, s.history, batch);
    }
    forall batch ensures !IsLive(last.journal, batch) {
      LiveIffListed(codec, last, t, [], batch);
    }
  }

  // ----- Why an open record matters

  lemma {:induction false} AppendKeepsOpen(journal: seq<Record>, more: seq<Record>, fault: Fault, n: nat)
    requires OpenBelow(journal, n) && forall i :: 0 <= i < |more| ==> more[i].id >= n
    ensures OpenBelow(Append(journal, more, fault).0, n)
  {
    OpenForever(journal, more, n);
  }

  lemma {:induction false} TransactKeepsOpen(codec: Codec, w: World, staged: seq<Staged>, batch: nat, faults: Faults, n: nat)
    requires OpenBelow(w.journal, n) && forall i :: 0 <= i < |staged| ==> staged[i].id >= n
    ensures OpenBelow(Transact(codec, w, staged, batch, faults).0.journal, n)
  {
    var open, final, undone := Records(codec, staged, Prepared, batch), Records(codec, staged, Committed, batch), Records(codec, staged, RolledBack, batch);
    var first := Append(w.journal, open, faults.prepared).0;
    var second := Append(first, final, faults.commit).0;
    AppendKeepsOpen(w.journal, open, faults.prepared, n);
    AppendKeepsOpen(first, final, faults.commit, n);
    AppendKeepsOpen(first, undone, faults.rolledBack, n);
    AppendKeepsOpen(second, undone, faults.rolledBack, n);
  }

  lemma {:induction false} OpenRefuses(codec: Codec, w: World, batch: nat, faults: RollbackFaults, n: nat)
    requires OpenBelow(w.journal, n)
    ensures Rollback(codec, w, batch, faults) == (w, JournalCorrupt)
  {
    OpenForever(w.journal, [], n);
    assert w.journal + [] == w.journal;
  }

  lemma {:induction false} StagedKeepsOpen(codec: Codec, w: World, staged: seq<Staged>, batch: nat, locked: Tree, faults: Faults, n: nat)
    requires OpenBelow(w.journal, n) && n <= w.nextId && forall i :: 0 <= i < |staged| ==> staged[i].id >= n
    ensures var now := ApplyStaged(codec, w, staged, batch, locked, faults).0;
            OpenBelow(now.journal, n) && n <= now.nextId
  {
    TransactKeepsOpen(codec, w.(tree := locked), staged, batch, faults, n);
    KeepsNextId(codec, w.(tree := locked), staged, batch, faults);
  }

  lemma {:induction false} ApplyKeepsOpen(codec: Codec, w: World, ops: seq<Operation>, faults: Faults, n: nat)
    requires OpenBelow(w.journal, n) && n <= w.nextId
    ensures var now := ApplyWritable(codec, w, ops, w.tree, faults).0;
            OpenBelow(now.journal, n) && n <= now.nextId
  {
    if |ops| > 0 {
      WritableIsStaged(codec, w, ops, w.tree, faults);
      StagedKeepsOpen(codec, w.(nextId := w.nextId + 1 + |ops|), Stage(codec, w.tree, ops, w.nextId + 1), w.nextId, w.tree, faults, n);
    }
  }

  lemma {:induction false} WritableIsStaged(codec: Codec, w: World, ops: seq<Operation>, locked: Tree, faults: Faults)
    requires |ops| > 0
    ensures ApplyWritable(codec, w, ops, locked, faults)
         == ApplyStaged(codec, w.(nextId := w.nextId + 1 + |ops|), Stage(codec, w.tree, ops, w.nextId + 1), w.nextId, locked, faults)
  {
  }

  lemma {:induction false} StepKeepsOpen(codec: Codec, w: World, step: Step, n: nat)
    requires OpenBelow(w.journal, n) && n <= w.nextId
    ensures OpenBelow(Next(codec, w, step).journal, n) && n <= Next(codec, w, step).nextId
  {
    match step
    case ApplyStep(plan, faults) => ApplyKeepsOpen(codec, w, Writable(plan), faults, n);
    case RollbackStep(batch, faults) => OpenRefuses(codec, w, batch, faults, n);
  }

  lemma {:induction false} KeepsNextId(codec: Codec, w: World, staged: seq<Staged>, batch: nat, faults: Faults)
    ensures Transact(codec, w, staged, batch, faults).0.nextId == w.nextId
  {
  }

  /** Once a record is left open no run of applies and rollbacks repairs the journal: every
      later rollback, of any batch, is refused before it looks at a file. */
  lemma {:induction false} OpenRecordBlocksForever(codec: Codec, w: World, steps: seq<Step>, batch: nat, faults: RollbackFaults)
    requires Corrupt(w.journal) && Fresh(w.journal, w.nextId)
    ensures var now := After(codec, w, steps).world; Rollback(codec, now, batch, faults) == (now, JournalCorrupt)
  {
    CorruptIsOpen(w.journal, w.nextId);
    StaysOpen(codec, w, steps, w.nextId);
    OpenRefuses(codec, After(codec, w, steps).world, batch, faults, w.nextId);
  }

  lemma {:induction false} StaysOpen(codec: Codec, w: World, steps: seq<Step>, n: nat)
    requires OpenBelow(w.journal, n) && n <= w.nextId
    ensures OpenBelow(After(codec, w, steps).world.journal, n) && n <= After(codec, w, steps).world.nextId
    decreases |steps|
  {
    if steps != [] {
      StaysOpen(codec, w, steps[..|steps| - 1], n);
      StepKeepsOpen(codec, After(codec, w, steps[..|steps| - 1]).world, steps[|steps| - 1], n);
    }
  }
}
