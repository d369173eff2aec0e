/** A `done` with two or more verification commands under one completion lease
    (cli/commands/workbench.ts, executeDoneLocked). */
module DoneRun {
  import opened Wrappers

  datatype Verdict = Passed | NotPassed

  /** How recording a step's evidence ends: with an evidence id, because the run is no
      longer current, or with any other error (a lost lease among them). */
  datatype Recording = Stored(id: string) | Conflict | StoreFailed

  datatype Preparation = Fresh | Recovered(evidenceIds: seq<string>) | PrepareThrows

  /** Everything the lease, the commands and the trusted services decide, step by step. The
      lease may be lost at any moment: `owned` is asked after each run, and each service
      asks the lease itself and throws when it is gone. */
  datatype Environment = Environment(
    preparation: Preparation,
    verdict: nat -> Verdict,
    owned: nat -> bool,
    record: nat -> Recording,
    closeRun: nat -> Option<seq<string>>,   // failVerificationRun: the evidence ids of the ledger, or a throw
    commit: Option<seq<string>>)            // completeVerificationRun: its evidence ids, or a throw

  datatype Event =
    | RunPrepared | CommandRan(step: nat) | OwnershipChecked(step: nat) | OwnershipLost(step: nat)
    | EvidenceStored(step: nat, id: string) | EvidenceRefused(step: nat)
    | RunClosed(step: nat, interrupted: bool) | Committed

  datatype Status = LockLost | StaleConflict | PersistenceFailed | VerificationFailed

  /** Escaped is an exception that leaves executeDoneLocked. */
  datatype Result =
    | Success(evidenceIds: seq<string>)
    | Failure(status: Status, step: nat, evidenceIds: seq<string>)
    | Escaped

  predicate Good(env: Environment, step: nat) {
    env.owned(step) && env.record(step).Stored? && env.verdict(step).Passed?
  }

  function GoodStep(env: Environment, step: nat): seq<Event>
    requires Good(env, step)
  {
    [CommandRan(step), OwnershipChecked(step), EvidenceStored(step, env.record(step).id)]
  }

  /** The events of a step that is not good. */
  function BadStep(env: Environment, step: nat): seq<Event>
    requires !Good(env, step)
  {
    if !env.owned(step) then [CommandRan(step), OwnershipLost(step)]
    else
      [CommandRan(step), OwnershipChecked(step)]
      + (if env.record(step).Stored? then [EvidenceStored(step, env.record(step).id)] else [EvidenceRefused(step)])
      + (if env.closeRun(step).Some? then [RunClosed(step, !env.record(step).Stored?)] else [])
  }

  /** The first step that is not good, or `steps`. */
  function FirstBad(env: Environment, from: nat, steps: nat): (k: nat)
    requires from <= steps
    ensures from <= k <= steps && (k < steps ==> !Good(env, k))
    ensures forall i :: from <= i < k ==> Good(env, i)
    decreases steps - from
  {
    if from < steps && Good(env, from) then FirstBad(env, from + 1, steps) else from
  }

  function GoodSteps(env: Environment, k: nat): seq<Event>
    requires forall i :: 0 <= i < k ==> Good(env, i)
  {
    if k == 0 then [] else GoodSteps(env, k - 1) + GoodStep(env, k - 1)
  }

  function StoredIds(env: Environment, k: nat): seq<string>
    requires forall i :: 0 <= i < k ==> Good(env, i)
  {
    if k == 0 then [] else assert Good(env, k - 1); StoredIds(env, k - 1) + [env.record(k - 1).id]
  }

  function RunLog(env: Environment, steps: nat): seq<Event> {
    match env.preparation
    case PrepareThrows => []
    case Recovered(_) => []
    case Fresh =>
      var k := FirstBad(env, 0, steps);
      [RunPrepared] + GoodSteps(env, k) + Ending(env, steps)
  }

  function RunResult(env: Environment, steps: nat): Result {
    match env.preparation
    case PrepareThrows => Escaped
    case Recovered(ids) => Success(ids)
    case Fresh =>
      var k := FirstBad(env, 0, steps);
      if k == steps then (if env.commit.Some? then Success(env.commit.value) else Escaped)
      else if !env.owned(k) then Failure(LockLost, k, StoredIds(env, k))
      else if env.closeRun(k) == None then Escaped
      else
        var status := if env.record(k).Conflict? then StaleConflict
                      else if env.record(k).StoreFailed? then PersistenceFailed else VerificationFailed;
        Failure(status, k, env.closeRun(k).value)
  }

  class DoneExecution {
    var evidenceIds: seq<string>
    var log: seq<Event>

    constructor ()
      ensures log == [] && evidenceIds == []
    {
      evidenceIds, log := [], [];
    }

    /** Records step `index` after its command ran; the result, if any, ends the run. */
    method RunStep(index: nat, env: Environment) returns (end: Option<Result>)
      modifies this
      ensures Good(env, index) ==>
                && end == None && log == old(log) + GoodStep(env, index)
                && evidenceIds == old(evidenceIds) + [env.record(index).id]
      ensures !Good(env, index) ==>
                && log == old(log) + BadStep(env, index)
                && end == Some(if !env.owned(index) then Failure(LockLost, index, old(evidenceIds))
                               else if env.closeRun(index) == None then Escaped
                               else Failure(if env.record(index).Conflict? then StaleConflict
                                            else if env.record(index).StoreFailed? then PersistenceFailed
                                            else VerificationFailed,
                                            index, env.closeRun(index).value))
    {
      log := log + [CommandRan(index)];
      var verification := env.verdict(index);
      if !env.owned(index) {
        log := log + [OwnershipLost(index)];
        return Some(Failure(LockLost, index, evidenceIds));
      }
      log := log + [OwnershipChecked(index)];
      var evidence := env.record(index);
      if !evidence.Stored? {
        log := log + [EvidenceRefused(index)];
        var interrupted := env.closeRun(index);
        if interrupted == None {
          return Some(Escaped);
        }
        log := log + [RunClosed(index, true)];
        return Some(Failure(if evidence.Conflict? then StaleConflict else PersistenceFailed, index, interrupted.value));
      }
      log := log + [EvidenceStored(index, evidence.id)];
      evidenceIds := evidenceIds + [evidence.id];
      if verification != Passed {
        var failedRun := env.closeRun(index);
        if failedRun == None {
          return Some(Escaped);
        }
        log := log + [RunClosed(index, false)];
        return Some(Failure(VerificationFailed, index, failedRun.value));
      }
      return None;
    }

    method Execute(env: Environment, steps: nat) returns (result: Result)
      requires log == [] && evidenceIds == []
      modifies this
      ensures log == RunLog(env, steps) && result == RunResult(env, steps)
    {
      match env.preparation {
        case PrepareThrows => return Escaped;
        case Recovered(ids) => return Success(ids);
        case Fresh =>
      }
      log := [RunPrepared];
      for index := 0 to steps
        invariant forall i :: 0 <= i < index ==> Good(env, i)
        invariant FirstBad(env, 0, steps) == FirstBad(env, index, steps)
        invariant log == [RunPrepared] + GoodSteps(env, index) && evidenceIds == StoredIds(env, index)
      {
        var end := RunStep(index, env);
        if end.Some? {
          return end.value;
        }
      }
      if env.commit == None {
        return Escaped;
      }
      log := log + [Committed];
      return Success(env.commit.value);
    }
  }

  /** The commands run so far, in order. */
  function CommandsRun(log: seq<Event>): seq<nat> {
    if log == [] then []
    else CommandsRun(log[..|log| - 1]) + (if log[|log| - 1].CommandRan? then [log[|log| - 1].step] else [])
  }

  function Count(log: seq<Event>, e: Event): nat {
    if log == [] then 0 else Count(log[..|log| - 1], e) + (if log[|log| - 1] == e then 1 else 0)
  }

  function UpTo(n: nat): seq<nat> {
    if n == 0 then [] else UpTo(n - 1) + [n - 1]
  }

  lemma {:induction false} CommandsRunAppend(a: seq<Event>, b: seq<Event>)
    ensures CommandsRun(a + b) == CommandsRun(a) + CommandsRun(b)
    decreases |b|
  {
    if b == [] {
      assert a + b == a;
    } else {
      CommandsRunAppend(a, b[..|b| - 1]);
      assert (a + b)[..|a + b| - 1] == a + b[..|b| - 1];
    }
  }

  lemma {:induction false} CountAppend(a: seq<Event>, b: seq<Event>, e: Event)
    ensures Count(a + b, e) == Count(a, e) + Count(b, e)
    decreases |b|
  {
    if b == [] {
      assert a + b == a;
    } else {
      CountAppend(a, b[..|b| - 1], e);
      assert (a + b)[..|a + b| - 1] == a + b[..|b| - 1];
    }
  }

  lemma {:induction false} ShortLog(log: seq<Event>)
    requires log != [] && log[0].CommandRan? && forall i :: 1 <= i < |log| ==> !log[i].CommandRan?
    requires Committed !in log
    ensures CommandsRun(log) == [log[0].step] && Count(log, Committed) == 0
    decreases |log|
  {
    if |log| > 1 {
      ShortLog(log[..|log| - 1]);
    } else {
      assert log[..0] == [];
    }
  }

  lemma {:induction false} OneGoodStep(env: Environment, i: nat)
    requires Good(env, i)
    ensures CommandsRun(GoodStep(env, i)) == [i] && Count(GoodStep(env, i), Committed) == 0
  {
    ShortLog(GoodStep(env, i));
  }

  lemma {:induction false} GoodStepsRun(env: Environment, k: nat)
    requires forall i :: 0 <= i < k ==> Good(env, i)
    ensures CommandsRun(GoodSteps(env, k)) == UpTo(k) && Count(GoodSteps(env, k), Committed) == 0
    decreases k
  {
    if k > 0 {
      GoodStepsRun(env, k - 1);
      OneGoodStep(env, k - 1);
      CommandsRunAppend(GoodSteps(env, k - 1), GoodStep(env, k - 1));
      CountAppend(GoodSteps(env, k - 1), GoodStep(env, k - 1), Committed);
    }
  }

  /** What comes after the good steps. */
  function Ending(env: Environment, steps: nat): seq<Event> {
    var k := FirstBad(env, 0, steps);
    if k < steps then BadStep(env, k) else if env.commit.Some? then [Committed] else []
  }

  lemma EndingRuns(env: Environment, steps: nat)
    ensures var k := FirstBad(env, 0, steps);
            && CommandsRun(Ending(env, steps)) == (if k < steps then [k] else [])
            && Count(Ending(env, steps), Committed) == (if k == steps && env.commit.Some? then 1 else 0)
            && (Committed in Ending(env, steps) <==> k == steps && env.commit.Some?)
  {
    var k := FirstBad(env, 0, steps);
    if k < steps {
      ShortLog(BadStep(env, k));
    } else {
      assert [Committed][..0] == [];
    }
  }

  /** The commands run are an initial part of the list, in order, and none runs after the
      first step that lost the lease, could not be recorded, or did not pass. */
  lemma RunsUpToFirstBad(env: Environment, steps: nat)
    requires env.preparation.Fresh?
    ensures var k := FirstBad(env, 0, steps);
            CommandsRun(RunLog(env, steps)) == UpTo(if k < steps then k + 1 else steps)
    ensures Count(RunLog(env, steps), Committed) ==
            if FirstBad(env, 0, steps) == steps && env.commit.Some? then 1 else 0
  {
    var k := FirstBad(env, 0, steps);
    GoodStepsRun(env, k);
    EndingRuns(env, steps);
    Joined(GoodSteps(env, k), Ending(env, steps));
  }

  lemma Joined(middle: seq<Event>, last: seq<Event>)
    ensures CommandsRun([RunPrepared] + middle + last) == CommandsRun(middle) + CommandsRun(last)
    ensures Count([RunPrepared] + middle + last, Committed) == Count(middle, Committed) + Count(last, Committed)
  {
    assert [RunPrepared][..0] == [];
    CommandsRunAppend([RunPrepared] + middle, last);
    CommandsRunAppend([RunPrepared], middle);
    CountAppend([RunPrepared] + middle, last, Committed);
    CountAppend([RunPrepared], middle, Committed);
    assert [] + CommandsRun(middle) == CommandsRun(middle);
  }

  /** The completion is committed exactly when every step kept the lease, had its evidence
      stored and passed, and the commit itself succeeds; then the log is the steps in
      order, each with its ownership check and its evidence before the next command. */
  lemma CommittedIff(env: Environment, steps: nat)
    ensures Committed in RunLog(env, steps) <==>
            env.preparation.Fresh? && env.commit.Some? && forall i :: 0 <= i < steps ==> Good(env, i)
    ensures Committed in RunLog(env, steps) ==>
              RunLog(env, steps) == [RunPrepared] + GoodSteps(env, steps) + [Committed]
  {
    if env.preparation.Fresh? {
      GoodStepsNeverCommit(env, FirstBad(env, 0, steps));
      EndingRuns(env, steps);
    }
  }

  lemma {:induction false} GoodStepsNeverCommit(env: Environment, k: nat)
    requires forall i :: 0 <= i < k ==> Good(env, i)
    ensures Committed !in GoodSteps(env, k)
  {
    if k > 0 {
      GoodStepsNeverCommit(env, k - 1);
    }
  }

  /** A fresh run reports success exactly when it committed. */
  lemma SuccessIffCommitted(env: Environment, steps: nat)
    requires env.preparation.Fresh?
    ensures RunResult(env, steps).Success? <==> Committed in RunLog(env, steps)
  {
    CommittedIff(env, steps);
  }

  // ----- The answer and the log, told over the environment alone

  /** A fresh run gets to step `i`: all steps before kept the lease, had their evidence stored
      and passed. */
  predicate Reaches(env: Environment, i: nat) {
    env.preparation.Fresh? && forall j :: 0 <= j < i ==> env.owned(j) && env.record(j).Stored? && env.verdict(j).Passed?
  }

  /** The answer of the step at which the run stops, with the evidence ids of that answer. */
  predicate StopsWith(env: Environment, i: nat, status: Status, ids: seq<string>) {
    if !env.owned(i) then
      status.LockLost? && |ids| == i && forall j :: 0 <= j < i ==> env.record(j) == Stored(ids[j])
    else
      && env.closeRun(i) == Some(ids)
      && match env.record(i)
         case Conflict => status.StaleConflict?
         case StoreFailed => status.PersistenceFailed?
         case Stored(_) => !env.verdict(i).Passed? && status.VerificationFailed?
  }

  lemma {:induction false} FirstBadIs(env: Environment, steps: nat, i: nat)
    requires env.preparation.Fresh? && i <= steps
    ensures Reaches(env, i) <==> i <= FirstBad(env, 0, steps)
    ensures Reaches(env, i) <==> forall j :: 0 <= j < i ==> Good(env, j)
  {
    var k := FirstBad(env, 0, steps);
    if i > k { assert !Good(env, k); }
    forall j | 0 <= j < i && Good(env, j) ensures env.owned(j) && env.record(j).Stored? && env.verdict(j).Passed? { }
    if Reaches(env, i) { forall j | 0 <= j < i ensures Good(env, j) { assert env.owned(j); } }
    if i <= k { forall j | 0 <= j < i ensures env.owned(j) && env.record(j).Stored? && env.verdict(j).Passed? { assert Good(env, j); } }
  }

  lemma {:induction false} StoredIdsAre(env: Environment, k: nat)
    requires forall i :: 0 <= i < k ==> Good(env, i)
    ensures |StoredIds(env, k)| == k && forall i :: 0 <= i < k ==> env.record(i) == Stored(StoredIds(env, k)[i])
  {
    if k > 0 {
      assert Good(env, k - 1);
      StoredIdsAre(env, k - 1);
      assert env.record(k - 1) == Stored(env.record(k - 1).id);
    }
  }

  /** Success carries the ids that were recovered or committed. */
  lemma {:induction false} SuccessIff(env: Environment, steps: nat, ids: seq<string>)
    ensures RunResult(env, steps) == Success(ids) <==>
            env.preparation == Recovered(ids) || (Reaches(env, steps) && env.commit == Some(ids))
  {
    if env.preparation.Fresh? { FirstBadIs(env, steps, steps); }
  }

  /** A failure names the first step that did not go well, its own reason, and the ids stored
      before it or listed by the ledger. */
  lemma {:induction false} FailureIff(env: Environment, steps: nat, status: Status, i: nat, ids: seq<string>)
    ensures RunResult(env, steps) == Failure(status, i, ids) <==> i < steps && Reaches(env, i) && StopsWith(env, i, status, ids)
  {
    if env.preparation.Fresh? && i < steps {
      var k := FirstBad(env, 0, steps);
      FirstBadIs(env, steps, i);
      FirstBadIs(env, steps, i + 1);
      StoredIdsAre(env, k);
      if i < k { assert Good(env, i); }
      if !env.owned(i) && StopsWith(env, i, status, ids) && i == k { assert ids == StoredIds(env, k); }
    }
  }

  /** An exception escapes when the run cannot be prepared, completed or closed. */
  lemma {:induction false} EscapedIff(env: Environment, steps: nat)
    ensures RunResult(env, steps) == Escaped <==>
            || env.preparation.PrepareThrows?
            || (Reaches(env, steps) && env.commit == None)
            || exists i :: 0 <= i < steps && Reaches(env, i) && !Reaches(env, i + 1) && env.owned(i) && env.closeRun(i) == None
  {
    if env.preparation.Fresh? {
      var k := FirstBad(env, 0, steps);
      FirstBadIs(env, steps, steps);
      FirstBadIs(env, steps, k);
      if k < steps { FirstBadIs(env, steps, k + 1); }
      forall i | 0 <= i < steps && Reaches(env, i) && !Reaches(env, i + 1) ensures i == k {
        FirstBadIs(env, steps, i);
        FirstBadIs(env, steps, i + 1);
      }
    }
  }

  /** The event has happened, told over the environment. */
  predicate Happens(env: Environment, steps: nat, e: Event) {
    match e
    case RunPrepared => env.preparation.Fresh?
    case Committed => Reaches(env, steps) && env.commit.Some?
    case CommandRan(i) => i < steps && Reaches(env, i)
    case OwnershipChecked(i) => i < steps && Reaches(env, i) && env.owned(i)
    case OwnershipLost(i) => i < steps && Reaches(env, i) && !env.owned(i)
    case EvidenceStored(i, id) => i < steps && Reaches(env, i) && env.owned(i) && env.record(i) == Stored(id)
    case EvidenceRefused(i) => i < steps && Reaches(env, i) && env.owned(i) && !env.record(i).Stored?
    case RunClosed(i, interrupted) =>
      && i < steps && Reaches(env, i) && env.owned(i) && env.closeRun(i).Some?
      && (if interrupted then !env.record(i).Stored? else env.record(i).Stored? && !env.verdict(i).Passed?)
  }

  /** The place of an event in the order of a run. */
  function Place(steps: nat, e: Event): nat {
    match e
    case RunPrepared => 0
    case CommandRan(i) => 4 * i + 1
    case OwnershipChecked(i) => 4 * i + 2
    case OwnershipLost(i) => 4 * i + 2
    case EvidenceStored(i, _) => 4 * i + 3
    case EvidenceRefused(i) => 4 * i + 3
    case RunClosed(i, _) => 4 * i + 4
    case Committed => 4 * steps + 1
  }

  predicate InPlace(steps: nat, log: seq<Event>, low: nat, high: nat) {
    && (forall i :: 0 <= i < |log| ==> low <= Place(steps, log[i]) < high)
    && (forall i, j :: 0 <= i < j < |log| ==> Place(steps, log[i]) < Place(steps, log[j]))
  }

  lemma {:induction false} InPlaceJoined(steps: nat, a: seq<Event>, b: seq<Event>, low: nat, middle: nat, high: nat)
    requires InPlace(steps, a, low, middle) && InPlace(steps, b, middle, high) && low <= middle <= high
    ensures InPlace(steps, a + b, low, high)
  {
  }

  lemma {:induction false} GoodStepsInPlace(env: Environment, steps: nat, k: nat)
    requires forall i :: 0 <= i < k ==> Good(env, i)
    ensures InPlace(steps, GoodSteps(env, k), 1, 4 * k + 1)
    decreases k
  {
    if k > 0 {
      assert Good(env, k - 1);
      GoodStepsInPlace(env, steps, k - 1);
      InPlaceJoined(steps, GoodSteps(env, k - 1), GoodStep(env, k - 1), 1, 4 * k - 3, 4 * k + 1);
    }
  }

  lemma {:induction false} GoodStepsHold(env: Environment, k: nat, e: Event)
    requires forall i :: 0 <= i < k ==> Good(env, i)
    ensures e in GoodSteps(env, k) <==> InGoodSteps(env, k, e)
    decreases k
  {
    if k > 0 {
      assert Good(env, k - 1);
      GoodStepsHold(env, k - 1, e);
    }
  }

  predicate InGoodSteps(env: Environment, k: nat, e: Event) {
    match e
    case CommandRan(i) => i < k
    case OwnershipChecked(i) => i < k
    case EvidenceStored(i, id) => i < k && env.record(i) == Stored(id)
    case _ => false
  }

  lemma {:induction false} EndingInPlace(env: Environment, steps: nat)
    requires env.preparation.Fresh?
    ensures InPlace(steps, Ending(env, steps), 4 * FirstBad(env, 0, steps) + 1, 4 * steps + 2)
  {
  }

  lemma {:induction false} EndingHolds(env: Environment, steps: nat, e: Event)
    requires env.preparation.Fresh?
    ensures var k := FirstBad(env, 0, steps);
            e in Ending(env, steps) <==>
            match e
            case RunPrepared => false
            case Committed => k == steps && env.commit.Some?
            case CommandRan(i) => i == k < steps
            case OwnershipChecked(i) => i == k < steps && env.owned(i)
            case OwnershipLost(i) => i == k < steps && !env.owned(i)
            case EvidenceStored(i, id) => i == k < steps && env.owned(i) && env.record(i) == Stored(id)
            case EvidenceRefused(i) => i == k < steps && env.owned(i) && !env.record(i).Stored?
            case RunClosed(i, interrupted) =>
              i == k < steps && env.owned(i) && env.closeRun(i).Some? && interrupted == !env.record(i).Stored?
  {
  }

  /** The log is exactly what happens, each event once and in its place. */
  lemma {:induction false} LogTells(env: Environment, steps: nat, e: Event)
    ensures InPlace(steps, RunLog(env, steps), 0, 4 * steps + 2)
    ensures e in RunLog(env, steps) <==> Happens(env, steps, e)
  {
    if env.preparation.Fresh? {
      var k := FirstBad(env, 0, steps);
      GoodStepsInPlace(env, steps, k);
      EndingInPlace(env, steps);
      InPlaceJoined(steps, [RunPrepared], GoodSteps(env, k), 0, 1, 4 * k + 1);
      InPlaceJoined(steps, [RunPrepared] + GoodSteps(env, k), Ending(env, steps), 0, 4 * k + 1, 4 * steps + 2);
      GoodStepsHold(env, k, e);
      EndingHolds(env, steps, e);
      HappensIff(env, steps, e);
    }
  }

  lemma {:induction false} HappensIff(env: Environment, steps: nat, e: Event)
    requires env.preparation.Fresh?
    ensures Happens(env, steps, e) <==> e == RunPrepared || InGoodSteps(env, FirstBad(env, 0, steps), e) || e in Ending(env, steps)
  {
    var k := FirstBad(env, 0, steps);
    EndingHolds(env, steps, e);
    FirstBadIs(env, steps, steps);
    match e {
      case RunPrepared =>
      case Committed =>
      case CommandRan(i) => StepHappens(env, steps, i);
      case OwnershipChecked(i) => StepHappens(env, steps, i);
      case OwnershipLost(i) => StepHappens(env, steps, i);
      case EvidenceStored(i, _) => StepHappens(env, steps, i);
      case EvidenceRefused(i) => StepHappens(env, steps, i);
      case RunClosed(i, _) => StepHappens(env, steps, i);
    }
  }

  lemma {:induction false} StepHappens(env: Environment, steps: nat, i: nat)
    requires env.preparation.Fresh?
    ensures var k := FirstBad(env, 0, steps);
            && (i < steps && Reaches(env, i) <==> i < k || i == k < steps)
            && (i < k ==> env.owned(i) && env.record(i).Stored? && env.verdict(i).Passed?)
            && (i == k < steps ==> !(env.owned(i) && env.record(i).Stored? && env.verdict(i).Passed?))
  {
    if i < steps { FirstBadIs(env, steps, i); }
    if i < FirstBad(env, 0, steps) { assert Good(env, i); }
  }
}
