/** What becomes of a finished `done` when its completion lease is given up: the finally
    block of the lock (cli/services/workbench/completion-lock.ts) and what the command then
    reports (cli/commands/workbench.ts, runDoneCommand). */
module DoneRelease {
  import opened DoneRun

  /** How the action under the lock ends: executeDoneLocked returns, throws the lost lock with
      its result inside, or throws anything else. */
  datatype ActionEnd = Returned(result: Result) | LockLostThrown(result: Result) | Threw

  /** A step that says yes, says no, or throws. */
  datatype Answer = Yes | No | Throws

  /** The unlink: done, declined, or ended by a descriptor that does not close, before or after
      the file is gone. */
  datatype Unlink = Unlinked | Declined | Interrupted(gone: bool)

  /** The steps after the action: do the lock file, its generation and the fence still name
      this owner; does writing the probe return; is the probe read back; is the lock file
      unlinked; do the two descriptors close. `lostBefore` is a loss that the heartbeat or a
      service has noticed. */
  datatype ReleaseFaults = ReleaseFaults(
    lostBefore: bool, owned: Answer, probeWritten: bool, readBack: Answer, unlink: Unlink,
    fenceCloses: bool, ownerCloses: bool)

  /** Every step up to the unlink went well. */
  predicate Freed(lost: bool, f: ReleaseFaults) {
    !lost && f.owned.Yes? && f.probeWritten && f.readBack.Yes? && f.unlink.Unlinked?
  }

  /** The lock file is gone, in order or not. */
  predicate Gone(lost: bool, f: ReleaseFaults) {
    && !lost && f.owned.Yes? && f.probeWritten && f.readBack.Yes?
    && (f.unlink.Unlinked? || (f.unlink.Interrupted? && f.unlink.gone))
  }

  /** What leaves the lock: an exception of a closing descriptor comes before everything, an
      error of the action before a lost lock, and a lost lock before a result. */
  function Released(end: ActionEnd, lost: bool, f: ReleaseFaults): ActionEnd {
    if !f.fenceCloses || !f.ownerCloses then Threw
    else if end.Returned? && !Freed(lost, f) then Threw
    else end
  }

  class TaskLease {
    var lost: bool
    var lockFile: bool
    var fenceTried: bool
    var ownerTried: bool

    constructor (lostBefore: bool)
      ensures lost == lostBefore && lockFile && !fenceTried && !ownerTried
    {
      lost, lockFile, fenceTried, ownerTried := lostBefore, true, false, false;
    }

    /** Once lost, a lease stays lost. */
    method AssertOwned(owned: Answer) returns (ok: bool)
      modifies this`lost
      ensures ok == (!old(lost) && owned.Yes?) && lost == !ok
    {
      if lost || !owned.Yes? {
        lost := true;
        return false;
      }
      return true;
    }

    /** Writes the probe, reads it back and unlinks the lock file; returns whether the lease
        was given up in order and whether an exception ended it. */
    method GiveUp(f: ReleaseFaults) returns (stillOwned: bool, thrown: bool)
      requires !lost && lockFile
      modifies this`lost, this`lockFile
      ensures f.owned.Yes? ==> stillOwned == Freed(false, f) && lockFile == !Gone(false, f)
      ensures lost == !stillOwned
      ensures thrown ==> !stillOwned
    {
      if !f.probeWritten || f.readBack.Throws? {
        lost := true;
        return false, true;
      }
      if f.readBack.No? {
        lost := true;
        return false, false;
      }
      lockFile := f.unlink.Declined? || (f.unlink.Interrupted? && !f.unlink.gone);
      lost := !f.unlink.Unlinked?;
      return !lost, f.unlink.Interrupted?;
    }

    /** The finally block and what follows it. */
    method Release(end: ActionEnd, f: ReleaseFaults) returns (r: ActionEnd)
      requires lockFile
      modifies this
      ensures r == Released(end, old(lost), f)
      ensures lockFile == !Gone(old(lost), f) && fenceTried && ownerTried
    {
      var actionError := !end.Returned?;
      r := end;
      var stillOwned := AssertOwned(f.owned);
      if stillOwned {
        var thrown;
        stillOwned, thrown := GiveUp(f);
        if thrown && !actionError {
          r, actionError := Threw, true;
        }
      }
      fenceTried := true;
      ownerTried := true;
      if !f.fenceCloses || !f.ownerCloses {
        return Threw;
      }
      if !stillOwned && !actionError {
        r := Threw;
      }
    }
  }

  // ----- The whole command

  function EndOf(result: Result): ActionEnd {
    match result
    case Success(_) => Returned(result)
    case Failure(status, _, _) => if status.LockLost? then LockLostThrown(result) else Returned(result)
    case Escaped => Threw
  }

  /** What the command shows: a result, also the one inside the thrown lost lock, or an error. */
  datatype Report = Shown(result: Result) | ErrorShown

  function Reported(end: ActionEnd): Report {
    match end
    case Returned(result) => Shown(result)
    case LockLostThrown(result) => Shown(result)
    case Threw => ErrorShown
  }

  /** The lease was lost before the action ended. */
  predicate Lost(env: Environment, steps: nat, f: ReleaseFaults) {
    f.lostBefore || EndOf(RunResult(env, steps)).LockLostThrown?
  }

  function Done(env: Environment, steps: nat, f: ReleaseFaults): Report {
    Reported(Released(EndOf(RunResult(env, steps)), Lost(env, steps, f), f))
  }

  method RunDone(env: Environment, steps: nat, f: ReleaseFaults) returns (report: Report, log: seq<Event>, gone: bool)
    ensures report == Done(env, steps, f) && log == RunLog(env, steps) && gone == Gone(Lost(env, steps, f), f)
  {
    var execution := new DoneExecution();
    var result := execution.Execute(env, steps);
    var end := EndOf(result);
    var lease := new TaskLease(f.lostBefore || end.LockLostThrown?);
    end := lease.Release(end, f);
    return Reported(end), execution.log, !lease.lockFile;
  }

  // ----- What a report tells

  /** Nobody noticed a loss, the lock still names this owner, the probe was written and read
      back, and the lock file unlinked. */
  predicate InOrder(f: ReleaseFaults) {
    !f.lostBefore && f.owned.Yes? && f.probeWritten && f.readBack.Yes? && f.unlink.Unlinked?
  }

  /** What the command shows, whatever ran: nothing but an error when a descriptor does not
      close or an exception escaped; a lost lock with its result; and any other result exactly
      when the lease was given up in order. */
  lemma {:induction false} ShownIff(env: Environment, steps: nat, f: ReleaseFaults)
    ensures var result := RunResult(env, steps);
            && (Done(env, steps, f) == Shown(result) <==>
                  && f.fenceCloses && f.ownerCloses && !result.Escaped?
                  && (InOrder(f) || (result.Failure? && result.status.LockLost?)))
            && (Done(env, steps, f) != Shown(result) ==> Done(env, steps, f) == ErrorShown)
  {
  }

  /** A fresh run shows success only when it committed. A commit is shown, with the ids it
      returned, exactly when every step of the release went well; in every other case the
      command shows an error although the completion is committed. */
  lemma {:induction false} CommitUnreportedIff(env: Environment, steps: nat, f: ReleaseFaults)
    requires env.preparation.Fresh?
    ensures var report := Done(env, steps, f);
            && (report.Shown? && report.result.Success? ==> Committed in RunLog(env, steps))
            && (Committed in RunLog(env, steps) ==>
                  && env.commit.Some?
                  && report == if InOrder(f) && f.fenceCloses && f.ownerCloses then Shown(Success(env.commit.value)) else ErrorShown)
  {
    SuccessIffCommitted(env, steps);
    ShownIff(env, steps, f);
  }

  /** Whatever the action did, also when it failed or its exception escaped, the lock file is
      gone exactly when no verification step lost the lease and the release got through its
      unlink; it can be gone although the command shows an error. */
  lemma {:induction false} LockFileGoneIff(env: Environment, steps: nat, f: ReleaseFaults)
    ensures Gone(Lost(env, steps, f), f) <==>
            && !(exists i :: 0 <= i < steps && Reaches(env, i) && !env.owned(i))
            && !f.lostBefore && f.owned.Yes? && f.probeWritten && f.readBack.Yes?
            && (f.unlink == Unlinked || f.unlink == Interrupted(true))
  {
    if env.preparation.Fresh? {
      var k := FirstBad(env, 0, steps);
      FirstBadIs(env, steps, k);
      forall i | 0 <= i < steps && Reaches(env, i) && !env.owned(i) ensures i == k {
        FirstBadIs(env, steps, i);
      }
    }
  }
}
