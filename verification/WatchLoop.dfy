/** The debounced watcher (cli/commands/pstr.ts, runPstrWatch). */
module WatchLoop {
  import opened Wrappers

  datatype CycleEvent = Change | Resync

  /** One call of the rebuild cycle: its event and the changed paths handed to it. */
  datatype Report = Report(event: CycleEvent, paths: set<string>)

  /** What happens when the watchers are set anew: an exception before any handle is
      created (no target is left), one after `count` handles, or `count` handles opened. */
  datatype Refresh = NoTargets | OpenFails(count: nat) | Opens(count: nat)

  /** What the environment makes of one flush. */
  datatype Cycle = CycleThrows | CycleRuns(refresh: Refresh, emitThrows: bool)

  /** A callback of the event loop. A notification without a path is a rename, one without
      a file name, or one whose path is not inside the project. */
  datatype Callback =
    | Notify(handle: nat, path: Option<string>)
    | WatchError(handle: nat)
    | TimerFires(cycle: Cycle)
    | Signal

  /** The variables of the closure, the handles ever opened (0..created) and those closed. */
  datatype State = State(
    watchers: seq<nat>, pending: set<string>, timer: bool, unknown: bool, settled: bool, handlers: bool,
    created: nat, closed: set<nat>, reports: seq<Report>, exits: seq<int>)

  const IDLE := State([], {}, false, false, false, false, 0, {}, [], [])

  function Range(from: nat, count: nat): (r: seq<nat>)
    ensures |r| == count && forall i :: 0 <= i < count ==> r[i] == from + i
  {
    if count == 0 then [] else Range(from, count - 1) + [from + count - 1]
  }

  function Members(s: seq<nat>): set<nat> {
    set h | h in s
  }

  predicate IsOpen(s: State, h: nat) {
    h < s.created && h !in s.closed
  }

  function Cleanup(s: State): State {
    s.(timer := false, closed := s.closed + Members(s.watchers), handlers := false)
  }

  function Settle(s: State, exitCode: int): State {
    if s.settled then s
    else
      var cleaned := Cleanup(s.(settled := true));
      cleaned.(exits := cleaned.exits + [exitCode])
  }

  function Fail(s: State): State {
    Settle(s, 2)
  }

  function ScheduleFlush(s: State): State {
    s.(timer := true)
  }

  function Handle(s: State, path: Option<string>): State {
    if path == None then ScheduleFlush(s.(unknown := true))
    else ScheduleFlush(s.(pending := s.pending + {path.value}))
  }

  /** The new state and whether an exception leaves it. */
  function SetWatchers(s: State, refresh: Refresh): (State, bool) {
    match refresh
    case NoTargets => (s, true)
    case OpenFails(count) =>
      (s.(created := s.created + count, closed := s.closed + Members(Range(s.created, count))), true)
    case Opens(count) =>
      (s.(created := s.created + count, closed := s.closed + Members(s.watchers), watchers := Range(s.created, count)),
       false)
  }

  /** The try block of a flush: the state it leaves and whether an exception is caught. */
  function Cycled(s: State, cycle: Cycle): (State, bool) {
    var event := if s.unknown || s.pending == {} then Resync else Change;
    var called := s.(timer := false, pending := {}, reports := s.reports + [Report(event, s.pending)]);
    if cycle.CycleThrows? then (called, true)
    else
      var known := called.(unknown := false);
      var (refreshed, thrown) := if event == Change then (known, false) else SetWatchers(known, cycle.refresh);
      (refreshed, thrown || cycle.emitThrows)
  }

  function Flush(s: State, cycle: Cycle): State {
    var (cycled, caught) := Cycled(s, cycle);
    if caught then Fail(cycled) else cycled
  }

  function Start(refresh: Refresh): State {
    var (s, thrown) := SetWatchers(IDLE, refresh);
    if thrown then Fail(s) else s.(handlers := true)
  }

  /** A callback runs only when it can: a closed handle delivers nothing, a cleared timer
      does not fire, a removed signal handler is not called. */
  predicate Runs(s: State, c: Callback) {
    match c
    case Notify(h, _) => IsOpen(s, h)
    case WatchError(h) => IsOpen(s, h)
    case TimerFires(_) => s.timer
    case Signal => s.handlers
  }

  function Step(s: State, c: Callback): State {
    if !Runs(s, c) then s
    else match c
      case Notify(_, path) => Handle(s, path)
      case WatchError(_) => Fail(s)
      case TimerFires(cycle) => Flush(s, cycle)
      case Signal => Settle(s, 0)
  }

  function After(refresh: Refresh, callbacks: seq<Callback>): State {
    if callbacks == [] then Start(refresh)
    else Step(After(refresh, callbacks[..|callbacks| - 1]), callbacks[|callbacks| - 1])
  }

  /** What holds between callbacks. */
  ghost predicate Inv(s: State) {
    && (forall h :: h in s.watchers ==> h < s.created)
    && (forall h :: h in s.closed ==> h < s.created)
    && (!s.settled ==>
          && (s.timer <==> s.pending != {} || s.unknown)
          && (forall h :: IsOpen(s, h) ==> h in s.watchers) && s.handlers && s.exits == [])
    && (s.settled ==>
          && !s.timer && !s.handlers && |s.exits| == 1 && forall h :: !IsOpen(s, h))
  }

  /** The closure and its callbacks, as they update the variables. */
  class PstrWatch {
    var watchers: seq<nat>
    var pendingPaths: set<string>
    var debounceTimer: bool
    var unknownState: bool
    var settled: bool
    var handlers: bool
    var created: nat
    var closed: set<nat>
    var reports: seq<Report>
    var exits: seq<int>

    function View(): State
      reads this
    {
      State(watchers, pendingPaths, debounceTimer, unknownState, settled, handlers, created, closed, reports, exits)
    }

    constructor (refresh: Refresh)
      ensures View() == Start(refresh)
    {
      watchers, pendingPaths, debounceTimer, unknownState := [], {}, false, false;
      settled, handlers, created, closed, reports, exits := false, false, 0, {}, [], [];
      new;
      var thrown := RefreshWatchers(refresh);
      if thrown {
        FailNow();
      } else {
        handlers := true;
      }
    }

    method CleanupNow()
      modifies this
      ensures View() == Cleanup(old(View()))
    {
      if debounceTimer {
        debounceTimer := false;
      }
      CloseAll(watchers);
      handlers := false;
    }

    method CloseAll(handles: seq<nat>)
      modifies this`closed
      ensures closed == old(closed) + Members(handles)
    {
      for i := 0 to |handles|
        invariant closed == old(closed) + Members(handles[..i])
      {
        closed := closed + {handles[i]};
        assert handles[..i + 1] == handles[..i] + [handles[i]];
      }
      assert handles[..|handles|] == handles;
    }

    method SettleNow(exitCode: int)
      modifies this
      ensures View() == Settle(old(View()), exitCode)
    {
      if settled {
        return;
      }
      settled := true;
      CleanupNow();
      exits := exits + [exitCode];
    }

    method FailNow()
      modifies this
      ensures View() == Fail(old(View()))
    {
      if settled {
        return;
      }
      SettleNow(2);
    }

    /** Opens the handles one by one; returns whether an exception leaves it. */
    method RefreshWatchers(refresh: Refresh) returns (thrown: bool)
      modifies this
      ensures (View(), thrown) == SetWatchers(old(View()), refresh)
    {
      if refresh.NoTargets? {
        return true;
      }
      var nextWatchers: seq<nat> := [];
      for i := 0 to refresh.count
        invariant nextWatchers == Range(old(created), i)
        invariant View() == old(View()).(created := old(created) + i)
      {
        nextWatchers := nextWatchers + [created];
        created := created + 1;
      }
      if refresh.OpenFails? {
        CloseAll(nextWatchers);
        return true;
      }
      CloseAll(watchers);
      watchers := nextWatchers;
      return false;
    }

    method HandleWatchEvent(path: Option<string>)
      modifies this
      ensures View() == Handle(old(View()), path)
    {
      if path == None {
        unknownState := true;
      } else {
        pendingPaths := pendingPaths + {path.value};
      }
      debounceTimer := true;
    }

    method FlushNow(cycle: Cycle)
      modifies this
      ensures View() == Flush(old(View()), cycle)
    {
      debounceTimer := false;
      var changedPaths := pendingPaths;
      pendingPaths := {};
      var event := if unknownState || changedPaths == {} then Resync else Change;
      reports := reports + [Report(event, changedPaths)];
      if cycle.CycleThrows? {
        FailNow();
        return;
      }
      unknownState := false;
      if event != Change {
        var thrown := RefreshWatchers(cycle.refresh);
        if thrown {
          FailNow();
          return;
        }
      }
      if cycle.emitThrows {
        FailNow();
      }
    }

    /** The event loop runs one callback. */
    method RunCallback(c: Callback)
      modifies this
      ensures View() == Step(old(View()), c)
      ensures old(Inv(View())) ==> Inv(View())
    {
      StepKeepsInv(View(), c);
      if !Runs(View(), c) {
        return;
      }
      match c {
        case Notify(_, path) => HandleWatchEvent(path);
        case WatchError(_) => FailNow();
        case TimerFires(cycle) => FlushNow(cycle);
        case Signal => SettleNow(0);
      }
    }
  }

  lemma SettleKeepsInv(s: State, exitCode: int)
    requires !s.settled && s.exits == []
    requires forall h :: h in s.watchers ==> h < s.created
    requires forall h :: h in s.closed ==> h < s.created
    requires forall h :: IsOpen(s, h) ==> h in s.watchers
    ensures Inv(Settle(s, exitCode)) && Settle(s, exitCode).settled
  {
  }

  lemma SetWatchersKeepsHandles(s: State, refresh: Refresh)
    requires forall h :: h in s.watchers ==> h < s.created
    requires forall h :: h in s.closed ==> h < s.created
    requires forall h :: IsOpen(s, h) ==> h in s.watchers
    ensures var next := SetWatchers(s, refresh).0;
            && (forall h :: h in next.watchers ==> h < next.created)
            && (forall h :: h in next.closed ==> h < next.created)
            && (forall h :: IsOpen(next, h) ==> h in next.watchers)
            && next.pending == s.pending && next.unknown == s.unknown && next.timer == s.timer
            && next.settled == s.settled && next.handlers == s.handlers && next.exits == s.exits
            && next.reports == s.reports
  {
    if !refresh.NoTargets? {
      var added := Range(s.created, refresh.count);
      forall h | s.created <= h < s.created + refresh.count ensures h in added {
        assert added[h - s.created] == h;
      }
    }
  }

  lemma StepKeepsInv(s: State, c: Callback)
    ensures Inv(s) ==> Inv(Step(s, c))
  {
    if Inv(s) && Runs(s, c) {
      match c {
        case Notify(_, _) =>
        case WatchError(_) => SettleKeepsInv(s, 2);
        case TimerFires(cycle) => FlushKeepsInv(s, cycle);
        case Signal => SettleKeepsInv(s, 0);
      }
    }
  }

  lemma FlushKeepsInv(s: State, cycle: Cycle)
    requires Inv(s) && s.timer
    ensures Inv(Flush(s, cycle))
  {
    var event := if s.unknown || s.pending == {} then Resync else Change;
    var called := s.(timer := false, pending := {}, reports := s.reports + [Report(event, s.pending)]);
    if cycle.CycleThrows? {
      SettleKeepsInv(called, 2);
    } else {
      var known := called.(unknown := false);
      SetWatchersKeepsHandles(known, cycle.refresh);
      var (refreshed, thrown) := if event == Change then (known, false) else SetWatchers(known, cycle.refresh);
      if thrown || cycle.emitThrows {
        SettleKeepsInv(refreshed, 2);
      }
    }
  }

  /** In every reachable state: while unsettled the timer is armed exactly when something
      is pending, and no handle but the current ones is open; once settled there is one
      exit code, no timer, no signal handler and no open handle. */
  lemma {:induction false} ReachableInv(refresh: Refresh, callbacks: seq<Callback>)
    ensures Inv(After(refresh, callbacks))
    decreases |callbacks|
  {
    if callbacks == [] {
      SetWatchersKeepsHandles(IDLE, refresh);
      var (s, thrown) := SetWatchers(IDLE, refresh);
      if thrown {
        SettleKeepsInv(s, 2);
      }
    } else {
      ReachableInv(refresh, callbacks[..|callbacks| - 1]);
      StepKeepsInv(After(refresh, callbacks[..|callbacks| - 1]), callbacks[|callbacks| - 1]);
    }
  }

  /** Settling is final: no callback changes anything any more. */
  lemma {:induction false} SettledForGood(refresh: Refresh, callbacks: seq<Callback>, k: nat)
    requires k <= |callbacks| && After(refresh, callbacks[..k]).settled
    ensures After(refresh, callbacks) == After(refresh, callbacks[..k])
    decreases |callbacks|
  {
    if k == |callbacks| {
      assert callbacks[..k] == callbacks;
    } else {
      var init := callbacks[..|callbacks| - 1];
      assert init[..k] == callbacks[..k];
      SettledForGood(refresh, init, k);
      ReachableInv(refresh, init);
    }
  }

  predicate IsFlush(c: Callback) {
    c.TimerFires?
  }

  /** A notification delivered at position `i` is still pending at position `j`, when no
      flush ran in between. */
  lemma {:induction false} StaysPending(refresh: Refresh, callbacks: seq<Callback>, i: nat, j: nat)
    requires i < j <= |callbacks| && callbacks[i].Notify?
    requires Runs(After(refresh, callbacks[..i]), callbacks[i])
    requires forall k :: i < k < j ==> !(IsFlush(callbacks[k]) && Runs(After(refresh, callbacks[..k]), callbacks[k]))
    ensures var s := After(refresh, callbacks[..j]);
            if callbacks[i].path == None then s.unknown else callbacks[i].path.value in s.pending
    decreases j
  {
    assert callbacks[..j][..j - 1] == callbacks[..j - 1] && callbacks[..j][j - 1] == callbacks[j - 1];
    if j > i + 1 {
      StaysPending(refresh, callbacks, i, j - 1);
    }
  }

  /** Every delivered notification is covered by the next flush: its path is listed, or
      the whole index is rebuilt. */
  lemma {:induction false} NextFlushCovers(refresh: Refresh, callbacks: seq<Callback>, i: nat, j: nat)
    requires i < j < |callbacks| && callbacks[i].Notify? && IsFlush(callbacks[j])
    requires Runs(After(refresh, callbacks[..i]), callbacks[i])
    requires Runs(After(refresh, callbacks[..j]), callbacks[j])
    requires forall k :: i < k < j ==> !(IsFlush(callbacks[k]) && Runs(After(refresh, callbacks[..k]), callbacks[k]))
    ensures var before, after := After(refresh, callbacks[..j]), After(refresh, callbacks[..j + 1]);
            && |after.reports| == |before.reports| + 1
            && var report := after.reports[|before.reports|];
               report.event == Resync || (callbacks[i].path.Some? && callbacks[i].path.value in report.paths)
  {
    StaysPending(refresh, callbacks, i, j);
    var s := After(refresh, callbacks[..j]);
    assert callbacks[..j + 1][..j] == callbacks[..j] && callbacks[..j + 1][j] == callbacks[j];
    FlushReports(s, callbacks[j].cycle);
  }

  /** Whatever happens in a flush, exactly one report is made, of exactly what was pending. */
  lemma FlushReports(s: State, cycle: Cycle)
    ensures Flush(s, cycle).reports ==
            s.reports + [Report(if s.unknown || s.pending == {} then Resync else Change, s.pending)]
  {
  }

  /** While a notification is waiting the timer that will flush it is armed, or the
      watcher has settled: nothing is ever left behind silently. */
  lemma {:induction false} WaitingMeansArmed(refresh: Refresh, callbacks: seq<Callback>, i: nat)
    requires i < |callbacks| && callbacks[i].Notify?
    requires Runs(After(refresh, callbacks[..i]), callbacks[i])
    requires forall k :: i < k < |callbacks| ==>
               !(IsFlush(callbacks[k]) && Runs(After(refresh, callbacks[..k]), callbacks[k]))
    ensures var s := After(refresh, callbacks); s.timer || s.settled
  {
    StaysPending(refresh, callbacks, i, |callbacks|);
    assert callbacks[..|callbacks|] == callbacks;
    ReachableInv(refresh, callbacks);
  }

  /** All of this rests on closed handles staying silent: a notification that still came
      through after settling would arm a timer, and its flush would open handles that
      nothing closes any more. */
  lemma LateNotificationLeaks(s: State, count: nat)
    requires Inv(s) && s.settled && count > 0
    ensures var late := Handle(s, None);
            && late.timer
            && exists h :: IsOpen(Flush(late, CycleRuns(Opens(count), false)), h)
  {
    var flushed := Flush(Handle(s, None), CycleRuns(Opens(count), false));
    assert IsOpen(flushed, s.created) by {
      assert flushed.created == s.created + count && s.created !in s.closed;
      assert s.created !in Members(s.watchers);
    }
  }

  /** The error is written out before the watcher settles. Were that write to throw in a flush,
      the watcher would be left unsettled without a timer, and the invariant broken exactly
      when the flush was a resync of an unknown state whose rebuild threw: that resync would
      wait for the next notification. */
  lemma UnreportedFailure(s: State, cycle: Cycle)
    requires Inv(s) && s.timer && Cycled(s, cycle).1
    ensures var left := Cycled(s, cycle).0;
            && !left.settled && !left.timer && left.pending == {}
            && (Inv(left) <==> !left.unknown)
            && (left.unknown <==> s.unknown && cycle.CycleThrows?)
  {
    var event := if s.unknown || s.pending == {} then Resync else Change;
    var known := s.(timer := false, pending := {}, unknown := false, reports := s.reports + [Report(event, s.pending)]);
    if cycle.CycleRuns? && event == Resync { SetWatchersKeepsHandles(known, cycle.refresh); }
  }
}
