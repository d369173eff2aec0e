/** What a run of the watcher adds up to (cli/commands/pstr.ts, runPstrWatch): which changes are
    waiting, what a flush does, and when and with which exit code the watcher settles. */
module WatchRuns {
  import opened Wrappers
  import opened WatchLoop

  predicate Ran(refresh: Refresh, callbacks: seq<Callback>, k: nat)
    requires k < |callbacks|
  {
    Runs(After(refresh, callbacks[..k]), callbacks[k])
  }

  /** The notification `i` was delivered and no flush ran since. */
  predicate Waits(refresh: Refresh, callbacks: seq<Callback>, i: nat)
    requires i < |callbacks|
  {
    && callbacks[i].Notify? && Ran(refresh, callbacks, i)
    && forall k :: i < k < |callbacks| && callbacks[k].TimerFires? ==> !Ran(refresh, callbacks, k)
  }

  lemma {:induction false} LastStep(refresh: Refresh, callbacks: seq<Callback>)
    requires callbacks != []
    ensures var n := |callbacks| - 1;
            && After(refresh, callbacks) == Step(After(refresh, callbacks[..n]), callbacks[n])
            && (forall k :: 0 <= k < n ==> callbacks[..n][..k] == callbacks[..k])
            && (forall k :: 0 <= k < n ==> Ran(refresh, callbacks[..n], k) == Ran(refresh, callbacks, k))
  {
    var n := |callbacks| - 1;
    forall k | 0 <= k < n ensures callbacks[..n][..k] == callbacks[..k] { }
  }

  lemma {:induction false} WaitsLonger(refresh: Refresh, callbacks: seq<Callback>, i: nat)
    requires i < |callbacks|
    ensures var n := |callbacks| - 1;
            Waits(refresh, callbacks, i) <==>
            if i == n then callbacks[n].Notify? && Ran(refresh, callbacks, n)
            else Waits(refresh, callbacks[..n], i) && !(callbacks[n].TimerFires? && Ran(refresh, callbacks, n))
  {
    LastStep(refresh, callbacks);
  }

  lemma {:induction false} StillUnsettled(s: State, c: Callback)
    requires Inv(s) && !Step(s, c).settled
    ensures !s.settled
  {
  }

  /** Until it settles the watcher holds exactly the paths of the notifications that wait, and
      is in an unknown state exactly when one of them had no path. */
  lemma {:induction false} PendingIff(refresh: Refresh, callbacks: seq<Callback>)
    requires !After(refresh, callbacks).settled
    ensures var s := After(refresh, callbacks);
            && (forall p :: p in s.pending <==>
                  exists i :: 0 <= i < |callbacks| && Waits(refresh, callbacks, i) && callbacks[i].path == Some(p))
            && (s.unknown <==> exists i :: 0 <= i < |callbacks| && Waits(refresh, callbacks, i) && callbacks[i].path == None)
    decreases |callbacks|
  {
    if callbacks != [] {
      var n := |callbacks| - 1;
      LastStep(refresh, callbacks);
      ReachableInv(refresh, callbacks[..n]);
      StillUnsettled(After(refresh, callbacks[..n]), callbacks[n]);
      PendingIff(refresh, callbacks[..n]);
      forall path: Option<string> ensures WaitsFor(refresh, callbacks, path) <==> WaitsForStep(refresh, callbacks, path) {
        WaitsForLast(refresh, callbacks, path);
      }
      PendingStep(refresh, callbacks);
    }
  }

  predicate WaitsFor(refresh: Refresh, callbacks: seq<Callback>, path: Option<string>) {
    exists i :: 0 <= i < |callbacks| && Waits(refresh, callbacks, i) && callbacks[i].path == path
  }

  predicate WaitsForStep(refresh: Refresh, callbacks: seq<Callback>, path: Option<string>)
    requires callbacks != []
  {
    var n := |callbacks| - 1;
    var c := callbacks[n];
    || (Ran(refresh, callbacks, n) && c.Notify? && c.path == path)
    || (!(Ran(refresh, callbacks, n) && c.TimerFires?) && WaitsFor(refresh, callbacks[..n], path))
  }

  lemma {:induction false} WaitsForLast(refresh: Refresh, callbacks: seq<Callback>, path: Option<string>)
    requires callbacks != []
    ensures WaitsFor(refresh, callbacks, path) <==> WaitsForStep(refresh, callbacks, path)
  {
    var n := |callbacks| - 1;
    forall i | 0 <= i < |callbacks|
      ensures Waits(refresh, callbacks, i) <==>
              if i == n then callbacks[n].Notify? && Ran(refresh, callbacks, n)
              else Waits(refresh, callbacks[..n], i) && !(callbacks[n].TimerFires? && Ran(refresh, callbacks, n))
    {
      WaitsLonger(refresh, callbacks, i);
    }
    if i :| 0 <= i < n && Waits(refresh, callbacks[..n], i) && callbacks[..n][i].path == path { assert callbacks[i].path == path; }
    if i :| 0 <= i < |callbacks| && Waits(refresh, callbacks, i) && callbacks[i].path == path {
      if i < n { assert callbacks[..n][i].path == path; }
    }
  }

  lemma {:induction false} PendingStep(refresh: Refresh, callbacks: seq<Callback>)
    requires callbacks != [] && Inv(After(refresh, callbacks[..|callbacks| - 1])) && !After(refresh, callbacks).settled
    requires var s := After(refresh, callbacks[..|callbacks| - 1]);
             && (forall p :: p in s.pending <==> WaitsFor(refresh, callbacks[..|callbacks| - 1], Some(p)))
             && (s.unknown <==> WaitsFor(refresh, callbacks[..|callbacks| - 1], None))
    ensures var s := After(refresh, callbacks);
            && (forall p :: p in s.pending <==> WaitsForStep(refresh, callbacks, Some(p)))
            && (s.unknown <==> WaitsForStep(refresh, callbacks, None))
  {
    var n := |callbacks| - 1;
    var s, c := After(refresh, callbacks[..n]), callbacks[n];
    LastStep(refresh, callbacks);
    if Runs(s, c) && c.TimerFires? { FlushEmpties(s, c.cycle); }
  }

  // ----- A flush

  /** Does this flush end the watcher? */
  predicate Fails(s: State, cycle: Cycle) {
    || cycle.CycleThrows?
    || cycle.emitThrows
    || ((s.unknown || s.pending == {}) && !cycle.refresh.Opens?)
  }

  lemma {:induction false} FlushEmpties(s: State, cycle: Cycle)
    requires Inv(s) && s.timer && !Flush(s, cycle).settled
    ensures Flush(s, cycle).pending == {} && !Flush(s, cycle).unknown
  {
  }

  /** A flush settles exactly when it fails. Otherwise nothing waits any more; after a resync
      the handles are the newly opened ones and all earlier ones are closed, after a change
      they are the same as before. */
  lemma {:induction false} FlushDoes(s: State, cycle: Cycle)
    requires Inv(s) && s.timer
    ensures Flush(s, cycle).settled <==> Fails(s, cycle)
    ensures !Fails(s, cycle) ==>
              var now := Flush(s, cycle);
              && now.pending == {} && !now.unknown && !now.timer
                && (if s.unknown || s.pending == {} then
                    && |now.watchers| == cycle.refresh.count
                    && (forall h: nat :: h in now.watchers <==> s.created <= h < s.created + cycle.refresh.count)
                    && (forall h: nat :: IsOpen(now, h) <==> h in now.watchers)
                  else now.watchers == s.watchers && forall h: nat :: IsOpen(now, h) <==> IsOpen(s, h))
  {
    if !Fails(s, cycle) && (s.unknown || s.pending == {}) {
      var added := Range(s.created, cycle.refresh.count);
      forall h: nat ensures h in added <==> s.created <= h < s.created + cycle.refresh.count {
        if s.created <= h < s.created + cycle.refresh.count { assert added[h - s.created] == h; }
      }
      forall h: nat ensures IsOpen(Flush(s, cycle), h) <==> h in added {
        assert h < s.created && h !in s.closed ==> IsOpen(s, h);
      }
    }
  }

  // ----- Settling

  /** The callback that settles the watcher. */
  predicate Stops(s: State, c: Callback) {
    Runs(s, c) &&
    match c
    case Notify(_, _) => false
    case WatchError(_) => true
    case TimerFires(cycle) => Fails(s, cycle)
    case Signal => true
  }

  lemma {:induction false} StepSettles(s: State, c: Callback)
    requires Inv(s) && !s.settled
    ensures Step(s, c).settled <==> Stops(s, c)
    ensures Stops(s, c) ==> Step(s, c).exits == [if c.Signal? then 0 else 2]
  {
    if Runs(s, c) && c.TimerFires? {
      FlushDoes(s, c.cycle);
      if Fails(s, c.cycle) { FlushExits(s, c.cycle); }
    }
  }

  lemma {:induction false} FlushExits(s: State, cycle: Cycle)
    requires Inv(s) && s.timer && Fails(s, cycle)
    ensures Flush(s, cycle).exits == [2]
  {
  }

  /** The watcher settles at the start when its handles cannot be opened, or at the first
      callback that stops it: with 0 for a signal and with 2 for any failure. */
  lemma {:induction false} SettlesIff(refresh: Refresh, callbacks: seq<Callback>)
    ensures var s := After(refresh, callbacks);
            && (!refresh.Opens? ==> s.settled && s.exits == [2])
            && (refresh.Opens? ==>
                  && (s.settled <==> exists k :: 0 <= k < |callbacks| && Stops(After(refresh, callbacks[..k]), callbacks[k]))
                  && forall k :: 0 <= k < |callbacks| && Stops(After(refresh, callbacks[..k]), callbacks[k]) ==>
                       s.exits == [if callbacks[k].Signal? then 0 else 2])
    decreases |callbacks|
  {
    if callbacks != [] {
      var n := |callbacks| - 1;
      var s, c := After(refresh, callbacks[..n]), callbacks[n];
      LastStep(refresh, callbacks);
      ReachableInv(refresh, callbacks[..n]);
      SettlesIff(refresh, callbacks[..n]);
      if s.settled {
        SettledStays(s, c);
      } else {
        StepSettles(s, c);
      }
      forall k | 0 <= k < n ensures After(refresh, callbacks[..n][..k]) == After(refresh, callbacks[..k]) { }
    }
  }

  lemma {:induction false} SettledStays(s: State, c: Callback)
    requires Inv(s) && s.settled
    ensures Step(s, c) == s && !Stops(s, c)
  {
  }
}
