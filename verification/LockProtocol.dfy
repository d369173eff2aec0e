/** Any number of callers that take their completion locks in the order of
    withTaskCompletionLocks (cli/commands/workbench.ts), step by step. */
module LockProtocol {
  import opened TaskLocks

  /** A caller's list of ids, how many of their locks it holds, and whether it is giving
      them back: after its action, or after a timeout. */
  datatype Caller = Caller(order: seq<TaskId>, held: nat, releasing: bool)

  type State = seq<Caller>

  predicate WellFormed(c: Caller) {
    c.held <= |c.order|
  }

  /** Locks are known by their keys. */
  predicate Holds(c: Caller, key: TaskId) {
    exists i :: 0 <= i < c.held && i < |c.order| && Key(c.order[i]) == key
  }

  /** Each caller is well formed and no lock has two holders. */
  ghost predicate Inv(s: State) {
    && (forall c :: 0 <= c < |s| ==> WellFormed(s[c]))
    && (forall c, d, key :: 0 <= c < |s| && 0 <= d < |s| && c != d && Holds(s[c], key) ==> !Holds(s[d], key))
  }

  predicate Waiting(c: Caller) {
    !c.releasing && c.held < |c.order|
  }

  function Wanted(c: Caller): TaskId
    requires Waiting(c)
  {
    Key(c.order[c.held])
  }

  datatype Move = Acquire | GiveUp | Release | NewCall(taskIds: seq<TaskId>)

  /** A lock file can be created when it is not there, whoever made it. */
  ghost predicate Enabled(s: State, c: nat, move: Move)
    requires c < |s|
  {
    match move
    case Acquire => Waiting(s[c]) && forall d :: 0 <= d < |s| ==> !Holds(s[d], Wanted(s[c]))
    case GiveUp => !s[c].releasing
    case Release => s[c].releasing && s[c].held > 0
    case NewCall(_) => s[c].releasing && s[c].held == 0
  }

  function Next(c: Caller, move: Move): Caller {
    match move
    case Acquire => c.(held := c.held + 1)
    case GiveUp => c.(releasing := true)
    case Release => if c.held > 0 then c.(held := c.held - 1) else c
    case NewCall(taskIds) => Caller(Attempted(SortedDistinct(taskIds)), 0, false)
  }

  /** One move takes the lock that is wanted, or gives back the one taken last, or none. */
  lemma {:induction false} MoveChangesOneLock(c: Caller, move: Move, key: TaskId)
    requires WellFormed(c)
    ensures move.Acquire? && Waiting(c) ==> (Holds(Next(c, move), key) <==> Holds(c, key) || key == Wanted(c))
    ensures move.GiveUp? ==> (Holds(Next(c, move), key) <==> Holds(c, key)) && Next(c, move).releasing
    ensures move.Release? && c.held > 0 ==>
              && (Holds(c, key) <==> Holds(Next(c, move), key) || key == Key(c.order[c.held - 1]))
              && Next(c, move).held == c.held - 1 && Next(c, move).order == c.order && Next(c, move).releasing == c.releasing
    ensures move.NewCall? ==> !Holds(Next(c, move), key) && Waiting(Next(c, move)) == (move.taskIds != [] && [] !in move.taskIds)
  {
    if move.NewCall? {
      var ids := SortedDistinct(move.taskIds);
      if [] in move.taskIds { HeadIsLeast(ids, []); }
      if ids != [] && ids[0] == [] { assert ids[0] in ids; }
      if move.taskIds != [] { assert move.taskIds[0] in ids; }
      if ids != [] { assert ids[0] in move.taskIds; }
    }
  }

  lemma {:induction false} MoveKeepsInv(s: State, c: nat, move: Move)
    requires Inv(s) && c < |s| && Enabled(s, c, move)
    ensures Inv(s[c := Next(s[c], move)])
  {
    var s' := s[c := Next(s[c], move)];
    assert WellFormed(s'[c]);
    forall a, b, key | 0 <= a < |s'| && 0 <= b < |s'| && a != b && Holds(s'[a], key)
      ensures !Holds(s'[b], key)
    {
      HoldsAfter(s[a], s'[a], s[c], move, key);
      HoldsAfter(s[b], s'[b], s[c], move, key);
    }
  }

  /** The one way to come to hold a lock is to acquire the wanted one. */
  lemma {:induction false} HoldsAfter(before: Caller, after: Caller, mover: Caller, move: Move, key: TaskId)
    requires after == before || (before == mover && after == Next(mover, move))
    requires move.Acquire? ==> Waiting(mover)
    ensures Holds(after, key) ==>
              Holds(before, key) || (move.Acquire? && before == mover && after != before && key == Wanted(mover))
  {
  }

  /** A run of the system: any callers, each holding nothing at first, moving in any order. */
  datatype Turn = Turn(caller: nat, move: Move)

  ghost predicate IsRun(states: seq<State>, turns: seq<Turn>) {
    && |states| == |turns| + 1
    && (forall c :: 0 <= c < |states[0]| ==> WellFormed(states[0][c]) && states[0][c].held == 0)
    && forall i :: 0 <= i < |turns| ==>
         && turns[i].caller < |states[i]| && Enabled(states[i], turns[i].caller, turns[i].move)
         && states[i + 1] == states[i][turns[i].caller := Next(states[i][turns[i].caller], turns[i].move)]
  }

  lemma {:induction false} ReachableInv(states: seq<State>, turns: seq<Turn>, i: nat)
    requires IsRun(states, turns) && i < |states|
    ensures Inv(states[i])
  {
    if i > 0 {
      ReachableInv(states, turns, i - 1);
      MoveKeepsInv(states[i - 1], turns[i - 1].caller, turns[i - 1].move);
    }
  }

  /** Caller `c` waits for a lock that caller `d`, perhaps itself, holds. */
  predicate WaitsFor(s: State, c: nat, d: nat) {
    c < |s| && d < |s| && Waiting(s[c]) && Holds(s[d], Wanted(s[c]))
  }

  /** Every caller takes its locks in ascending order of their keys. */
  predicate Orderly(s: State) {
    forall c :: 0 <= c < |s| ==> KeysAscend(s[c].order)
  }

  /** A waiting caller wants a lock above all those it holds. */
  lemma {:induction false} WantsAboveHeld(s: State, c: nat, d: nat)
    requires Inv(s) && Orderly(s) && WaitsFor(s, c, d) && Waiting(s[d])
    ensures Less(Wanted(s[c]), Wanted(s[d]))
  {
    var i :| 0 <= i < s[d].held && Key(s[d].order[i]) == Wanted(s[c]);
  }

  lemma {:induction false} ChainAscends(s: State, chain: seq<nat>)
    requires Inv(s) && Orderly(s) && |chain| >= 2
    requires forall i :: 0 <= i < |chain| - 1 ==> WaitsFor(s, chain[i], chain[i + 1])
    ensures chain[0] < |s| && Waiting(s[chain[0]])
    ensures chain[|chain| - 1] < |s|
    ensures Waiting(s[chain[|chain| - 1]]) ==> Less(Wanted(s[chain[0]]), Wanted(s[chain[|chain| - 1]]))
    decreases |chain|
  {
    var n := |chain|;
    assert WaitsFor(s, chain[0], chain[1]) && WaitsFor(s, chain[n - 2], chain[n - 1]);
    if n == 2 {
      if Waiting(s[chain[1]]) {
        WantsAboveHeld(s, chain[0], chain[1]);
      }
    } else {
      var front := chain[..n - 1];
      ChainAscends(s, front);
      if Waiting(s[chain[n - 1]]) {
        WantsAboveHeld(s, chain[n - 2], chain[n - 1]);
        LessTransitive(Wanted(s[chain[0]]), Wanted(s[chain[n - 2]]), Wanted(s[chain[n - 1]]));
      }
    }
  }

  /** In no reachable state do callers that take their locks in the order of the keys wait for
      each other, or for themselves, in a circle. */
  lemma {:induction false} NoDeadlock(states: seq<State>, turns: seq<Turn>, i: nat, chain: seq<nat>)
    requires IsRun(states, turns) && i < |states| && Orderly(states[i])
    requires |chain| >= 2
    requires forall k :: 0 <= k < |chain| - 1 ==> WaitsFor(states[i], chain[k], chain[k + 1])
    ensures chain[0] != chain[|chain| - 1]
  {
    ReachableInv(states, turns, i);
    ChainAscends(states[i], chain);
    if chain[0] == chain[|chain| - 1] {
      LessIrreflexive(Wanted(states[i][chain[0]]));
    }
  }

  /** The callers that wait for a lock above the one `c` wants. */
  function Above(s: State, c: nat): set<nat>
    requires c < |s| && Waiting(s[c])
  {
    set d | 0 <= d < |s| && Waiting(s[d]) && Less(Wanted(s[c]), Wanted(s[d]))
  }

  /** From every waiting caller one reaches a caller that is held up by nobody: it can take
      its lock, is running its action, or is giving its locks back. */
  lemma {:induction false} SomebodyMoves(s: State, c: nat) returns (mover: nat)
    requires Inv(s) && Orderly(s) && c < |s| && Waiting(s[c])
    ensures mover < |s|
    ensures Enabled(s, mover, Acquire) || !Waiting(s[mover])
    ensures mover == c || !Waiting(s[mover]) || Less(Wanted(s[c]), Wanted(s[mover]))
    decreases Above(s, c)
  {
    if d :| 0 <= d < |s| && Holds(s[d], Wanted(s[c])) {
      if !Waiting(s[d]) {
        return d;
      }
      WantsAboveHeld(s, c, d);
      LessIrreflexive(Wanted(s[d]));
      forall e | e in Above(s, d) ensures e in Above(s, c) {
        LessTransitive(Wanted(s[c]), Wanted(s[d]), Wanted(s[e]));
      }
      assert d in Above(s, c) && d !in Above(s, d);
      mover := SomebodyMoves(s, d);
      if mover != d && Waiting(s[mover]) {
        LessTransitive(Wanted(s[c]), Wanted(s[d]), Wanted(s[mover]));
      }
    } else {
      return c;
    }
  }

  // ----- The ids of the command line

  predicate SelectorOrder(ids: seq<TaskId>) {
    Ascending(ids) && forall i :: 0 <= i < |ids| ==> IsSelectorId(ids[i])
  }

  /** Every call is for ids that the command line's selector gives. */
  ghost predicate SelectorRun(states: seq<State>, turns: seq<Turn>) {
    && IsRun(states, turns)
    && (forall c :: 0 <= c < |states[0]| ==> SelectorOrder(states[0][c].order))
    && (forall i :: 0 <= i < |turns| && turns[i].move.NewCall? ==> forall id :: id in turns[i].move.taskIds ==> IsSelectorId(id))
  }

  lemma {:induction false} SelectorOrdersAscend(ids: seq<TaskId>)
    requires SelectorOrder(ids)
    ensures KeysAscend(ids)
  {
    forall i, j | 0 <= i < j < |ids| ensures Less(Key(ids[i]), Key(ids[j])) {
      SelectorKey(ids[i]);
      SelectorKey(ids[j]);
    }
  }

  lemma {:induction false} SelectorOrdersStay(states: seq<State>, turns: seq<Turn>, i: nat)
    requires SelectorRun(states, turns) && i < |states|
    ensures forall c :: 0 <= c < |states[i]| ==> SelectorOrder(states[i][c].order)
  {
    if i > 0 {
      SelectorOrdersStay(states, turns, i - 1);
      var turn := turns[i - 1];
      var moved := Next(states[i - 1][turn.caller], turn.move);
      assert SelectorOrder(moved.order);
    }
  }

  /** Calls for ids of the command line never wait for each other in a circle. */
  lemma {:induction false} SelectorsNeverDeadlock(states: seq<State>, turns: seq<Turn>, i: nat, chain: seq<nat>)
    requires SelectorRun(states, turns) && i < |states| && |chain| >= 2
    requires forall k :: 0 <= k < |chain| - 1 ==> WaitsFor(states[i], chain[k], chain[k + 1])
    ensures chain[0] != chain[|chain| - 1]
  {
    SelectorOrdersStay(states, turns, i);
    forall c | 0 <= c < |states[i]| ensures KeysAscend(states[i][c].order) {
      SelectorOrdersAscend(states[i][c].order);
    }
    NoDeadlock(states, turns, i, chain);
  }

  // ----- Keys out of order

  /** The first place where the keys do not ascend. */
  lemma {:induction false} FirstDescent(ids: seq<TaskId>) returns (v: nat)
    requires !KeysAscend(ids)
    ensures 1 <= v < |ids| && KeysAscend(ids[..v]) && !Less(Key(ids[v - 1]), Key(ids[v]))
  {
    var n := |ids| - 1;
    if !KeysAscend(ids[..n]) {
      v := FirstDescent(ids[..n]);
      assert ids[..n][..v] == ids[..v];
    } else {
      v := n;
      AscendsByOne(ids);
    }
  }

  lemma {:induction false} AscendsByOne(ids: seq<TaskId>)
    requires |ids| > 0 && KeysAscend(ids[..|ids| - 1])
    ensures (|ids| == 1 || Less(Key(ids[|ids| - 2]), Key(ids[|ids| - 1]))) ==> KeysAscend(ids)
  {
    var n := |ids| - 1;
    if |ids| == 1 || Less(Key(ids[n - 1]), Key(ids[n])) { AscendsAll(ids); }
  }

  lemma {:induction false} AscendsAll(ids: seq<TaskId>)
    requires |ids| > 0 && KeysAscend(ids[..|ids| - 1])
    requires |ids| == 1 || Less(Key(ids[|ids| - 2]), Key(ids[|ids| - 1]))
    ensures KeysAscend(ids)
  {
    var n := |ids| - 1;
    forall i, j | 0 <= i < j < |ids| ensures Less(Key(ids[i]), Key(ids[j])) {
      if j < n {
        assert ids[..n][i] == ids[i] && ids[..n][j] == ids[j];
      } else if i < n - 1 {
        assert ids[..n][i] == ids[i] && ids[..n][n - 1] == ids[n - 1];
        LessTransitive(Key(ids[i]), Key(ids[n - 1]), Key(ids[n]));
      }
    }
  }

  /** A caller takes the first `n` of its locks while the other one stands still. */
  lemma {:induction false} Climb(ids: seq<TaskId>, partner: seq<TaskId>, n: nat) returns (states: seq<State>, turns: seq<Turn>)
    requires n <= |ids| && KeysAscend(ids[..n])
    ensures IsRun(states, turns) && states[0] == [Caller(ids, 0, false), Caller(partner, 0, false)]
    ensures states[|states| - 1] == [Caller(ids, n, false), Caller(partner, 0, false)]
  {
    if n == 0 {
      states, turns := [[Caller(ids, 0, false), Caller(partner, 0, false)]], [];
    } else {
      assert ids[..n][..n - 1] == ids[..n - 1];
      states, turns := Climb(ids, partner, n - 1);
      var s := states[|states| - 1];
      NotYetHeld(ids, n - 1);
      states, turns := Extend(states, turns, 0, Acquire);
      assert s[0 := Next(s[0], Acquire)] == [Caller(ids, n, false), Caller(partner, 0, false)];
    }
  }

  lemma {:induction false} NotYetHeld(ids: seq<TaskId>, n: nat)
    requires n < |ids| && KeysAscend(ids[..n + 1])
    ensures !Holds(Caller(ids, n, false), Key(ids[n]))
  {
    forall i | 0 <= i < n ensures Key(ids[i]) != Key(ids[n]) {
      assert ids[..n + 1][i] == ids[i] && ids[..n + 1][n] == ids[n];
      LessIrreflexive(Key(ids[n]));
    }
  }

  lemma {:induction false} Extend(states: seq<State>, turns: seq<Turn>, c: nat, move: Move) returns (states': seq<State>, turns': seq<Turn>)
    requires IsRun(states, turns) && c < |states[|states| - 1]| && Enabled(states[|states| - 1], c, move)
    ensures IsRun(states', turns') && states'[0] == states[0]
    ensures var s := states[|states| - 1]; states'[|states'| - 1] == s[c := Next(s[c], move)]
  {
    var s := states[|states| - 1];
    states', turns' := states + [s[c := Next(s[c], move)]], turns + [Turn(c, move)];
  }

  /** The order of the keys is needed: a list whose keys do not ascend can be stuck for good,
      waiting for itself or in a circle with one orderly caller. */
  lemma {:induction false} UnorderedKeysDeadlock(ids: seq<TaskId>)
    returns (partner: seq<TaskId>, states: seq<State>, turns: seq<Turn>, chain: seq<nat>)
    requires !KeysAscend(ids)
    ensures KeysAscend(partner)
    ensures IsRun(states, turns) && states[0] == [Caller(ids, 0, false), Caller(partner, 0, false)]
    ensures |chain| >= 2 && chain[0] == chain[|chain| - 1]
    ensures forall k :: 0 <= k < |chain| - 1 ==> WaitsFor(states[|states| - 1], chain[k], chain[k + 1])
  {
    var v := FirstDescent(ids);
    var a, b := Key(ids[v - 1]), Key(ids[v]);
    if Holds(Caller(ids, v, false), b) {
      partner := [];
      states, turns := Climb(ids, partner, v);
      chain := [0, 0];
    } else {
      partner := [b, a];
      PartnerAscends(ids, v);
      states, turns := Climb(ids, partner, v);
      var s := states[|states| - 1];
      states, turns := Extend(states, turns, 1, Acquire);
      var s' := states[|states| - 1];
      assert s' == [Caller(ids, v, false), Caller(partner, 1, false)];
      assert Key(s'[1].order[0]) == b && Key(s'[0].order[v - 1]) == a;
      chain := [0, 1, 0];
    }
  }

  lemma {:induction false} PartnerAscends(ids: seq<TaskId>, v: nat)
    requires 1 <= v < |ids| && !Less(Key(ids[v - 1]), Key(ids[v])) && !Holds(Caller(ids, v, false), Key(ids[v]))
    ensures var partner := [Key(ids[v]), Key(ids[v - 1])];
            KeysAscend(partner) && Key(partner[0]) == partner[0] && Key(partner[1]) == partner[1]
  {
    KeyIsTrimmed(ids[v]);
    KeyIsTrimmed(ids[v - 1]);
    LessTotal(Key(ids[v]), Key(ids[v - 1]));
    assert Key(ids[v - 1]) != Key(ids[v]);
  }
}
