/** Taking the completion locks of several tasks (cli/commands/workbench.ts,
    withTaskCompletionLocks). A lock is keyed by the trimmed id
    (cli/services/workbench/completion-lock.ts, resolveTaskCompletionLockPath). */
module TaskLocks {
  import opened Utf8

  type TaskId = JsString

  /** JavaScript's order of strings: code unit by code unit, a proper prefix first. */
  predicate Less(a: TaskId, b: TaskId) {
    b != [] && (a == [] || a[0] < b[0] || (a[0] == b[0] && Less(a[1..], b[1..])))
  }

  lemma {:induction false} LessIrreflexive(a: TaskId)
    ensures !Less(a, a)
  {
    if a != [] {
      LessIrreflexive(a[1..]);
    }
  }

  lemma {:induction false} LessTransitive(a: TaskId, b: TaskId, c: TaskId)
    requires Less(a, b) && Less(b, c)
    ensures Less(a, c)
    decreases |a|
  {
    if a != [] && a[0] == b[0] == c[0] {
      LessTransitive(a[1..], b[1..], c[1..]);
    }
  }

  lemma {:induction false} LessTotal(a: TaskId, b: TaskId)
    ensures a == b || Less(a, b) || Less(b, a)
  {
    if a != [] && b != [] && a[0] == b[0] {
      LessTotal(a[1..], b[1..]);
      assert a == [a[0]] + a[1..] && b == [b[0]] + b[1..];
    }
  }

  /** The strings first differ at `k`, or `a` ends there. */
  predicate FirstLess(a: TaskId, b: TaskId, k: nat) {
    k <= |a| && k < |b| && a[..k] == b[..k] && (k == |a| || a[k] < b[k])
  }

  lemma {:induction false} SameStart(a: TaskId, b: TaskId, k: nat)
    requires a != [] && FirstLess(a, b, k)
    ensures if k > 0 then a[0] == b[0] else a[0] < b[0]
  {
    if k > 0 { assert a[..k][0] == b[..k][0]; }
  }

  lemma {:induction false} LessIff(a: TaskId, b: TaskId)
    ensures Less(a, b) <==> exists k: nat :: FirstLess(a, b, k)
  {
    if b != [] {
      if a == [] {
        assert FirstLess(a, b, 0);
      } else if a[0] == b[0] {
        LessIff(a[1..], b[1..]);
        if k: nat :| FirstLess(a[1..], b[1..], k) {
          assert a[..k + 1] == [a[0]] + a[1..][..k] && b[..k + 1] == [b[0]] + b[1..][..k];
          assert FirstLess(a, b, k + 1);
        }
        if k: nat :| FirstLess(a, b, k) {
          assert a[1..][..k - 1] == a[..k][1..] && b[1..][..k - 1] == b[..k][1..];
          assert FirstLess(a[1..], b[1..], k - 1);
        }
      } else {
        if a[0] < b[0] { assert FirstLess(a, b, 0); }
        forall k: nat | FirstLess(a, b, k) ensures a[0] < b[0] {
          SameStart(a, b, k);
        }
      }
    }
  }

  predicate Ascending(ids: seq<TaskId>) {
    forall i, j :: 0 <= i < j < |ids| ==> Less(ids[i], ids[j])
  }

  function Insert(id: TaskId, ids: seq<TaskId>): (r: seq<TaskId>)
    requires Ascending(ids)
    ensures Ascending(r) && forall x :: x in r <==> x == id || x in ids
  {
    if ids == [] then [id]
    else if ids[0] == id then ids
    else if Less(id, ids[0]) then
      assert forall j :: 0 <= j < |ids| ==> Less(id, ids[j]) by {
        forall j | 0 < j < |ids| ensures Less(id, ids[j]) { LessTransitive(id, ids[0], ids[j]); }
      }
      [id] + ids
    else
      LessTotal(id, ids[0]);
      var rest := Insert(id, ids[1..]);
      assert forall x :: x in rest ==> Less(ids[0], x);
      [ids[0]] + rest
  }

  /** `[...new Set(taskIds)].sort()` */
  function SortedDistinct(taskIds: seq<TaskId>): (r: seq<TaskId>)
    ensures Ascending(r) && forall x :: x in r <==> x in taskIds
  {
    if taskIds == [] then []
    else Insert(taskIds[|taskIds| - 1], SortedDistinct(taskIds[..|taskIds| - 1]))
  }

  lemma HeadIsLeast(ids: seq<TaskId>, x: TaskId)
    requires ids != [] && Ascending(ids) && x in ids
    ensures x == ids[0] || Less(ids[0], x)
  {
  }

  lemma {:induction false} TailDropsHead(ids: seq<TaskId>)
    requires ids != [] && Ascending(ids)
    ensures Ascending(ids[1..]) && forall x :: x in ids[1..] <==> x in ids && x != ids[0]
  {
    LessIrreflexive(ids[0]);
  }

  lemma HeadIsMember(ids: seq<TaskId>)
    ensures ids == [] || ids[0] in ids
  {
  }

  /** An ascending list is determined by its members, so the list of locks is the same
      for every way of writing the same tasks. */
  lemma {:induction false} AscendingUnique(a: seq<TaskId>, b: seq<TaskId>)
    requires Ascending(a) && Ascending(b) && forall x :: x in a <==> x in b
    ensures a == b
    decreases |a|
  {
    if a == [] {
      HeadIsMember(b);
    } else {
      assert a[0] in b && b != [];
      HeadIsLeast(b, a[0]);
      assert b[0] in a;
      HeadIsLeast(a, b[0]);
      if Less(a[0], b[0]) && Less(b[0], a[0]) {
        LessTransitive(a[0], b[0], a[0]);
        LessIrreflexive(a[0]);
      }
      assert a[0] == b[0];
      TailDropsHead(a);
      TailDropsHead(b);
      AscendingUnique(a[1..], b[1..]);
      assert a == [a[0]] + a[1..] && b == [b[0]] + b[1..];
    }
  }

  // ----- The key of a lock

  /** The white space and line ends that `trim` removes. */
  predicate IsBlank(c: CodeUnit) {
    || 9 <= c <= 13 || c == 0x20 || c == 0xA0 || c == 0x1680 || 0x2000 <= c <= 0x200A
    || c == 0x2028 || c == 0x2029 || c == 0x202F || c == 0x205F || c == 0x3000 || c == 0xFEFF
  }

  function TrimStart(id: TaskId): (r: TaskId)
    ensures r != [] ==> !IsBlank(r[0])
    ensures id != [] && !IsBlank(id[0]) ==> r == id
  {
    if id != [] && IsBlank(id[0]) then TrimStart(id[1..]) else id
  }

  function TrimEnd(id: TaskId): (r: TaskId)
    ensures r <= id && (r != [] ==> !IsBlank(r[|r| - 1]))
    ensures id != [] && !IsBlank(id[|id| - 1]) ==> r == id
  {
    if id != [] && IsBlank(id[|id| - 1]) then TrimEnd(id[..|id| - 1]) else id
  }

  /** `id.trim()`, which together with project and session names the lock file. */
  function Key(id: TaskId): TaskId {
    TrimEnd(TrimStart(id))
  }

  lemma {:induction false} KeyIsTrimmed(id: TaskId)
    ensures Key(Key(id)) == Key(id)
  {
  }

  /** The key is what is left when all blanks at both ends are gone. */
  lemma {:induction false} KeyIs(id: TaskId) returns (i: nat, j: nat)
    ensures i <= j <= |id| && Key(id) == id[i..j]
    ensures forall k :: 0 <= k < i || j <= k < |id| ==> IsBlank(id[k])
    ensures i < j ==> !IsBlank(id[i]) && !IsBlank(id[j - 1])
  {
    i := StartIs(id);
    var k := EndIs(TrimStart(id));
    j := i + k;
  }

  lemma {:induction false} StartIs(id: TaskId) returns (i: nat)
    ensures i <= |id| && TrimStart(id) == id[i..] && forall k :: 0 <= k < i ==> IsBlank(id[k])
  {
    if id != [] && IsBlank(id[0]) {
      i := StartIs(id[1..]);
      i := i + 1;
    } else {
      i := 0;
    }
  }

  lemma {:induction false} EndIs(id: TaskId) returns (j: nat)
    ensures j <= |id| && TrimEnd(id) == id[..j] && forall k :: j <= k < |id| ==> IsBlank(id[k])
  {
    if id != [] && IsBlank(id[|id| - 1]) {
      j := EndIs(id[..|id| - 1]);
    } else {
      j := |id|;
    }
  }

  /** `T-` and two or three digits: the ids the selector of the command line gives. */
  predicate IsSelectorId(id: TaskId) {
    4 <= |id| <= 5 && id[0] == 84 && id[1] == 45 && forall i :: 2 <= i < |id| ==> 48 <= id[i] <= 57
  }

  lemma {:induction false} SelectorKey(id: TaskId)
    requires IsSelectorId(id)
    ensures Key(id) == id != []
  {
  }

  predicate KeysDistinct(ids: seq<TaskId>) {
    forall i, j :: 0 <= i < j < |ids| ==> Key(ids[i]) != Key(ids[j])
  }

  /** The locks are taken in ascending order of their keys. */
  predicate KeysAscend(ids: seq<TaskId>) {
    forall i, j :: 0 <= i < j < |ids| ==> Less(Key(ids[i]), Key(ids[j]))
  }

  // ----- One call

  datatype LockEvent = Acquired(id: TaskId) | TimedOut(id: TaskId) | ActionRan(leases: seq<TaskId>) | Released(id: TaskId)

  /** What the environment does: which locks others keep busy until the timeout, whether the
      action throws, and which leases turn out to be lost when they are given up. */
  datatype Environment = Environment(busy: TaskId -> bool, actionThrows: bool, lost: TaskId -> bool)

  /** The locks a call tries to take: none at all when the list starts with the empty id. */
  function Attempted(ids: seq<TaskId>): seq<TaskId> {
    if ids == [] || ids[0] == [] then [] else ids
  }

  /** A lock is busy when another call has it or this one does already. */
  predicate Busy(id: TaskId, held: seq<TaskId>, env: Environment) {
    env.busy(id) || exists h :: h in held && Key(h) == Key(id)
  }

  /** The events of taking `ids` while `held` is held already. The empty id ends the
      list like the end itself, because the source tests it for falsiness. */
  function Trace(ids: seq<TaskId>, held: seq<TaskId>, env: Environment): seq<LockEvent> {
    if ids == [] || ids[0] == [] then [ActionRan(held)]
    else if Busy(ids[0], held, env) then [TimedOut(ids[0])]
    else [Acquired(ids[0])] + Trace(ids[1..], held + [ids[0]], env) + [Released(ids[0])]
  }

  /** Does an exception leave the call? */
  predicate Throws(ids: seq<TaskId>, held: seq<TaskId>, env: Environment) {
    if ids == [] || ids[0] == [] then env.actionThrows
    else Busy(ids[0], held, env) || Throws(ids[1..], held + [ids[0]], env) || env.lost(ids[0])
  }

  class CompletionLocks {
    var leases: seq<TaskId>
    ghost var log: seq<LockEvent>

    constructor ()
      ensures leases == [] && log == []
    {
      leases, log := [], [];
    }

    /** Every exit, normal or by exception, leaves the lease list as it was. */
    method Acquire(sorted: seq<TaskId>, index: nat, env: Environment) returns (thrown: bool)
      requires index <= |sorted|
      modifies this
      ensures leases == old(leases)
      ensures log == old(log) + Trace(sorted[index..], old(leases), env)
      ensures thrown == Throws(sorted[index..], old(leases), env)
      decreases |sorted| - index
    {
      if index == |sorted| || sorted[index] == [] {
        log := log + [ActionRan(leases)];
        return env.actionThrows;
      }
      var taskId := sorted[index];
      assert sorted[index..][1..] == sorted[index + 1..];
      if Busy(taskId, leases, env) {
        log := log + [TimedOut(taskId)];
        return true;
      }
      log := log + [Acquired(taskId)];
      leases := leases + [taskId];
      thrown := Acquire(sorted, index + 1, env);
      leases := leases[..|leases| - 1];
      log := log + [Released(taskId)];
      thrown := thrown || env.lost(taskId);
    }

    method WithTaskCompletionLocks(taskIds: seq<TaskId>, env: Environment) returns (thrown: bool)
      requires leases == [] && log == []
      modifies this
      ensures leases == [] && log == Trace(SortedDistinct(taskIds), [], env)
      ensures thrown <==> WentWrong(log, env)
    {
      var sorted := SortedDistinct(taskIds);
      assert sorted[0..] == sorted;
      thrown := Acquire(sorted, 0, env);
      ThrowsIff(sorted, [], env);
    }
  }

  function Acquisitions(ids: seq<TaskId>): seq<LockEvent> {
    if ids == [] then [] else [Acquired(ids[0])] + Acquisitions(ids[1..])
  }

  /** Last taken, first released. */
  function Releases(ids: seq<TaskId>): seq<LockEvent> {
    if ids == [] then [] else Releases(ids[1..]) + [Released(ids[0])]
  }

  /** How many locks are taken before the list ends or a lock is busy. */
  function Taken(ids: seq<TaskId>, held: seq<TaskId>, env: Environment): (k: nat)
    ensures k <= |ids|
  {
    if ids == [] || ids[0] == [] || Busy(ids[0], held, env) then 0 else 1 + Taken(ids[1..], held + [ids[0]], env)
  }

  /** What happens after the last lock is taken. */
  function Turning(ids: seq<TaskId>, held: seq<TaskId>, k: nat): LockEvent
    requires k <= |ids|
  {
    if k == |ids| || ids[k] == [] then ActionRan(held + ids[..k]) else TimedOut(ids[k])
  }

  /** Every call takes an initial part of the list in order, then either runs the action
      once with exactly these leases or gives up at a busy lock, and releases what it
      took in reverse order. */
  lemma {:induction false} TraceShape(ids: seq<TaskId>, held: seq<TaskId>, env: Environment)
    ensures var k := Taken(ids, held, env);
            Trace(ids, held, env) == Acquisitions(ids[..k]) + [Turning(ids, held, k)] + Releases(ids[..k])
  {
    var k := Taken(ids, held, env);
    if k == 0 {
      assert held + ids[..0] == held;
    } else {
      TraceShape(ids[1..], held + [ids[0]], env);
      assert ids[1..][..k - 1] == ids[..k][1..];
      assert (held + [ids[0]]) + ids[1..][..k - 1] == held + ids[..k];
    }
  }

  lemma {:induction false} OnlyLockEvents(ids: seq<TaskId>)
    ensures forall e :: e in Acquisitions(ids) || e in Releases(ids) ==> e.Acquired? || e.Released?
  {
    if ids != [] {
      OnlyLockEvents(ids[1..]);
    }
  }

  lemma {:induction false} ActionIn(ids: seq<TaskId>, env: Environment, leases: seq<TaskId>)
    ensures ActionRan(leases) in Trace(ids, [], env) <==> Turning(ids, [], Taken(ids, [], env)) == ActionRan(leases)
  {
    var k := Taken(ids, [], env);
    TraceShape(ids, [], env);
    OnlyLockEvents(ids[..k]);
    assert Trace(ids, [], env)[|Acquisitions(ids[..k])|] == Turning(ids, [], k);
  }

  /** A call takes nothing but the locks it attempts, and all of them when each is free. */
  lemma {:induction false} AttemptedAreTaken(ids: seq<TaskId>, env: Environment)
    requires Ascending(ids)
    ensures Taken(ids, [], env) <= |Attempted(ids)|
    ensures (forall k :: 0 <= k < |Attempted(ids)| ==> FreeAt(Attempted(ids), k, env)) ==> Taken(ids, [], env) == |Attempted(ids)|
  {
    if ids != [] && ids[0] != [] {
      TakenIff(ids, env, |ids|);
      forall k | 0 <= k < |ids| ensures ids[k] != [] {
        if k > 0 { assert Less(ids[0], ids[k]); }
      }
    }
  }

  // ----- How a call ends

  /** A lock timed out, the action ran and threw, or a lock given up had been lost. */
  predicate WentWrong(log: seq<LockEvent>, env: Environment) {
    exists i :: 0 <= i < |log| &&
      match log[i]
      case TimedOut(_) => true
      case ActionRan(_) => env.actionThrows
      case Released(id) => env.lost(id)
      case Acquired(_) => false
  }

  lemma {:induction false} WentWrongAround(first: LockEvent, middle: seq<LockEvent>, last: LockEvent, env: Environment)
    requires first.Acquired? && last.Released?
    ensures WentWrong([first] + middle + [last], env) <==> WentWrong(middle, env) || env.lost(last.id)
  {
    var all := [first] + middle + [last];
    assert all[|all| - 1] == last && forall i :: 0 <= i < |middle| ==> all[i + 1] == middle[i];
  }

  /** An exception leaves the call exactly in that case. */
  lemma {:induction false} ThrowsIff(ids: seq<TaskId>, held: seq<TaskId>, env: Environment)
    ensures Throws(ids, held, env) <==> WentWrong(Trace(ids, held, env), env)
    decreases |ids|
  {
    if ids == [] || ids[0] == [] || Busy(ids[0], held, env) {
      assert Trace(ids, held, env)[0] == if ids == [] || ids[0] == [] then ActionRan(held) else TimedOut(ids[0]);
    } else {
      ThrowsIff(ids[1..], held + [ids[0]], env);
      WentWrongAround(Acquired(ids[0]), Trace(ids[1..], held + [ids[0]], env), Released(ids[0]), env);
    }
  }

  /** So a call returns normally exactly when its action ran and returned and every lock it
      gave up was still its own. */
  lemma {:induction false} ReturnsIff(ids: seq<TaskId>, env: Environment)
    ensures var log := Trace(ids, [], env);
            !Throws(ids, [], env) <==>
              && (exists leases :: ActionRan(leases) in log) && !env.actionThrows
              && forall id :: Released(id) in log ==> !env.lost(id)
  {
    var k, log := Taken(ids, [], env), Trace(ids, [], env);
    ThrowsIff(ids, [], env);
    TraceShape(ids, [], env);
    OnlyLockEvents(ids[..k]);
    var turn := |Acquisitions(ids[..k])|;
    assert log[turn] == Turning(ids, [], k);
    if Turning(ids, [], k).ActionRan? { assert ActionRan(Turning(ids, [], k).leases) in log; }
    if id :| Released(id) in log && env.lost(id) {
      var i :| 0 <= i < |log| && log[i] == Released(id);
      assert WentWrong(log, env);
    }
    if i :| 0 <= i < |log| && log[i].Released? && env.lost(log[i].id) { assert Released(log[i].id) in log; }
    assert forall e :: e in log && (e.TimedOut? || e.ActionRan?) ==> e == Turning(ids, [], k);
  }

  /** The lock `ids[k]` is free for this call, which has taken those before it. */
  predicate FreeAt(ids: seq<TaskId>, k: nat, env: Environment)
    requires k < |ids|
  {
    !env.busy(ids[k]) && forall j :: 0 <= j < k ==> Key(ids[j]) != Key(ids[k])
  }

  /** How many locks are taken: all before the first empty id or lock that is not free. */
  lemma {:induction false} TakenIff(ids: seq<TaskId>, env: Environment, n: nat)
    requires n <= |ids|
    ensures Taken(ids, [], env) >= n <==> forall k :: 0 <= k < n ==> ids[k] != [] && FreeAt(ids, k, env)
  {
    assert ids[..0] == [] && ids[0..] == ids;
    TakenBeyond(ids, 0, env, n);
  }

  lemma {:induction false} TakenBeyond(ids: seq<TaskId>, from: nat, env: Environment, n: nat)
    requires from <= n <= |ids|
    ensures from + Taken(ids[from..], ids[..from], env) >= n <==> forall k :: from <= k < n ==> ids[k] != [] && FreeAt(ids, k, env)
    decreases |ids| - from
  {
    if from < n {
      BusyIffNotFree(ids, from, env);
      assert ids[from..][1..] == ids[from + 1..] && ids[..from] + [ids[from]] == ids[..from + 1];
      TakenBeyond(ids, from + 1, env, n);
    }
  }

  lemma {:induction false} BusyIffNotFree(ids: seq<TaskId>, k: nat, env: Environment)
    requires k < |ids|
    ensures Busy(ids[k], ids[..k], env) <==> !FreeAt(ids, k, env)
  {
    if j :| 0 <= j < k && Key(ids[j]) == Key(ids[k]) { assert ids[..k][j] in ids[..k]; }
    if h :| h in ids[..k] && Key(h) == Key(ids[k]) { var j :| 0 <= j < k && ids[..k][j] == h; assert ids[j] == h; }
  }

  /** The whole log of a call: it takes the locks before the first one that is not free, times
      out there, and otherwise runs the action with all of them. */
  lemma {:induction false} TimesOutIff(ids: seq<TaskId>, env: Environment, k: nat)
    requires k < |ids| && ids[k] != [] && forall j :: 0 <= j < k ==> ids[j] != [] && FreeAt(ids, j, env)
    requires !FreeAt(ids, k, env)
    ensures Trace(ids, [], env) == Acquisitions(ids[..k]) + [TimedOut(ids[k])] + Releases(ids[..k])
  {
    TakenIff(ids, env, k);
    TakenIff(ids, env, k + 1);
    TraceShape(ids, [], env);
  }

  lemma {:induction false} RunsIff(ids: seq<TaskId>, env: Environment)
    ensures (forall k :: 0 <= k < |ids| ==> ids[k] != [] && FreeAt(ids, k, env)) <==> ActionRan(ids) in Trace(ids, [], env) && [] !in ids
  {
    TakenIff(ids, env, |ids|);
    ActionIn(ids, env, ids);
    AllTaken(ids, Taken(ids, [], env));
    if [] !in ids { forall k | 0 <= k < |ids| ensures ids[k] != [] { assert ids[k] in ids; } }
  }

  /** The action runs with exactly one lease for each distinct id precisely when no id is empty,
      no two ids have the same key, and no lock is busy elsewhere; an empty id and it runs with
      none at all. */
  lemma {:induction false} ActionSeesAllLeasesIff(taskIds: seq<TaskId>, env: Environment)
    ensures var ids := SortedDistinct(taskIds);
            && (ActionRan(ids) in Trace(ids, [], env) <==> [] !in taskIds && KeysDistinct(ids) && forall id :: id in taskIds ==> !env.busy(id))
            && ([] in taskIds ==> Trace(ids, [], env) == [ActionRan([])])
  {
    var ids := SortedDistinct(taskIds);
    if [] in taskIds {
      HeadIsLeast(ids, []);
      assert ids[0] == [];
    } else {
      RunsIff(ids, env);
      forall id | id in taskIds ensures id in ids { }
      forall k | 0 <= k < |ids| ensures ids[k] in taskIds { assert ids[k] in ids; }
      assert (forall k :: 0 <= k < |ids| ==> FreeAt(ids, k, env)) <==> KeysDistinct(ids) && forall k :: 0 <= k < |ids| ==> !env.busy(ids[k]);
      forall id | id in taskIds ensures exists k :: 0 <= k < |ids| && ids[k] == id { assert id in ids; }
    }
  }

  lemma {:induction false} AllTaken(ids: seq<TaskId>, k: nat)
    requires k <= |ids|
    ensures Turning(ids, [], k) == ActionRan(ids) <==> k == |ids|
  {
    assert ids[..|ids|] == ids && [] + ids[..k] == ids[..k];
    assert |ids[..k]| == k;
  }

  /** The ids of the command line are never empty and are their own keys. */
  lemma {:induction false} SelectorIdsAreSafe(taskIds: seq<TaskId>)
    requires forall id :: id in taskIds ==> IsSelectorId(id)
    ensures [] !in taskIds && KeysDistinct(SortedDistinct(taskIds)) && KeysAscend(SortedDistinct(taskIds))
  {
    var ids := SortedDistinct(taskIds);
    forall i, j | 0 <= i < j < |ids| ensures Less(Key(ids[i]), Key(ids[j])) && Key(ids[i]) != Key(ids[j]) {
      assert ids[i] in ids && ids[j] in ids;
      SelectorKey(ids[i]);
      SelectorKey(ids[j]);
      LessIrreflexive(ids[i]);
    }
  }
}
