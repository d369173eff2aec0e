/** What one apply leaves behind (cli/commands/update.ts:358-583): the tree, path by
    path, for every way a primitive can fail, and what the journal says about it. */
module UpdateOutcomes {
  import opened Wrappers
  import opened UpdateTree
  import opened UpdateApply
  import opened UpdateJournal

  // ----- The staged entries

  /** No two staged entries share or nest paths, and their ids differ. */
  ghost predicate StagedApart(staged: seq<Staged>) {
    forall i, j :: 0 <= i < |staged| && 0 <= j < |staged| && i != j ==>
      Disjoint(staged[i].op.path, staged[j].op.path) && staged[i].id != staged[j].id
  }

  /** The state in which the try block starts. */
  ghost predicate Ready(codec: Codec, staged: seq<Staged>, locked: Tree) {
    && StagedApart(staged)
    && WellFormed(locked)
    && AllCurrent(codec, staged, locked)
    && forall i :: 0 <= i < |staged| ==> IsWritable(staged[i].op)
  }

  predicate IsWrite(op: Operation) {
    op.Create? || op.UpdateManaged?
  }

  /** What `q` holds after `op`, where it held `v`. */
  function After(op: Operation, q: Path, v: Option<Bytes>): Option<Bytes> {
    if IsWrite(op) then (if q == op.path then Some(op.next) else v)
    else if Within(q, op.path) then None
    else v
  }

  lemma {:induction false} EffectAt(op: Operation, t: Tree, q: Path)
    ensures Get(Effect(op, t), q) == After(op, q, Get(t, q))
  {
  }

  /** What `q` holds once `s` is restored, where it held `v` and the backup `kept`. */
  function Back(s: Staged, q: Path, v: Option<Bytes>, kept: Option<Bytes>): Option<Bytes> {
    if s.existed && !s.isDirectory then (if q == s.op.path then Some(s.content) else v)
    else if !Within(q, s.op.path) then v
    else if s.existed then kept
    else None
  }

  /** Each of the first `n` entries that existed has a full copy. */
  ghost predicate Kept(staged: seq<Staged>, locked: Tree, backups: map<nat, Tree>, n: nat)
    requires n <= |staged|
  {
    forall i :: 0 <= i < n && staged[i].existed ==>
      staged[i].id in backups && backups[staged[i].id] == Subtree(locked, staged[i].op.path)
  }

  lemma {:induction false} RestoreAt(t: Tree, s: Staged, locked: Tree, backups: map<nat, Tree>, q: Path)
    requires s.existed ==> s.id in backups && backups[s.id] == Subtree(locked, s.op.path)
    ensures Get(RestoreOne(t, s, backups), q) == Back(s, q, Get(t, q), Get(locked, q))
  {
  }

  // ----- The loops, seen from one path

  lemma {:induction false} MutateOutside(staged: seq<Staged>, t: Tree, faults: Faults, n: nat, q: Path)
    requires n <= |staged| && forall i :: 0 <= i < n ==> !Within(q, staged[i].op.path)
    ensures Get(Mutate(staged, t, faults, n).tree, q) == Get(t, q)
  {
    if n > 0 {
      MutateOutside(staged, t, faults, n - 1, q);
      EffectAt(staged[n - 1].op, Mutate(staged, t, faults, n - 1).tree, q);
      WithinSelf(q);
    }
  }

  /** A write is possible during the loop exactly when it was before it. */
  lemma {:induction false} PossibleStays(staged: seq<Staged>, t: Tree, faults: Faults, i: nat)
    requires StagedApart(staged) && i < |staged|
    ensures Possible(staged[i].op, Mutate(staged, t, faults, i).tree) == Possible(staged[i].op, t)
  {
    var p, now := staged[i].op.path, Mutate(staged, t, faults, i).tree;
    forall q | Within(q, p) || Within(p, q)
      ensures Get(now, q) == Get(t, q)
    {
      ApartFromOthers(staged, i, q);
      MutateOutside(staged, t, faults, i, q);
    }
    SameNearby(t, now, p);
  }

  lemma {:induction false} SameNearby(t: Tree, now: Tree, p: Path)
    requires forall q :: Within(q, p) || Within(p, q) ==> Get(now, q) == Get(t, q)
    ensures CanWrite(t, p) == CanWrite(now, p)
  {
    forall q | Within(q, p) || Within(p, q)
      ensures q in t <==> q in now
    {
      assert Get(now, q) == Get(t, q);
    }
  }

  lemma {:induction false} ApartFromOthers(staged: seq<Staged>, i: nat, q: Path)
    requires StagedApart(staged) && i < |staged| && (Within(q, staged[i].op.path) || Within(staged[i].op.path, q))
    ensures forall j :: 0 <= j < |staged| && j != i ==> !Within(q, staged[j].op.path)
  {
    forall j | 0 <= j < |staged| && j != i
      ensures !Within(q, staged[j].op.path)
    {
      var p, r := staged[i].op.path, staged[j].op.path;
      assert Disjoint(p, r);
      if Within(q, p) { DisjointBelow(p, r); } else if Within(q, r) { WithinThrough(p, q, r); }
    }
  }

  lemma {:induction false} WithinThrough(p: Path, q: Path, r: Path)
    requires Within(p, q) && Within(q, r)
    ensures Within(p, r)
  {
  }

  /** The entry at which the loop stopped threw although it had taken effect. */
  predicate Torn(staged: seq<Staged>, t: Tree, faults: Faults, i: nat)
    requires i < |staged|
  {
    faults.mutate(i).ThrowsAfter? && Possible(staged[i].op, t)
  }

  predicate Reached(staged: seq<Staged>, t: Tree, faults: Faults, n: nat, i: nat)
    requires i < n <= |staged|
  {
    var k := Mutate(staged, t, faults, n).applied;
    i < k || (i == k && Torn(staged, t, faults, i))
  }

  lemma {:induction false} MutateLast(staged: seq<Staged>, t: Tree, faults: Faults, q: Path, i: nat)
    requires StagedApart(staged) && i < |staged| && Within(q, staged[i].op.path)
    ensures Get(Mutate(staged, t, faults, i + 1).tree, q)
         == if Reached(staged, t, faults, i + 1, i) then After(staged[i].op, q, Get(t, q)) else Get(t, q)
  {
    ApartFromOthers(staged, i, q);
    EffectAt(staged[i].op, Mutate(staged, t, faults, i).tree, q);
    PossibleStays(staged, t, faults, i);
    MutateOutside(staged, t, faults, i, q);
  }

  lemma {:induction false} MutateInside(staged: seq<Staged>, t: Tree, faults: Faults, n: nat, q: Path, i: nat)
    requires StagedApart(staged) && i < n <= |staged| && Within(q, staged[i].op.path)
    ensures Get(Mutate(staged, t, faults, n).tree, q)
         == if Reached(staged, t, faults, n, i) then After(staged[i].op, q, Get(t, q)) else Get(t, q)
    decreases n
  {
    if i == n - 1 {
      MutateLast(staged, t, faults, q, i);
    } else {
      MutateInside(staged, t, faults, n - 1, q, i);
      ApartFromOthers(staged, i, q);
      EffectAt(staged[n - 1].op, Mutate(staged, t, faults, n - 1).tree, q);
      WithinSelf(q);
    }
  }

  lemma {:induction false} RestoreOutside(t: Tree, staged: seq<Staged>, locked: Tree, backups: map<nat, Tree>, n: nat, q: Path)
    requires n <= |staged| && Kept(staged, locked, backups, n)
    requires forall i :: 0 <= i < n ==> !Within(q, staged[i].op.path)
    ensures Get(Restore(t, staged, backups, n), q) == Get(t, q)
    decreases n
  {
    if n > 0 {
      RestoreAt(t, staged[n - 1], locked, backups, q);
      WithinSelf(q);
      RestoreOutside(RestoreOne(t, staged[n - 1], backups), staged, locked, backups, n - 1, q);
    }
  }

  lemma {:induction false} RestoreInside(t: Tree, staged: seq<Staged>, locked: Tree, backups: map<nat, Tree>, n: nat, q: Path, i: nat)
    requires i < n <= |staged| && StagedApart(staged) && Kept(staged, locked, backups, n) && Within(q, staged[i].op.path)
    ensures Get(Restore(t, staged, backups, n), q) == Back(staged[i], q, Get(t, q), Get(locked, q))
    decreases n
  {
    var t1 := RestoreOne(t, staged[n - 1], backups);
    RestoreAt(t, staged[n - 1], locked, backups, q);
    ApartFromOthers(staged, i, q);
    if i < n - 1 {
      WithinSelf(q);
      RestoreInside(t1, staged, locked, backups, n - 1, q, i);
    } else {
      RestoreOutside(t1, staged, locked, backups, n - 1, q);
    }
  }

  lemma {:induction false} BackUpKeeps(staged: seq<Staged>, locked: Tree, backups: map<nat, Tree>, faults: Faults, n: nat)
    requires StagedApart(staged) && n <= |staged| && BackUp(staged, locked, backups, faults, n).1
    ensures Kept(staged, locked, BackUp(staged, locked, backups, faults, n).0, n)
  {
    if n > 0 {
      BackUpKeeps(staged, locked, backups, faults, n - 1);
    }
  }

  // ----- Where the try block stops

  /** How many entries are in `applied` when an exception is caught, and whether the next
      one took effect without getting there. */
  datatype Halt = Halt(applied: nat, torn: bool)

  function HaltOf(staged: seq<Staged>, locked: Tree, backups: map<nat, Tree>, faults: Faults): (h: Halt)
    ensures h.applied <= |staged| && (h.torn ==> h.applied < |staged|)
  {
    if !faults.prepared.NoFault? || !BackUp(staged, locked, backups, faults, |staged|).1 then Halt(0, false)
    else
      var r := Mutate(staged, locked, faults, |staged|);
      Halt(r.applied, !r.ok && Torn(staged, locked, faults, r.applied))
  }

  /** What an applied and restored entry ends up with. */
  function Replaced(s: Staged, q: Path, v: Option<Bytes>): Option<Bytes> {
    if s.existed && !s.isDirectory && q == s.op.path then Some(s.content) else v
  }

  lemma {:induction false} BackAfter(codec: Codec, s: Staged, locked: Tree, q: Path)
    requires WellFormed(locked) && StillCurrent(codec, s, locked) && IsWritable(s.op) && Within(q, s.op.path)
    ensures Back(s, q, After(s.op, q, Get(locked, q)), Get(locked, q)) == Replaced(s, q, Get(locked, q))
  {
    if s.existed && !s.isDirectory && q != s.op.path {
      assert q !in locked;
    }
  }

  /** The tree after a failed batch, at a path within the staged entry `i`. */
  function Ended(s: Staged, i: nat, halt: Halt, q: Path, v: Option<Bytes>): Option<Bytes> {
    if i < halt.applied then Replaced(s, q, v)
    else if i == halt.applied && halt.torn then After(s.op, q, v)
    else v
  }

  /** The whole tree after a failed batch, as a function of where it stopped. */
  lemma {:induction false} FailedTree(codec: Codec, w: World, staged: seq<Staged>, batch: nat, faults: Faults, q: Path, i: nat)
    requires Ready(codec, staged, w.tree) && i < |staged| && Within(q, staged[i].op.path)
    requires !Transact(codec, w, staged, batch, faults).1.CommittedBatch?
    ensures Get(Transact(codec, w, staged, batch, faults).0.tree, q)
         == Ended(staged[i], i, HaltOf(staged, w.tree, w.backups, faults), q, Get(w.tree, q))
  {
    var backed := BackUp(staged, w.tree, w.backups, faults, |staged|);
    if faults.prepared.NoFault? && backed.1 {
      BackUpKeeps(staged, w.tree, w.backups, faults, |staged|);
      var r := Mutate(staged, w.tree, faults, |staged|);
      MutateInside(staged, w.tree, faults, |staged|, q, i);
      ApartFromOthers(staged, i, q);
      BackAfter(codec, staged[i], w.tree, q);
      if i < r.applied {
        RestoreInside(r.tree, staged, w.tree, backed.0, r.applied, q, i);
      } else {
        RestoreOutside(r.tree, staged, w.tree, backed.0, r.applied, q);
      }
    }
  }

  /** No unstaged path changes, whatever fails. */
  lemma {:induction false} UnstagedUnchanged(codec: Codec, w: World, staged: seq<Staged>, batch: nat, faults: Faults, q: Path)
    requires Ready(codec, staged, w.tree) && forall i :: 0 <= i < |staged| ==> !Within(q, staged[i].op.path)
    ensures Get(Transact(codec, w, staged, batch, faults).0.tree, q) == Get(w.tree, q)
  {
    var backed := BackUp(staged, w.tree, w.backups, faults, |staged|);
    if faults.prepared.NoFault? && backed.1 {
      BackUpKeeps(staged, w.tree, w.backups, faults, |staged|);
      var r := Mutate(staged, w.tree, faults, |staged|);
      MutateOutside(staged, w.tree, faults, |staged|, q);
      RestoreOutside(r.tree, staged, w.tree, backed.0, r.applied, q);
    }
  }

  // ----- All or nothing

  lemma {:induction false} MutateOkIff(staged: seq<Staged>, t: Tree, faults: Faults, n: nat)
    requires StagedApart(staged) && n <= |staged|
    ensures Mutate(staged, t, faults, n).ok
        <==> forall i :: 0 <= i < n ==> faults.mutate(i).NoFault? && Possible(staged[i].op, t)
  {
    if n > 0 {
      MutateOkIff(staged, t, faults, n - 1);
      MutateOneMore(staged, t, faults, n - 1);
    }
  }

  lemma {:induction false} MutateOneMore(staged: seq<Staged>, t: Tree, faults: Faults, i: nat)
    requires StagedApart(staged) && i < |staged|
    ensures Mutate(staged, t, faults, i + 1).ok
        <==> Mutate(staged, t, faults, i).ok && faults.mutate(i).NoFault? && Possible(staged[i].op, t)
  {
    PossibleStays(staged, t, faults, i);
  }

  lemma {:induction false} BackUpOkIff(staged: seq<Staged>, t: Tree, backups: map<nat, Tree>, faults: Faults, n: nat)
    requires n <= |staged|
    ensures BackUp(staged, t, backups, faults, n).1 <==> forall i :: 0 <= i < n && staged[i].existed ==> !faults.backup(i)
  {
    if n > 0 {
      BackUpOkIff(staged, t, backups, faults, n - 1);
    }
  }

  /** Nothing throws, and a file can be put wherever one is to be written. */
  predicate Undisturbed(staged: seq<Staged>, t: Tree, faults: Faults) {
    && faults.prepared.NoFault? && faults.commit.NoFault?
    && (forall i :: 0 <= i < |staged| && staged[i].existed ==> !faults.backup(i))
    && (forall i :: 0 <= i < |staged| ==> faults.mutate(i).NoFault? && Possible(staged[i].op, t))
  }

  lemma {:induction false} CommitsIff(codec: Codec, w: World, staged: seq<Staged>, batch: nat, faults: Faults)
    requires StagedApart(staged)
    ensures Transact(codec, w, staged, batch, faults).1.CommittedBatch? <==> Undisturbed(staged, w.tree, faults)
  {
    MutateOkIff(staged, w.tree, faults, |staged|);
    BackUpOkIff(staged, w.tree, w.backups, faults, |staged|);
  }

  lemma {:induction false} CommittedTree(codec: Codec, w: World, staged: seq<Staged>, batch: nat, faults: Faults, q: Path, i: nat)
    requires StagedApart(staged) && i < |staged| && Within(q, staged[i].op.path)
    requires Transact(codec, w, staged, batch, faults).1.CommittedBatch?
    ensures Get(Transact(codec, w, staged, batch, faults).0.tree, q) == After(staged[i].op, q, Get(w.tree, q))
  {
    MutateInside(staged, w.tree, faults, |staged|, q, i);
  }

  /** What a restore writes into a file is what the file held. */
  predicate Faithful(s: Staged, t: Tree) {
    s.existed && !s.isDirectory ==> Get(t, s.op.path) == Some(s.content)
  }

  /** When a failed batch leaves the tree exactly as it found it: a restored file must hold
      what its text is written back as, and an operation that threw after it took effect is
      not undone. */
  predicate Recoverable(staged: seq<Staged>, t: Tree, backups: map<nat, Tree>, faults: Faults) {
    var halt := HaltOf(staged, t, backups, faults);
    && (forall i :: 0 <= i < halt.applied ==> Faithful(staged[i], t))
    && (halt.torn ==> Effect(staged[halt.applied].op, t) == t)
  }

  lemma {:induction false} FailureRestoresIff(codec: Codec, w: World, staged: seq<Staged>, batch: nat, faults: Faults)
    requires Ready(codec, staged, w.tree) && !Transact(codec, w, staged, batch, faults).1.CommittedBatch?
    ensures Transact(codec, w, staged, batch, faults).0.tree == w.tree <==> Recoverable(staged, w.tree, w.backups, faults)
  {
    var halt := HaltOf(staged, w.tree, w.backups, faults);
    if Transact(codec, w, staged, batch, faults).0.tree == w.tree {
      RestoredMeansRecoverable(codec, w, staged, batch, faults);
    }
    if Recoverable(staged, w.tree, w.backups, faults) {
      forall q ensures Get(Transact(codec, w, staged, batch, faults).0.tree, q) == Get(w.tree, q) {
        if i :| 0 <= i < |staged| && Within(q, staged[i].op.path) {
          FailedTree(codec, w, staged, batch, faults, q, i);
          EffectAt(staged[i].op, w.tree, q);
        } else {
          UnstagedUnchanged(codec, w, staged, batch, faults, q);
        }
      }
      SameTree(Transact(codec, w, staged, batch, faults).0.tree, w.tree);
    }
  }

  lemma {:induction false} RestoredMeansRecoverable(codec: Codec, w: World, staged: seq<Staged>, batch: nat, faults: Faults)
    requires Ready(codec, staged, w.tree) && !Transact(codec, w, staged, batch, faults).1.CommittedBatch?
    requires Transact(codec, w, staged, batch, faults).0.tree == w.tree
    ensures Recoverable(staged, w.tree, w.backups, faults)
  {
    var halt := HaltOf(staged, w.tree, w.backups, faults);
    forall i | 0 <= i < halt.applied ensures Faithful(staged[i], w.tree) {
      WithinSelf(staged[i].op.path);
      FailedTree(codec, w, staged, batch, faults, staged[i].op.path, i);
    }
    if halt.torn {
      var op := staged[halt.applied].op;
      forall q ensures Get(Effect(op, w.tree), q) == Get(w.tree, q) {
        EffectAt(op, w.tree, q);
        WithinSelf(q);
        if Within(q, op.path) { FailedTree(codec, w, staged, batch, faults, q, halt.applied); }
      }
      SameTree(Effect(op, w.tree), w.tree);
    }
  }

  // ----- The journal

  lemma {:induction false} LastOfBatch(codec: Codec, journal: seq<Record>, staged: seq<Staged>, status: Status, batch: nat, i: nat)
    requires StagedApart(staged) && i < |staged|
    ensures LastStatus(journal + Records(codec, staged, status, batch), staged[i].id) == Some(status)
  {
    LastOfAppended(journal, Records(codec, staged, status, batch), staged[i].id, i);
  }

  /** The try block got as far as the append of the committed records. */
  predicate AtCommit(staged: seq<Staged>, t: Tree, faults: Faults) {
    Undisturbed(staged, t, faults.(commit := NoFault))
  }

  /** The last status in the journal of every staged id, in every ending. */
  function Verdict(staged: seq<Staged>, t: Tree, faults: Faults, before: Option<Status>): Option<Status> {
    if Undisturbed(staged, t, faults) then Some(Committed)
    else if !faults.rolledBack.ThrowsBefore? then Some(RolledBack)
    else if AtCommit(staged, t, faults) && faults.commit.ThrowsAfter? then Some(Committed)
    else if faults.prepared.ThrowsBefore? then before
    else Some(Prepared)
  }

  /** The journal after the batch. */
  function Written(codec: Codec, journal: seq<Record>, t: Tree, staged: seq<Staged>, batch: nat, faults: Faults): seq<Record> {
    var first := Append(journal, Records(codec, staged, Prepared, batch), faults.prepared).0;
    var second := if AtCommit(staged, t, faults) then Append(first, Records(codec, staged, Committed, batch), faults.commit).0 else first;
    if Undisturbed(staged, t, faults) then second
    else Append(second, Records(codec, staged, RolledBack, batch), faults.rolledBack).0
  }

  lemma {:induction false} JournalIsWritten(codec: Codec, w: World, staged: seq<Staged>, batch: nat, faults: Faults)
    requires StagedApart(staged)
    ensures Transact(codec, w, staged, batch, faults).0.journal == Written(codec, w.journal, w.tree, staged, batch, faults)
  {
    MutateOkIff(staged, w.tree, faults, |staged|);
    BackUpOkIff(staged, w.tree, w.backups, faults, |staged|);
  }

  lemma {:induction false} LastAfterAppend(codec: Codec, journal: seq<Record>, staged: seq<Staged>, status: Status, batch: nat, fault: Fault, i: nat)
    requires StagedApart(staged) && i < |staged|
    ensures LastStatus(Append(journal, Records(codec, staged, status, batch), fault).0, staged[i].id)
         == if fault.ThrowsBefore? then LastStatus(journal, staged[i].id) else Some(status)
  {
    LastOfBatch(codec, journal, staged, status, batch, i);
  }

  lemma {:induction false} JournalVerdict(codec: Codec, w: World, staged: seq<Staged>, batch: nat, faults: Faults, i: nat)
    requires StagedApart(staged) && i < |staged|
    ensures LastStatus(Transact(codec, w, staged, batch, faults).0.journal, staged[i].id)
         == Verdict(staged, w.tree, faults, LastStatus(w.journal, staged[i].id))
  {
    JournalIsWritten(codec, w, staged, batch, faults);
    var first := Append(w.journal, Records(codec, staged, Prepared, batch), faults.prepared).0;
    var second := Append(first, Records(codec, staged, Committed, batch), faults.commit).0;
    LastAfterAppend(codec, w.journal, staged, Prepared, batch, faults.prepared, i);
    LastAfterAppend(codec, first, staged, Committed, batch, faults.commit, i);
    LastAfterAppend(codec, first, staged, RolledBack, batch, faults.rolledBack, i);
    LastAfterAppend(codec, second, staged, RolledBack, batch, faults.rolledBack, i);
  }

  /** The journal calls a batch committed exactly when it is, except when the append of the
      committed records threw after writing them and the rollback could not be journaled. */
  lemma {:induction false} JournalAgreesIff(codec: Codec, w: World, staged: seq<Staged>, batch: nat, faults: Faults, i: nat)
    requires StagedApart(staged) && i < |staged| && LastStatus(w.journal, staged[i].id) == None
    ensures var (now, outcome) := Transact(codec, w, staged, batch, faults);
            var status := LastStatus(now.journal, staged[i].id);
            && ((status == Some(Committed) <==> outcome.CommittedBatch?)
                <==> !(AtCommit(staged, w.tree, faults) && faults.commit.ThrowsAfter? && faults.rolledBack.ThrowsBefore?))
            && (outcome.RestoredBatch? ==> status == Some(RolledBack))
  {
    CommitsIff(codec, w, staged, batch, faults);
    JournalVerdict(codec, w, staged, batch, faults, i);
  }
}
