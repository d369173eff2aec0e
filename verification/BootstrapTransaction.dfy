/** The snapshot-and-restore transaction of bootstrap (cli/commands/bootstrap.ts). */
module BootstrapTransaction {
  import opened Wrappers

  /** A path is its list of names below the root. */
  type Path = seq<string>

  datatype Node = Dir | File(content: seq<int>)

  type Tree = map<Path, Node>

  function Lookup(fs: Tree, p: Path): Option<Node> {
    if p in fs then Some(fs[p]) else None
  }

  lemma SameTree(a: Tree, b: Tree)
    requires forall p :: Lookup(a, p) == Lookup(b, p)
    ensures a == b
  {
    forall p ensures p in a <==> p in b {
      assert Lookup(a, p) == Lookup(b, p);
    }
    forall p | p in a ensures a[p] == b[p] {
      assert Lookup(a, p) == Lookup(b, p);
    }
  }

  /** `p` is `root` or lies below it. */
  predicate Within(p: Path, root: Path) {
    root <= p
  }

  lemma WithinIsSplit(p: Path, root: Path)
    ensures Within(p, root) ==> p == root + p[|root|..]
  {
  }

  lemma JoinedIsWithin(root: Path, r: Path)
    ensures Within(root + r, root) && (root + r)[|root|..] == r
  {
  }

  /** The name that stands right below `near` in every path within `near + [name]`. */
  lemma NameAt(p: Path, near: Path, name: string)
    ensures Within(p, near + [name]) ==> |p| > |near| && p[|near|] == name && name in p
  {
  }

  /** `rmSync(root, { recursive: true, force: true })` */
  function RemoveTree(fs: Tree, root: Path): (r: Tree)
    ensures forall p :: Lookup(r, p) == if Within(p, root) then None else Lookup(fs, p)
  {
    map p | p in fs && !Within(p, root) :: fs[p]
  }

  /** What stands at and below `root`, with paths relative to it. */
  function Extract(fs: Tree, root: Path): (tree: Tree)
    ensures forall r :: Lookup(tree, r) == Lookup(fs, root + r)
  {
    var below := set p | p in fs && Within(p, root) :: p[|root|..];
    assert forall r :: r in below <==> root + r in fs by {
      forall r ensures r in below <==> root + r in fs {
        JoinedIsWithin(root, r);
        if r in below {
          var p :| p in fs && Within(p, root) && p[|root|..] == r;
          WithinIsSplit(p, root);
        }
      }
    }
    map r | r in below :: fs[root + r]
  }

  /** `cpSync` of a tree to `root`: entries are added or overwritten. */
  function Graft(fs: Tree, root: Path, tree: Tree): (r: Tree)
    ensures forall p :: Lookup(r, p) ==
              if Within(p, root) && p[|root|..] in tree then Some(tree[p[|root|..]]) else Lookup(fs, p)
  {
    var places := set q | q in tree :: root + q;
    assert forall p :: p in places <==> Within(p, root) && p[|root|..] in tree by {
      forall p ensures p in places <==> Within(p, root) && p[|root|..] in tree {
        WithinIsSplit(p, root);
        if p in places {
          var q :| q in tree && root + q == p;
          JoinedIsWithin(root, q);
        }
      }
    }
    fs + map p | p in places :: tree[p[|root|..]]
  }

  /** `mkdirSync(path, { recursive: true })` */
  function MakeDirs(fs: Tree, path: Path): (r: Tree)
    ensures forall p :: Lookup(r, p) == if p !in fs && Within(path, p) then Some(Dir) else Lookup(fs, p)
  {
    var made := map k | 0 <= k <= |path| && path[..k] !in fs :: path[..k] := Dir;
    assert forall p :: p in made <==> p !in fs && Within(path, p) by {
      forall p ensures p in made <==> p !in fs && Within(path, p) {
        if Within(path, p) { assert p == path[..|p|]; }
      }
    }
    fs + made
  }

  function Parent(p: Path): Path {
    if p == [] then [] else p[..|p| - 1]
  }

  /** The root is a directory. */
  predicate Rooted(fs: Tree) {
    [] in fs && fs[[]] == Dir
  }

  lemma AncestorsOfParent(q: Path)
    ensures forall p :: Within(q, p) && p != q ==> Within(Parent(q), p)
  {
    forall p | Within(q, p) && p != q ensures Within(Parent(q), p) {
      assert q[..|p|] == Parent(q)[..|p|];
    }
  }

  /** The longest existing path that is a proper ancestor of `path` (or the root itself). */
  function Nearest(fs: Tree, path: Path): (r: Path)
    requires Rooted(fs)
    ensures r in fs && Within(Parent(path), r)
    ensures forall p :: Within(Parent(path), p) && p in fs ==> |p| <= |r|
    decreases |path|
  {
    AncestorsOfParent(Parent(path));
    if Parent(path) in fs then Parent(path) else Nearest(fs, Parent(path))
  }

  method NearestExistingDirectory(fs: Tree, path: Path) returns (r: Path)
    requires Rooted(fs)
    ensures r == Nearest(fs, path)
  {
    var current := Parent(path);
    ghost var from := path;
    while current !in fs
      invariant current == Parent(from) && Nearest(fs, from) == Nearest(fs, path)
      decreases |current|
    {
      var parent := Parent(current);
      if parent == current {
        return current;
      }
      from := current;
      current := parent;
    }
    return current;
  }

  /** A name that `mkdtemp` makes up: nothing in the file system or the target uses it. */
  predicate FreshName(fs: Tree, target: Path, name: string) {
    name !in target && forall p :: p in fs ==> name !in p
  }

  /** The snapshot container and the target lie outside each other, so that restoring the
      target never touches the snapshot, unless the target is the root of the file system. */
  lemma ContainerOutsideIff(fs: Tree, target: Path, name: string)
    requires Rooted(fs) && FreshName(fs, target, name)
    ensures var container := Nearest(fs, target) + [name];
            && container !in fs && !Within(target, container)
            && (!Within(container, target) <==> target != [])
  {
    var near := Nearest(fs, target);
    NameAt(target, near, name);
    NameAt(near + [name], near, name);
    assert |target| == |near| + 1 ==> (Within(near + [name], target) ==> target == near + [name]);
  }

  /** A mutation phase: whatever it makes of the target subtree, and whether it throws then. */
  datatype Phase = Phase(tree: Tree, throws: bool)

  /** Which of the remaining primitives throw, and the part of the target that a failing
      restore leaves behind. */
  datatype Faults = Faults(
    makeContainer: bool, copySnapshot: bool, makeStaging: bool, fillStaging: bool, makeTarget: bool,
    restoreRemove: bool, restoreCopy: bool, partialRestore: Tree, removeStaging: bool, removeContainer: bool)

  /** How the call ends: no mutation phase was reached; all phases ran; one threw and the
      target was restored; one threw and the restore threw as well. */
  datatype Outcome = NotStarted | Finished | RolledBack | RestoreFailed

  function SetSubtree(fs: Tree, root: Path, tree: Tree): Tree {
    Graft(RemoveTree(fs, root), root, tree)
  }

  /** The directories above the target that were missing. */
  function WithAncestors(fs: Tree, target: Path): (r: Tree)
    ensures forall p :: Lookup(r, p) ==
              if p !in fs && Within(target, p) && p != target then Some(Dir) else Lookup(fs, p)
  {
    if target == [] then fs else
      assert forall p :: Within(Parent(target), p) <==> Within(target, p) && p != target by {
        forall p ensures Within(Parent(target), p) <==> Within(target, p) && p != target {
          if |p| < |target| { assert target[..|p|] == Parent(target)[..|p|]; }
        }
      }
      MakeDirs(fs, Parent(target))
  }

  /** Everything but the root stands in a directory. */
  predicate Closed(fs: Tree) {
    Rooted(fs) && forall p :: p in fs && p != [] ==> Parent(p) in fs && fs[Parent(p)] == Dir
  }

  lemma {:induction false} AbsentIsEmpty(fs: Tree, root: Path, p: Path)
    requires Closed(fs) && root !in fs && Within(p, root)
    ensures p !in fs
    decreases |p|
  {
    if p != root {
      assert Within(Parent(p), root);
      AbsentIsEmpty(fs, root, Parent(p));
    }
  }

  /** Nothing stands at or below a path with a fresh name. */
  lemma FreshSubtree(fs: Tree, near: Path, name: string)
    requires forall p :: p in fs ==> name !in p
    ensures forall p :: Within(p, near + [name]) ==> p !in fs
  {
    forall p ensures Within(p, near + [name]) ==> p !in fs {
      NameAt(p, near, name);
    }
  }

  /** Two paths neither of which is within the other have no path in common below them. */
  lemma FreshApart(a: Path, b: Path)
    requires !Within(a, b) && !Within(b, a)
    ensures forall p :: Within(p, a) ==> !Within(p, b)
  {
    forall p | Within(p, a) ensures !Within(p, b) {
      Nested(p, a, b);
    }
  }

  lemma Nested(p: Path, a: Path, b: Path)
    ensures Within(p, a) && Within(p, b) ==> Within(a, b) || Within(b, a)
  {
    if Within(p, a) && Within(p, b) {
      if |a| <= |b| { assert p[..|b|][..|a|] == p[..|a|]; } else { assert p[..|a|][..|b|] == p[..|b|]; }
    }
  }

  /** The snapshot equals the target as it was before. */
  ghost predicate SnapshotHolds(fs: Tree, container: Path, before: Tree, target: Path) {
    container in fs && forall r :: Lookup(fs, container + ["before"] + r) == Lookup(before, target + r)
  }

  /** Apart from the target and two temporary directories, `fs` is `base`. */
  ghost predicate ElsewhereIs(fs: Tree, base: Tree, target: Path, container: Path, staging: Path) {
    forall p :: !Within(p, target) && !Within(p, container) && !Within(p, staging) ==> Lookup(fs, p) == Lookup(base, p)
  }

  lemma {:induction false} CreateThenRemove(fs: Tree, container: Path)
    requires forall p :: Within(p, container) ==> p !in fs
    ensures forall p :: !Within(p, container) ==> Lookup(fs[container := Dir], p) == Lookup(fs, p)
    ensures RemoveTree(fs[container := Dir], container) == fs
  {
    assert Within(container, container);
    SameTree(RemoveTree(fs[container := Dir], container), fs);
  }

  lemma {:induction false} GraftOutside(fs: Tree, container: Path, tree: Tree)
    ensures forall p :: !Within(p, container) ==>
              Lookup(Graft(fs, container + ["before"], tree), p) == Lookup(fs, p)
  {
    forall p | !Within(p, container) ensures !Within(p, container + ["before"]) {
      Chain(p, container + ["before"], container);
    }
  }

  /** After the copy the container holds the snapshot. */
  lemma {:induction false} CopyHolds(before: Tree, fs: Tree, container: Path, target: Path)
    requires Closed(before) && forall p :: Within(p, container) ==> p !in before
    requires var made := before[container := Dir];
             fs == if target in before then Graft(made, container + ["before"], Extract(made, target)) else made
    requires !Within(container, target)
    ensures SnapshotHolds(fs, container, before, target)
  {
    assert Lookup(fs, container) == Some(Dir) by {
      NameAt(container, container, "before");
    }
    forall r ensures Lookup(fs, container + ["before"] + r) == Lookup(before, target + r) {
      CopyHoldsAt(before, container, target, r);
    }
  }

  lemma {:induction false} CopyHoldsAt(before: Tree, container: Path, target: Path, r: Path)
    requires Closed(before) && forall p :: Within(p, container) ==> p !in before
    requires !Within(container, target)
    ensures var made := before[container := Dir];
            var fs := if target in before then Graft(made, container + ["before"], Extract(made, target)) else made;
            Lookup(fs, container + ["before"] + r) == Lookup(before, target + r)
  {
    var copy, made := container + ["before"], before[container := Dir];
    Below(container, copy, r);
    NothingThere(before, container, copy + r);
    NotTheContainer(before, container, target, r);
    if target !in before {
      AbsentIsEmpty(before, target, target + r);
    } else {
      GraftedAt(made, copy, Extract(made, target), r);
    }
  }

  lemma {:induction false} Below(container: Path, copy: Path, r: Path)
    requires copy == container + ["before"]
    ensures Within(copy + r, container) && copy + r != container
  {
    assert |copy + r| > |container|;
  }

  lemma {:induction false} NothingThere(before: Tree, container: Path, p: Path)
    requires Within(p, container) && p != container && p !in before
    ensures Lookup(before[container := Dir], p) == None
  {
  }

  lemma {:induction false} NotTheContainer(before: Tree, container: Path, target: Path, r: Path)
    requires !Within(container, target)
    ensures Lookup(before[container := Dir], target + r) == Lookup(before, target + r)
    ensures Within(target + r, target)
  {
    JoinedIsWithin(target, r);
  }

  lemma {:induction false} GraftedAt(fs: Tree, root: Path, tree: Tree, r: Path)
    ensures Lookup(Graft(fs, root, tree), root + r) == if r in tree then Some(tree[r]) else Lookup(fs, root + r)
  {
    JoinedIsWithin(root, r);
  }

  predicate IsFile(fs: Tree, p: Path) {
    p in fs && fs[p].File?
  }

  /** The nearest directory above the target is one and takes the container, the target is not
      the root, and the copy of an existing one does not throw. */
  predicate CanSnapshot(fs: Tree, target: Path, faults: Faults)
    requires Rooted(fs)
  {
    fs[Nearest(fs, target)] == Dir && !faults.makeContainer && target != [] && (target in fs ==> !faults.copySnapshot)
  }

  /** The target directory can be made unless the target is a file. */
  lemma {:induction false} BlockedIff(before: Tree, fs: Tree, target: Path, container: Path, staging: Path)
    requires Closed(before) && before[Nearest(before, target)] == Dir && AllApart(target, container, staging)
    requires forall p :: !Within(p, container) && !Within(p, staging) ==> Lookup(fs, p) == Lookup(before, p)
    ensures Blocked(fs, target) <==> IsFile(before, target)
  {
    forall k | 0 <= k <= |target| ensures Lookup(fs, target[..k]) == Lookup(before, target[..k]) {
      assert Within(target, target[..k]);
    }
    assert target[..|target|] == target;
    forall k | 0 <= k < |target| && target[..k] in before ensures before[target[..k]] == Dir {
      AboveIsDirectory(before, target, k);
    }
    if IsFile(before, target) { assert Lookup(fs, target[..|target|]) == Lookup(before, target); }
    if k :| 0 <= k <= |target| && target[..k] in fs && fs[target[..k]].File? {
      assert Lookup(fs, target[..k]) == Lookup(before, target[..k]);
    }
  }

  lemma {:induction false} AboveIsDirectory(fs: Tree, target: Path, k: nat)
    requires Closed(fs) && fs[Nearest(fs, target)] == Dir && k < |target| && target[..k] in fs
    ensures fs[target[..k]] == Dir
    decreases |target| - k
  {
    var near := Nearest(fs, target);
    assert Within(Parent(target), target[..k]) by { assert Parent(target)[..k] == target[..k]; }
    if k < |near| {
      assert near == Parent(target)[..|near|] && target[..k] == near[..k];
      PrefixesAreDirectories(fs, near, k);
    } else {
      assert k == |near| && target[..k] == near;
    }
  }

  lemma {:induction false} PrefixesAreDirectories(fs: Tree, p: Path, k: nat)
    requires Closed(fs) && p in fs && k < |p|
    ensures p[..k] in fs && fs[p[..k]] == Dir
    decreases |p|
  {
    if k < |p| - 1 {
      assert Parent(p)[..k] == p[..k];
      PrefixesAreDirectories(fs, Parent(p), k);
    }
  }

  class Bootstrap {
    var fs: Tree

    constructor (initial: Tree)
      ensures fs == initial
    {
      fs := initial;
    }

    /** Copies the target into a fresh container; on failure nothing is left but, when its
        removal throws too, the container itself. */
    method SnapshotTarget(target: Path, name: string, faults: Faults)
      returns (made: bool, container: Path, existed: bool)
      requires Closed(fs) && FreshName(fs, target, name)
      modifies this
      ensures container == old(Nearest(fs, target)) + [name] && existed == (target in old(fs))
      ensures made <==> CanSnapshot(old(fs), target, faults)
      ensures made ==> target != [] && SnapshotHolds(fs, container, old(fs), target)
      ensures forall p :: !Within(p, container) ==> Lookup(fs, p) == Lookup(old(fs), p)
      ensures !made && !faults.removeContainer ==> fs == old(fs)
    {
      var near := NearestExistingDirectory(fs, target);
      container := near + [name];
      existed := target in fs;
      ContainerOutsideIff(fs, target, name);
      FreshSubtree(fs, near, name);
      made := false;
      if fs[near] != Dir || faults.makeContainer {
        return;
      }
      ghost var before := fs;
      CreateThenRemove(fs, container);
      fs := fs[container := Dir];
      if Within(container, target) || (existed && faults.copySnapshot) {
        if !faults.removeContainer {
          fs := RemoveTree(fs, container);
        }
        return;
      }
      if existed {
        GraftOutside(fs, container, Extract(fs, target));
        fs := Graft(fs, container + ["before"], Extract(fs, target));
      }
      CopyHolds(before, fs, container, target);
      made := true;
    }

    /** Writes the template files into a second fresh directory, which is dropped again
        when a payload is invalid. */
    method StageTemplates(target: Path, name: string, staged: Tree, faults: Faults)
      returns (made: bool, staging: Path)
      requires Rooted(fs)
      requires forall p :: Within(p, Nearest(fs, target) + [name]) ==> p !in fs
      modifies this
      ensures staging == old(Nearest(fs, target)) + [name]
      ensures made <==> old(fs[Nearest(fs, target)] == Dir) && !faults.makeStaging && !faults.fillStaging
      ensures forall p :: !Within(p, staging) ==> Lookup(fs, p) == Lookup(old(fs), p)
      ensures !made && !faults.removeStaging ==> fs == old(fs)
    {
      var near := NearestExistingDirectory(fs, target);
      made, staging := false, near + [name];
      if fs[near] != Dir || faults.makeStaging {
        return;
      }
      ghost var before := fs;
      fs := Graft(fs[staging := Dir], staging, staged);
      if faults.fillStaging {
        if !faults.removeStaging {
          fs := RemoveTree(fs, staging);
          SameTree(fs, before);
        }
        return;
      }
      made := true;
    }

    /** The mutation phases in order; `reached` tells whether the target was created. */
    method RunPhases(target: Path, phases: seq<Phase>, faults: Faults) returns (reached: bool, thrown: bool)
      modifies this
      ensures reached <==> !Blocked(old(fs), target) && !faults.makeTarget
      ensures thrown <==> !reached || exists i :: 0 <= i < |phases| && phases[i].throws
      ensures !reached ==> fs == old(fs)
      ensures forall p :: !Within(p, target) ==>
                Lookup(fs, p) == Lookup(if reached then WithAncestors(old(fs), target) else old(fs), p)
      ensures !thrown && phases != [] ==>
                forall r :: Lookup(fs, target + r) == Lookup(phases[|phases| - 1].tree, r)
    {
      if Blocked(fs, target) || faults.makeTarget {
        return false, true;
      }
      fs := MakeDirs(fs, target);
      for i := 0 to |phases|
        invariant forall p :: !Within(p, target) ==> Lookup(fs, p) == Lookup(WithAncestors(old(fs), target), p)
        invariant i > 0 ==> forall r :: Lookup(fs, target + r) == Lookup(phases[i - 1].tree, r)
        invariant forall j :: 0 <= j < i ==> !phases[j].throws
      {
        RunPhase(target, phases[i]);
        if phases[i].throws {
          return true, true;
        }
      }
      return true, false;
    }

    method RunPhase(target: Path, phase: Phase)
      modifies this
      ensures forall p :: !Within(p, target) ==> Lookup(fs, p) == Lookup(old(fs), p)
      ensures forall r :: Lookup(fs, target + r) == Lookup(phase.tree, r)
    {
      fs := SetSubtree(fs, target, phase.tree);
      SubtreeIs(RemoveTree(fs, target), target, phase.tree);
      forall r ensures Lookup(fs, target + r) == Lookup(phase.tree, r) {
        JoinedIsWithin(target, r);
      }
    }

    /** Nothing outside the target changes; when no primitive throws the target is the snapshot. */
    method RestoreTarget(target: Path, container: Path, existed: bool, faults: Faults) returns (thrown: bool)
      modifies this
      ensures thrown <==> faults.restoreRemove || (existed && faults.restoreCopy)
      ensures forall p :: !Within(p, target) ==> Lookup(fs, p) == Lookup(old(fs), p)
      ensures !thrown && !Within(container, target) && !Within(target, container) ==>
                forall r :: Lookup(fs, target + r) ==
                  if existed then old(Lookup(fs, container + ["before"] + r)) else None
    {
      if faults.restoreRemove {
        return true;
      }
      ghost var before := fs;
      fs := RemoveTree(fs, target);
      if existed {
        if faults.restoreCopy {
          fs := Graft(fs, target, faults.partialRestore);
          return true;
        }
        fs := Graft(fs, target, Extract(fs, container + ["before"]));
      }
      RestoreHolds(before, fs, target, container, existed);
      return false;
    }

    /** Everything up to the end of the try block and its handler, given the snapshot. */
    method MutateOrRestore(target: Path, container: Path, existed: bool, stagingName: string, staged: Tree,
                           phases: seq<Phase>, faults: Faults, ghost before: Tree)
      returns (outcome: Outcome, reached: bool, stagingMade: bool, staging: Path)
      requires Closed(before) && Rooted(fs) && target != [] && existed == (target in before)
      requires StagingPath(before, target, stagingName) != container
      requires Temporary(before, target, container) && Temporary(before, target, StagingPath(before, target, stagingName))
      requires SnapshotHolds(fs, container, before, target)
      requires forall p :: !Within(p, container) ==> Lookup(fs, p) == Lookup(before, p)
      requires before[Nearest(before, target)] == Dir
      modifies this
      ensures staging == StagingPath(before, target, stagingName)
      ensures stagingMade <==> !faults.makeStaging && !faults.fillStaging
      ensures reached <==> stagingMade && !faults.makeTarget && !IsFile(before, target)
      ensures outcome.Finished? <==> reached && forall i :: 0 <= i < |phases| ==> !phases[i].throws
      ensures outcome.RestoreFailed? <==> !outcome.Finished? && (faults.restoreRemove || (existed && faults.restoreCopy))
      ensures ElsewhereIs(fs, if reached then WithAncestors(before, target) else before, target, container, staging)
      ensures SnapshotHolds(fs, container, before, target)
      ensures !outcome.NotStarted?
      ensures outcome.Finished? ==>
                phases != [] ==> forall r :: Lookup(fs, target + r) == Lookup(phases[|phases| - 1].tree, r)
      ensures outcome.RolledBack? ==> forall r :: Lookup(fs, target + r) == Lookup(before, target + r)
      ensures !stagingMade && !faults.removeStaging ==> forall p :: Within(p, staging) ==> p !in fs
    {
      ghost var expected := StagingPath(before, target, stagingName);
      TemporaryFacts(before, target, container, expected);
      ghost var start := fs;
      BeforeStaging(start, before, target, container, expected);
      stagingMade, staging := StageTemplates(target, stagingName, staged, faults);
      ghost var prepared := fs;
      AfterStaging(start, prepared, before, target, container, staging);
      var thrown := !stagingMade;
      reached := false;
      if stagingMade {
        BlockedIff(before, prepared, target, container, staging);
        reached, thrown := RunPhases(target, phases, faults);
        AfterPhases(prepared, fs, before, target, container, staging, reached);
      }
      if !thrown {
        outcome := Finished;
        return;
      }
      ghost var broken := fs;
      var restoreThrew := RestoreTarget(target, container, existed, faults);
      outcome := if restoreThrew then RestoreFailed else RolledBack;
      AfterRestore(broken, fs, before, target, container, staging, reached, existed);
    }

    /** The whole transaction, the finally block included. `staged` is what the template
        files make of the staging directory; `reached` tells whether the target directory
        was created, `stagingMade` whether the staging directory was. */
    method Execute(target: Path, containerName: string, stagingName: string, staged: Tree,
                   phases: seq<Phase>, faults: Faults)
      returns (outcome: Outcome, reached: bool, stagingMade: bool)
      requires Closed(fs) && containerName != stagingName
      requires FreshName(fs, target, containerName) && FreshName(fs, target, stagingName)
      modifies this
      // Which outcome the call has.
      ensures outcome.NotStarted? <==> !CanSnapshot(old(fs), target, faults)
      ensures !outcome.NotStarted? ==>
                && (stagingMade <==> !faults.makeStaging && !faults.fillStaging)
                && (reached <==> stagingMade && !faults.makeTarget && !IsFile(old(fs), target))
                && (outcome.Finished? <==> reached && forall i :: 0 <= i < |phases| ==> !phases[i].throws)
                && (outcome.RestoreFailed? <==> !outcome.Finished? && (faults.restoreRemove || (target in old(fs) && faults.restoreCopy)))
      // Nothing outside the target changes but the two temporary directories and, once
      // the target is created, its missing ancestors.
      ensures ElsewhereIs(fs, if reached then WithAncestors(old(fs), target) else old(fs), target,
                          old(StagingPath(fs, target, containerName)), old(StagingPath(fs, target, stagingName)))
      ensures outcome.NotStarted? && !faults.removeContainer ==> fs == old(fs)
      ensures outcome.Finished? && phases != [] ==>
                forall r :: Lookup(fs, target + r) == Lookup(phases[|phases| - 1].tree, r)
      ensures outcome.RolledBack? ==> forall r :: Lookup(fs, target + r) == Lookup(old(fs), target + r)
      ensures outcome.RestoreFailed? ==>
                SnapshotHolds(fs, old(StagingPath(fs, target, containerName)), old(fs), target)
      ensures !outcome.NotStarted? && !faults.removeStaging ==>
                forall p :: Within(p, old(StagingPath(fs, target, stagingName))) ==> p !in fs
      ensures outcome.Finished? || outcome.RolledBack? ==>
                var container := old(StagingPath(fs, target, containerName));
                && (container in fs <==> faults.removeContainer || (stagingMade && faults.removeStaging))
                && (container !in fs ==> forall p :: Within(p, container) ==> p !in fs)
      // A rolled-back call that removed its temporary directories leaves the file system as
      // it was, except for the missing ancestors of the target that it made.
      ensures outcome.RolledBack? && !faults.removeStaging && !faults.removeContainer && target != [] ==>
                (fs == old(fs) <==> (!reached || Parent(target) in old(fs)))
    {
      ghost var before := fs;
      FreshIsTemporary(before, target, containerName);
      FreshIsTemporary(before, target, stagingName);
      outcome, reached, stagingMade := NotStarted, false, false;
      var snapshotMade, container, existed := SnapshotTarget(target, containerName, faults);
      if !snapshotMade {
        return;
      }
      var staging;
      outcome, reached, stagingMade, staging :=
        MutateOrRestore(target, container, existed, stagingName, staged, phases, faults, before);
      TemporaryFacts(before, target, container, staging);
      if stagingMade {
        if faults.removeStaging {
          return;
        }
        AfterRemoval(fs, target, container, staging, staging, before);
        fs := RemoveTree(fs, staging);
      }
      if outcome != RestoreFailed && !faults.removeContainer {
        AfterRemoval(fs, target, container, staging, container, before);
        fs := RemoveTree(fs, container);
        if outcome.RolledBack? && !faults.removeStaging && target != [] {
          RollbackRestoresAllIff(before, fs, target, container, staging, reached);
        }
      }
    }
  }

  function StagingPath(before: Tree, target: Path, name: string): Path
    requires Rooted(before)
  {
    Nearest(before, target) + [name]
  }

  /** A directory freshly made beside the target. */
  ghost predicate Temporary(before: Tree, target: Path, temp: Path)
    requires Rooted(before)
  {
    && (exists name :: temp == Nearest(before, target) + [name])
    && !Within(temp, target) && !Within(target, temp)
    && forall p :: Within(p, temp) ==> p !in before
  }

  lemma TemporaryFacts(before: Tree, target: Path, container: Path, staging: Path)
    requires Rooted(before) && container != staging
    requires Temporary(before, target, container) && Temporary(before, target, staging)
    ensures AllApart(target, container, staging)
  {
    FreshApart(container, target);
    FreshApart(staging, target);
    assert |container| == |staging|;
    FreshApart(container, staging);
    forall p | Within(p, container) ensures !Within(target, p) {
      Chain(target, p, container);
    }
    forall p | Within(p, staging) ensures !Within(target, p) {
      Chain(target, p, staging);
    }
  }

  lemma FreshIsTemporary(fs: Tree, target: Path, name: string)
    requires Rooted(fs) && FreshName(fs, target, name)
    ensures target != [] ==> Temporary(fs, target, StagingPath(fs, target, name))
  {
    ContainerOutsideIff(fs, target, name);
    FreshSubtree(fs, Nearest(fs, target), name);
  }

  /** No change outside the container loses the snapshot. */
  lemma SnapshotKept(fs: Tree, next: Tree, container: Path, before: Tree, target: Path)
    requires SnapshotHolds(fs, container, before, target)
    requires forall p :: Within(p, container) ==> Lookup(next, p) == Lookup(fs, p)
    ensures SnapshotHolds(next, container, before, target)
  {
    assert Within(container, container);
    assert Lookup(next, container) == Lookup(fs, container);
    forall r ensures Lookup(next, container + ["before"] + r) == Lookup(before, target + r) {
      Below(container, container + ["before"], r);
    }
  }

  /** The three places are apart from each other. */
  ghost predicate AllApart(target: Path, container: Path, staging: Path) {
    && (forall p :: Within(p, container) ==> !Within(p, target) && !Within(p, staging) && !Within(target, p))
    && (forall p :: Within(p, staging) ==> !Within(p, target) && !Within(p, container) && !Within(target, p))
  }

  lemma {:induction false} BeforeStaging(fs: Tree, before: Tree, target: Path, container: Path, staging: Path)
    requires Rooted(fs) && Rooted(before) && AllApart(target, container, staging)
    requires forall p :: !Within(p, container) ==> Lookup(fs, p) == Lookup(before, p)
    requires forall p :: Within(p, staging) ==> p !in before
    ensures Nearest(fs, target) == Nearest(before, target)
    ensures forall p :: Within(p, staging) ==> p !in fs
  {
    NearestStable(fs, before, target);
    forall p | Within(p, staging) ensures p !in fs {
      assert Lookup(fs, p) == Lookup(before, p);
    }
  }

  lemma {:induction false} AfterStaging(fs: Tree, next: Tree, before: Tree, target: Path, container: Path, staging: Path)
    requires AllApart(target, container, staging)
    requires SnapshotHolds(fs, container, before, target)
    requires forall p :: !Within(p, container) ==> Lookup(fs, p) == Lookup(before, p)
    requires forall p :: !Within(p, staging) ==> Lookup(next, p) == Lookup(fs, p)
    ensures ElsewhereIs(next, before, target, container, staging)
    ensures SnapshotHolds(next, container, before, target)
    ensures forall p :: Within(p, target) ==> Lookup(next, p) == Lookup(before, p)
  {
    SnapshotKept(fs, next, container, before, target);
  }

  lemma {:induction false} AfterPhases(fs: Tree, next: Tree, before: Tree, target: Path, container: Path, staging: Path,
                                       reached: bool)
    requires AllApart(target, container, staging)
    requires SnapshotHolds(fs, container, before, target)
    requires ElsewhereIs(fs, before, target, container, staging)
    requires forall p :: !Within(p, target) ==>
               Lookup(next, p) == Lookup(if reached then WithAncestors(fs, target) else fs, p)
    ensures ElsewhereIs(next, if reached then WithAncestors(before, target) else before, target, container, staging)
    ensures SnapshotHolds(next, container, before, target)
    ensures forall p :: Within(p, staging) ==> Lookup(next, p) == Lookup(fs, p)
  {
    SnapshotKept(fs, next, container, before, target);
    forall p | !Within(p, target) && !Within(p, container) && !Within(p, staging)
      ensures Lookup(next, p) == Lookup(if reached then WithAncestors(before, target) else before, p)
    {
      assert Lookup(fs, p) == Lookup(before, p);
    }
  }

  lemma {:induction false} AfterRestore(fs: Tree, next: Tree, before: Tree, target: Path, container: Path, staging: Path,
                                        reached: bool, existed: bool)
    requires AllApart(target, container, staging) && Closed(before) && existed == (target in before)
    requires SnapshotHolds(fs, container, before, target)
    requires ElsewhereIs(fs, if reached then WithAncestors(before, target) else before, target, container, staging)
    requires forall p :: !Within(p, target) ==> Lookup(next, p) == Lookup(fs, p)
    ensures SnapshotHolds(next, container, before, target)
    ensures ElsewhereIs(next, if reached then WithAncestors(before, target) else before, target, container, staging)
    ensures forall p :: Within(p, staging) ==> Lookup(next, p) == Lookup(fs, p)
    ensures (forall r :: Lookup(next, target + r) ==
               if existed then Lookup(fs, container + ["before"] + r) else None) ==>
            forall r :: Lookup(next, target + r) == Lookup(before, target + r)
  {
    SnapshotKept(fs, next, container, before, target);
    if !existed {
      forall r ensures Lookup(before, target + r) == None {
        JoinedIsWithin(target, r);
        AbsentIsEmpty(before, target, target + r);
      }
    }
  }

  /** Removing one temporary directory leaves the target, the other directory and
      everything else as they are. */
  lemma {:induction false} AfterRemoval(fs: Tree, target: Path, container: Path, staging: Path, gone: Path, before: Tree)
    requires AllApart(target, container, staging) && (gone == staging || gone == container)
    ensures forall r :: Lookup(RemoveTree(fs, gone), target + r) == Lookup(fs, target + r)
    ensures forall p :: !Within(p, gone) ==> Lookup(RemoveTree(fs, gone), p) == Lookup(fs, p)
    ensures forall p :: Within(p, gone) ==> p !in RemoveTree(fs, gone)
    ensures Within(container, container) && gone !in RemoveTree(fs, gone)
    ensures gone == staging && SnapshotHolds(fs, container, before, target) ==>
              SnapshotHolds(RemoveTree(fs, gone), container, before, target)
    ensures gone == staging ==> (container in RemoveTree(fs, gone) <==> container in fs)
  {
    assert Within(container, container) && Within(gone, gone);
    forall r ensures Lookup(RemoveTree(fs, gone), target + r) == Lookup(fs, target + r) {
      JoinedIsWithin(target, r);
    }
    forall p ensures Within(p, gone) ==> p !in RemoveTree(fs, gone) {
      assert Within(p, gone) ==> Lookup(RemoveTree(fs, gone), p) == None;
    }
    if gone == staging && SnapshotHolds(fs, container, before, target) {
      SnapshotKept(fs, RemoveTree(fs, gone), container, before, target);
    }
    assert gone == staging ==> Lookup(RemoveTree(fs, gone), container) == Lookup(fs, container);
  }

  /** After a rolled-back call whose temporary directories could be removed, the whole
      file system is what it was, exactly when the target directory was never created or
      its parent existed: missing ancestors that were made are not removed again. */
  lemma RollbackRestoresAllIff(before: Tree, after: Tree, target: Path, container: Path, staging: Path, reached: bool)
    requires Closed(before) && target != []
    requires AllApart(target, container, staging)
    requires forall p :: Within(p, container) || Within(p, staging) ==> p !in before && p !in after
    requires ElsewhereIs(after, if reached then WithAncestors(before, target) else before, target, container, staging)
    requires forall r :: Lookup(after, target + r) == Lookup(before, target + r)
    ensures after == before <==> (!reached || Parent(target) in before)
  {
    if !reached || Parent(target) in before {
      forall p ensures Lookup(after, p) == Lookup(before, p) {
        WithinIsSplit(p, target);
        if Within(target, p) && p != target && p !in before {
          AncestorsOfParent(target);
          AbsentIsEmpty(before, p, Parent(target));
        }
      }
      SameTree(after, before);
    } else {
      var p := Parent(target);
      assert Within(target, p) && p != target && !Within(p, target);
      assert Lookup(after, p) == Some(Dir) && Lookup(before, p) == None;
    }
  }

  lemma Chain(a: Path, b: Path, c: Path)
    ensures Within(a, b) && Within(b, c) ==> Within(a, c)
  {
    if Within(a, b) && Within(b, c) {
      assert a[..|b|][..|c|] == a[..|c|];
    }
  }

  /** Ancestors of the target are never within a fresh directory, so a second search for
      the nearest directory finds the same one. */
  lemma {:induction false} NearestStable(fs: Tree, before: Tree, target: Path)
    requires Rooted(fs) && Rooted(before)
    requires forall p :: Within(target, p) ==> Lookup(fs, p) == Lookup(before, p)
    ensures Nearest(fs, target) == Nearest(before, target)
    decreases |target|
  {
    assert Within(target, Parent(target));
    assert Lookup(fs, Parent(target)) == Lookup(before, Parent(target));
    if Parent(target) !in fs {
      forall p | Within(Parent(target), p) ensures Lookup(fs, p) == Lookup(before, p) {
        assert Within(target, p);
      }
      NearestStable(fs, before, Parent(target));
    }
  }

  /** `mkdir -p` cannot pass through or replace a file. */
  predicate Blocked(fs: Tree, target: Path) {
    exists k :: 0 <= k <= |target| && target[..k] in fs && fs[target[..k]].File?
  }

  lemma {:induction false} SubtreeIs(cleared: Tree, target: Path, tree: Tree)
    ensures forall p :: Within(p, target) ==>
              Lookup(Graft(RemoveTree(cleared, target), target, tree), p) == Lookup(tree, p[|target|..])
  {
  }

  lemma {:induction false} RestoreHolds(before: Tree, after: Tree, target: Path, container: Path, existed: bool)
    requires var cleared := RemoveTree(before, target);
             after == if existed then Graft(cleared, target, Extract(cleared, container + ["before"])) else cleared
    ensures !Within(container, target) && !Within(target, container) ==>
              forall r :: Lookup(after, target + r) ==
                if existed then Lookup(before, container + ["before"] + r) else None
  {
    if !Within(container, target) && !Within(target, container) {
      forall r ensures Lookup(after, target + r) ==
                       if existed then Lookup(before, container + ["before"] + r) else None {
        JoinedIsWithin(target, r);
        if existed {
          GraftedAt(RemoveTree(before, target), target, Extract(RemoveTree(before, target), container + ["before"]), r);
          Below(container, container + ["before"], r);
          FreshApart(container, target);
        }
      }
    }
  }
}
