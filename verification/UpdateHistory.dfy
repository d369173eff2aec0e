/** The edits of the live batches, oldest first, and the trees they lead through. */
module UpdateHistory {
  import opened Wrappers
  import opened UpdateTree

  // ----- Changing some paths of a tree

  datatype Change = Change(path: Path, value: Option<Bytes>)

  /** What `q` holds after `changes`, where it held `v`. */
  function At(changes: seq<Change>, q: Path, v: Option<Bytes>): Option<Bytes> {
    if changes == [] then v
    else if changes[0].path == q then changes[0].value
    else At(changes[1..], q, v)
  }

  function Paths(changes: seq<Change>): set<Path> {
    set i | 0 <= i < |changes| :: changes[i].path
  }

  function Overlay(t: Tree, changes: seq<Change>): Tree {
    map q | q in t.Keys + Paths(changes) && At(changes, q, Get(t, q)).Some? :: At(changes, q, Get(t, q)).value
  }

  lemma {:induction false} AtMiss(changes: seq<Change>, q: Path, v: Option<Bytes>)
    requires q !in Paths(changes)
    ensures At(changes, q, v) == v
  {
    if changes != [] {
      assert changes[0].path in Paths(changes);
      forall i | 0 <= i < |changes[1..]| ensures changes[1..][i].path != q {
        assert changes[i + 1].path in Paths(changes);
      }
      AtMiss(changes[1..], q, v);
    }
  }

  ghost predicate Apart(changes: seq<Change>) {
    forall i, j :: 0 <= i < |changes| && 0 <= j < |changes| && i != j ==> Disjoint(changes[i].path, changes[j].path)
  }

  lemma {:induction false} AtHit(changes: seq<Change>, i: nat, v: Option<Bytes>)
    requires Apart(changes) && i < |changes|
    ensures At(changes, changes[i].path, v) == changes[i].value
  {
    if i > 0 {
      assert Disjoint(changes[0].path, changes[i].path);
      WithinSelf(changes[0].path);
      assert changes[1..][i - 1] == changes[i];
      AtHit(changes[1..], i - 1, v);
    }
  }

  lemma {:induction false} OverlayAt(t: Tree, changes: seq<Change>, q: Path)
    ensures Get(Overlay(t, changes), q) == At(changes, q, Get(t, q))
  {
    if q !in t && q !in Paths(changes) {
      AtMiss(changes, q, None);
    }
  }

  lemma {:induction false} OverlayHit(t: Tree, changes: seq<Change>, i: nat)
    requires Apart(changes) && i < |changes|
    ensures Get(Overlay(t, changes), changes[i].path) == changes[i].value
  {
    OverlayAt(t, changes, changes[i].path);
    AtHit(changes, i, Get(t, changes[i].path));
  }

  lemma {:induction false} OverlayMiss(t: Tree, changes: seq<Change>, q: Path)
    requires q !in Paths(changes)
    ensures Get(Overlay(t, changes), q) == Get(t, q)
  {
    OverlayAt(t, changes, q);
    AtMiss(changes, q, Get(t, q));
  }

  ghost predicate AllDisjoint(a: seq<Change>, b: seq<Change>) {
    forall i, j :: 0 <= i < |a| && 0 <= j < |b| ==> Disjoint(a[i].path, b[j].path)
  }

  lemma {:induction false} DisjointPaths(a: seq<Change>, b: seq<Change>, q: Path)
    requires AllDisjoint(a, b) && q in Paths(a)
    ensures q !in Paths(b)
  {
    WithinSelf(q);
  }

  lemma {:induction false} OverlaysCommute(t: Tree, a: seq<Change>, b: seq<Change>)
    requires AllDisjoint(a, b)
    ensures Overlay(Overlay(t, a), b) == Overlay(Overlay(t, b), a)
  {
    forall q ensures Get(Overlay(Overlay(t, a), b), q) == Get(Overlay(Overlay(t, b), a), q) {
      OverlayAt(t, a, q);
      OverlayAt(t, b, q);
      OverlayAt(Overlay(t, a), b, q);
      OverlayAt(Overlay(t, b), a, q);
      if q in Paths(a) {
        DisjointPaths(a, b, q);
        AtMiss(b, q, Get(t, q));
        AtMiss(b, q, At(a, q, Get(t, q)));
      } else {
        AtMiss(a, q, Get(t, q));
        AtMiss(a, q, At(b, q, Get(t, q)));
      }
    }
    SameTree(Overlay(Overlay(t, a), b), Overlay(Overlay(t, b), a));
  }

  // ----- Histories

  /** One path of a batch: what it held before and what it held after. */
  datatype Edit = Edit(id: nat, path: Path, before: Option<Bytes>, after: Option<Bytes>)

  datatype Live = Live(batch: nat, edits: seq<Edit>)

  function Befores(edits: seq<Edit>): seq<Change> {
    seq(|edits|, i requires 0 <= i < |edits| => Change(edits[i].path, edits[i].before))
  }

  function Afters(edits: seq<Edit>): seq<Change> {
    seq(|edits|, i requires 0 <= i < |edits| => Change(edits[i].path, edits[i].after))
  }

  function Without(t: Tree, live: Live): Tree {
    Overlay(t, Befores(live.edits))
  }

  /** Every path of the batch still holds what the batch left there. */
  predicate Matches(t: Tree, live: Live) {
    forall i :: 0 <= i < |live.edits| ==> Get(t, live.edits[i].path) == live.edits[i].after
  }

  ghost predicate Sensible(live: Live) {
    && (forall i, j :: 0 <= i < |live.edits| && 0 <= j < |live.edits| && i != j ==>
          Disjoint(live.edits[i].path, live.edits[j].path) && live.edits[i].id != live.edits[j].id)
    && (forall i :: 0 <= i < |live.edits| ==> live.edits[i].before.Some? || live.edits[i].after.Some?)
  }

  /** Undoing the batches of `history` from the newest on leads from `t` to `init`, and each
      of them still matches when it is undone. */
  ghost predicate Chain(init: Tree, t: Tree, history: seq<Live>)
    decreases |history|
  {
    && WellFormed(t)
    && if history == [] then t == init
       else
         var last := history[|history| - 1];
         Matches(t, last) && Chain(init, Without(t, last), history[..|history| - 1])
  }

  ghost predicate Separate(a: Live, b: Live) {
    forall i, j :: 0 <= i < |a.edits| && 0 <= j < |b.edits| ==> Disjoint(a.edits[i].path, b.edits[j].path)
  }

  lemma {:induction false} SeparateUndo(t: Tree, a: Live, b: Live)
    requires Separate(a, b)
    ensures Without(Without(t, a), b) == Without(Without(t, b), a)
    ensures Matches(Without(t, a), b) == Matches(t, b)
  {
    OverlaysCommute(t, Befores(a.edits), Befores(b.edits));
    forall j | 0 <= j < |b.edits| ensures Get(Without(t, a), b.edits[j].path) == Get(t, b.edits[j].path) {
      DisjointPaths(Befores(b.edits), Befores(a.edits), Befores(b.edits)[j].path);
      OverlayMiss(t, Befores(a.edits), b.edits[j].path);
    }
  }

  /** A path of `b` is in the tree without `b` exactly when `b` found something there. */
  lemma {:induction false} UndoHit(t: Tree, b: Live, i: nat)
    requires Sensible(b) && i < |b.edits|
    ensures Get(Without(t, b), b.edits[i].path) == b.edits[i].before
  {
    OverlayHit(t, Befores(b.edits), i);
  }

  lemma {:induction false} UndoMiss(t: Tree, b: Live, q: Path)
    requires q !in Paths(Befores(b.edits))
    ensures Get(Without(t, b), q) == Get(t, q)
  {
    OverlayMiss(t, Befores(b.edits), q);
  }

  predicate Comparable(p: Path, q: Path) {
    Within(p, q) || Within(q, p)
  }

  /** A path comparable to one of `b`, but not one itself, is not a path of a separate batch. */
  lemma {:induction false} ComparableIsOutside(b: Live, i: nat, c: Live, q: Path)
    requires Separate(b, c) && i < |b.edits| && Comparable(b.edits[i].path, q)
    ensures q !in Paths(Befores(c.edits))
  {
  }

  lemma {:induction false} ComparableIsNotOwn(b: Live, i: nat, q: Path)
    requires Sensible(b) && i < |b.edits| && Comparable(b.edits[i].path, q) && q != b.edits[i].path
    ensures q !in Paths(Befores(b.edits))
  {
  }

  /** Nothing stands in the way of `b`'s paths in `t`, seen from a tree without `c`. */
  lemma {:induction false} ClearBelow(t: Tree, b: Live, c: Live, i: nat, q: Path)
    requires Sensible(b) && Separate(b, c) && WellFormed(Without(Without(t, c), b))
    requires i < |b.edits| && b.edits[i].before.Some? && Comparable(b.edits[i].path, q) && q != b.edits[i].path
    ensures q !in Without(t, b)
  {
    var p := b.edits[i].path;
    var under := Without(Without(t, c), b);
    ComparableIsOutside(b, i, c, q);
    ComparableIsNotOwn(b, i, q);
    UndoMiss(t, c, q);
    UndoMiss(Without(t, c), b, q);
    UndoMiss(t, b, q);
    UndoHit(Without(t, c), b, i);
    assert p in under;
  }

  lemma {:induction false} UndoWellFormed(t: Tree, b: Live, c: Live)
    requires Sensible(b) && Separate(b, c) && WellFormed(t) && WellFormed(Without(Without(t, c), b))
    ensures WellFormed(Without(t, b))
  {
    var u := Without(t, b);
    forall p, q | p in u && q in u && Within(p, q)
      ensures p == q
    {
      if p != q {
        if i :| 0 <= i < |b.edits| && b.edits[i].path == p {
          UndoHit(t, b, i);
          ClearBelow(t, b, c, i, q);
        } else if i :| 0 <= i < |b.edits| && b.edits[i].path == q {
          UndoHit(t, b, i);
          ClearBelow(t, b, c, i, p);
        } else {
          UndoMiss(t, b, p);
          UndoMiss(t, b, q);
        }
      }
    }
  }

  ghost predicate SeparateFromAll(b: Live, later: seq<Live>) {
    forall k :: 0 <= k < |later| ==> Separate(b, later[k])
  }

  /** A batch that no later one comes near can be taken out of the middle of the history. */
  lemma {:induction false} ChainWithout(init: Tree, t: Tree, earlier: seq<Live>, b: Live, later: seq<Live>)
    requires Chain(init, t, earlier + [b] + later) && Sensible(b) && SeparateFromAll(b, later)
    ensures Matches(t, b) && Chain(init, Without(t, b), earlier + later)
    decreases |later|
  {
    var all := earlier + [b] + later;
    if later == [] {
      assert all[..|all| - 1] == earlier == earlier + later;
    } else {
      var c, rest := later[|later| - 1], later[..|later| - 1];
      assert all[..|all| - 1] == earlier + [b] + rest;
      assert later == rest + [c];
      ChainWithout(init, Without(t, c), earlier, b, rest);
      ChainOnTop(init, t, earlier + rest, b, c);
      assert earlier + later == (earlier + rest) + [c];
    }
  }

  lemma {:induction false} ChainOnTop(init: Tree, t: Tree, below: seq<Live>, b: Live, c: Live)
    requires Sensible(b) && Separate(b, c) && WellFormed(t) && Matches(t, c)
    requires Matches(Without(t, c), b) && Chain(init, Without(Without(t, c), b), below)
    ensures Matches(t, b) && Chain(init, Without(t, b), below + [c])
  {
    SeparateUndo(t, b, c);
    SeparateBack(b, c);
    SeparateUndo(t, c, b);
    UndoWellFormed(t, b, c);
    assert (below + [c])[..|below + [c]| - 1] == below;
  }

  lemma {:induction false} SeparateBack(a: Live, b: Live)
    requires Separate(a, b)
    ensures Separate(b, a)
  {
    forall i, j | 0 <= i < |b.edits| && 0 <= j < |a.edits| ensures Disjoint(b.edits[i].path, a.edits[j].path) {
      assert Disjoint(a.edits[j].path, b.edits[i].path);
    }
  }

  /** A file can be put back wherever the batch found one. */
  lemma {:induction false} RoomForBefore(t: Tree, b: Live, i: nat)
    requires Sensible(b) && WellFormed(Without(t, b)) && i < |b.edits| && b.edits[i].before.Some?
    ensures CanWrite(t, b.edits[i].path)
  {
    var p := b.edits[i].path;
    forall q | q in t && (Within(q, p) || Within(p, q))
      ensures q == p
    {
      if q != p {
        ComparableIsNotOwn(b, i, q);
        UndoMiss(t, b, q);
        UndoHit(t, b, i);
      }
    }
  }

  // ----- Batches that changed nothing where later ones came near

  predicate Near(p: Path, live: Live) {
    exists j :: 0 <= j < |live.edits| && Comparable(live.edits[j].path, p)
  }

  lemma {:induction false} NotNear(p: Path, live: Live, j: nat)
    requires !Near(p, live) && j < |live.edits|
    ensures !Comparable(live.edits[j].path, p)
  {
  }

  ghost predicate NearAny(p: Path, later: seq<Live>) {
    exists m :: 0 <= m < |later| && Near(p, later[m])
  }

  /** Where a later batch comes near, `b` left what it had found. */
  ghost predicate Harmless(b: Live, later: seq<Live>) {
    forall i :: 0 <= i < |b.edits| && NearAny(b.edits[i].path, later) ==> b.edits[i].before == b.edits[i].after
  }

  /** The edits that changed something. */
  function Changing(edits: seq<Edit>): (r: seq<Edit>)
    ensures forall e :: e in r <==> e in edits && e.before != e.after
  {
    if edits == [] then []
    else Changing(edits[..|edits| - 1]) + if edits[|edits| - 1].before != edits[|edits| - 1].after then [edits[|edits| - 1]] else []
  }

  function Thin(b: Live): Live {
    Live(b.batch, Changing(b.edits))
  }

  predicate Distinct(a: Edit, b: Edit) {
    Disjoint(a.path, b.path) && a.id != b.id
  }

  lemma {:induction false} SensibleAppend(batch: nat, edits: seq<Edit>, last: Edit)
    requires Sensible(Live(batch, edits)) && (last.before.Some? || last.after.Some?)
    requires forall e :: e in edits ==> Distinct(e, last)
    ensures Sensible(Live(batch, edits + [last]))
  {
    forall i | 0 <= i < |edits| ensures Distinct(edits[i], last) {
      assert edits[i] in edits;
    }
  }

  lemma {:induction false} SensibleFront(b: Live)
    requires Sensible(b) && b.edits != []
    ensures var front, last := b.edits[..|b.edits| - 1], b.edits[|b.edits| - 1];
            Sensible(Live(b.batch, front)) && forall e :: e in front ==> Distinct(e, last)
  {
  }

  lemma {:induction false} ThinIsSensible(b: Live)
    requires Sensible(b)
    ensures Sensible(Thin(b))
    decreases |b.edits|
  {
    if b.edits != [] {
      var front, last := b.edits[..|b.edits| - 1], b.edits[|b.edits| - 1];
      SensibleFront(b);
      ThinIsSensible(Live(b.batch, front));
      if last.before != last.after { SensibleAppend(b.batch, Changing(front), last); }
    }
  }

  lemma {:induction false} ThinPath(b: Live, q: Path)
    ensures q in Paths(Befores(Thin(b).edits)) <==> exists j :: 0 <= j < |b.edits| && b.edits[j].path == q && b.edits[j].before != b.edits[j].after
  {
    var thin := Thin(b).edits;
    if i :| 0 <= i < |thin| && Befores(thin)[i].path == q {
      assert thin[i] in b.edits;
    }
    if j :| 0 <= j < |b.edits| && b.edits[j].path == q && b.edits[j].before != b.edits[j].after {
      assert b.edits[j] in thin;
      var i :| 0 <= i < |thin| && thin[i] == b.edits[j];
      assert Befores(thin)[i].path == q;
    }
  }

  lemma {:induction false} ThinAtEdit(t: Tree, b: Live, j: nat)
    requires Sensible(b) && Matches(t, b) && j < |b.edits|
    ensures Get(Without(t, Thin(b)), b.edits[j].path) == b.edits[j].before
  {
    var thin := Thin(b);
    ThinPath(b, b.edits[j].path);
    if b.edits[j].before != b.edits[j].after {
      assert b.edits[j] in thin.edits;
      var i :| 0 <= i < |thin.edits| && thin.edits[i] == b.edits[j];
      ThinIsSensible(b);
      UndoHit(t, thin, i);
    } else {
      OnlyEdit(b, j);
      UndoMiss(t, thin, b.edits[j].path);
    }
  }

  lemma {:induction false} ThinAt(t: Tree, b: Live, q: Path)
    requires Sensible(b) && Matches(t, b)
    ensures Get(Without(t, Thin(b)), q) == Get(Without(t, b), q)
  {
    if j :| 0 <= j < |b.edits| && b.edits[j].path == q {
      UndoHit(t, b, j);
      ThinAtEdit(t, b, j);
    } else {
      ThinPath(b, q);
      UndoMiss(t, b, q);
      UndoMiss(t, Thin(b), q);
    }
  }

  lemma {:induction false} OnlyEdit(b: Live, j: nat)
    requires Sensible(b) && j < |b.edits|
    ensures forall i :: 0 <= i < |b.edits| && b.edits[i].path == b.edits[j].path ==> i == j
  {
    WithinSelf(b.edits[j].path);
  }

  lemma {:induction false} ThinIsEnough(t: Tree, b: Live)
    requires Sensible(b) && Matches(t, b)
    ensures Matches(t, Thin(b)) && Without(t, Thin(b)) == Without(t, b)
  {
    forall i | 0 <= i < |Thin(b).edits| ensures Get(t, Thin(b).edits[i].path) == Thin(b).edits[i].after {
      assert Thin(b).edits[i] in b.edits;
    }
    forall q ensures Get(Without(t, Thin(b)), q) == Get(Without(t, b), q) {
      ThinAt(t, b, q);
    }
    SameTree(Without(t, Thin(b)), Without(t, b));
  }

  lemma {:induction false} ChainThin(init: Tree, t: Tree, earlier: seq<Live>, b: Live, later: seq<Live>)
    requires Chain(init, t, earlier + [b] + later) && Sensible(b)
    ensures Chain(init, t, earlier + [Thin(b)] + later)
    decreases |later|
  {
    if later == [] {
      DropLast(earlier, b, []);
      DropLast(earlier, Thin(b), []);
      ThinIsEnough(t, b);
    } else {
      DropLast(earlier, b, later);
      DropLast(earlier, Thin(b), later);
      ChainThin(init, Without(t, later[|later| - 1]), earlier, b, later[..|later| - 1]);
    }
  }

  lemma {:induction false} DropLast(earlier: seq<Live>, b: Live, later: seq<Live>)
    ensures var all := earlier + [b] + later;
            if later == [] then all[|all| - 1] == b && all[..|all| - 1] == earlier
            else all[|all| - 1] == later[|later| - 1] && all[..|all| - 1] == earlier + [b] + later[..|later| - 1]
  {
  }

  lemma {:induction false} HarmlessIsSeparate(b: Live, later: seq<Live>)
    requires Harmless(b, later)
    ensures SeparateFromAll(Thin(b), later)
  {
    forall k, i, j | 0 <= k < |later| && 0 <= i < |Thin(b).edits| && 0 <= j < |later[k].edits|
      ensures Disjoint(Thin(b).edits[i].path, later[k].edits[j].path)
    {
      assert Thin(b).edits[i] in b.edits;
      assert !NearAny(Thin(b).edits[i].path, later);
      NotNear(Thin(b).edits[i].path, later[k], j);
    }
  }

  /** A harmless batch can be taken out of the middle of the history. */
  lemma {:induction false} ChainWithoutHarmless(init: Tree, t: Tree, earlier: seq<Live>, b: Live, later: seq<Live>)
    requires Chain(init, t, earlier + [b] + later) && Sensible(b) && Harmless(b, later) && Matches(t, b)
    ensures Chain(init, Without(t, b), earlier + later)
  {
    ChainThin(init, t, earlier, b, later);
    ThinIsSensible(b);
    HarmlessIsSeparate(b, later);
    ChainWithout(init, t, earlier, Thin(b), later);
    ThinIsEnough(t, b);
  }

  // ----- What a chain says of one path

  /** No batch of `later` comes near `p`. */
  ghost predicate AllFar(later: seq<Live>, p: Path) {
    forall k :: 0 <= k < |later| ==> !Near(p, later[k])
  }

  lemma {:induction false} FarIsOutside(p: Path, live: Live, q: Path)
    requires !Near(p, live) && Comparable(q, p)
    ensures q !in Paths(Befores(live.edits))
  {
    forall i | 0 <= i < |live.edits| ensures Befores(live.edits)[i].path != q {
      NotNear(p, live, i);
    }
  }

  /** The tree as batch `a` left it, which still agrees with `t` on all that is comparable to
      a path nobody came near since. */
  lemma {:induction false} Level(init: Tree, t: Tree, earlier: seq<Live>, a: Live, later: seq<Live>, p: Path) returns (u: Tree)
    requires Chain(init, t, earlier + [a] + later) && AllFar(later, p)
    ensures WellFormed(u) && Matches(u, a) && Chain(init, Without(u, a), earlier) && WellFormed(Without(u, a))
    ensures forall q :: Comparable(q, p) ==> Get(u, q) == Get(t, q)
    decreases |later|
  {
    var all := earlier + [a] + later;
    if later == [] {
      assert all[..|all| - 1] == earlier;
      u := t;
    } else {
      var c, rest := later[|later| - 1], later[..|later| - 1];
      assert all[..|all| - 1] == earlier + [a] + rest;
      assert !Near(p, c);
      u := Level(init, Without(t, c), earlier, a, rest, p);
      forall q | Comparable(q, p) ensures Get(u, q) == Get(t, q) {
        FarIsOutside(p, c, q);
        UndoMiss(t, c, q);
      }
    }
  }

  /** The last batch of a non-empty list of those that come near `p`. */
  lemma {:induction false} LastNear(later: seq<Live>, p: Path) returns (m: nat)
    requires NearAny(p, later)
    ensures m < |later| && Near(p, later[m]) && AllFar(later[m + 1..], p)
    decreases |later|
  {
    m := |later| - 1;
    if !Near(p, later[m]) {
      var rest := later[..m];
      var k :| 0 <= k < |later| && Near(p, later[k]);
      assert rest[k] == later[k];
      m := LastNear(rest, p);
      var tail := later[m + 1..];
      forall k | 0 <= k < |tail| ensures !Near(p, tail[k]) {
        if k < |rest[m + 1..]| { assert rest[m + 1..][k] == tail[k]; }
      }
    }
  }

  /** With nobody near, a path holds at the end what it held at the start. */
  lemma {:induction false} ChainKeeps(init: Tree, t: Tree, history: seq<Live>, p: Path)
    requires Chain(init, t, history) && AllFar(history, p)
    ensures Get(t, p) == Get(init, p)
    decreases |history|
  {
    if history != [] {
      var c, rest := history[|history| - 1], history[..|history| - 1];
      assert !Near(p, c);
      WithinSelf(p);
      FarIsOutside(p, c, p);
      UndoMiss(t, c, p);
      ChainKeeps(init, Without(t, c), rest, p);
    }
  }
}
