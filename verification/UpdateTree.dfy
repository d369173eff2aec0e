/** The project tree, the mutation journal and the primitives of the scaffold update
    (cli/commands/update.ts). Directories exist exactly where files lie below them. */
module UpdateTree {
  import opened Wrappers
  import opened Utf8

  type Path = seq<string>
  type Bytes = seq<Byte>
  type Tree = map<Path, Bytes>

  /** `p` is `root` or lies below it. */
  predicate Within(p: Path, root: Path) {
    root <= p
  }

  /** Neither path is within the other. */
  predicate Disjoint(p: Path, q: Path) {
    !Within(p, q) && !Within(q, p)
  }

  function Get(t: Tree, p: Path): Option<Bytes> {
    if p in t then Some(t[p]) else None
  }

  predicate Exists(t: Tree, p: Path) {
    exists q :: q in t && Within(q, p)
  }

  predicate IsDirectory(t: Tree, p: Path) {
    p !in t && Exists(t, p)
  }

  /** No file lies below a file. */
  ghost predicate WellFormed(t: Tree) {
    forall p, q :: p in t && q in t && Within(p, q) ==> p == q
  }

  /** `rmSync(p, { recursive: true, force: true })` */
  function RemoveTree(t: Tree, p: Path): Tree {
    map q | q in t && !Within(q, p) :: t[q]
  }

  /** What a recursive copy of `p` holds, each file under its own path. */
  function Subtree(t: Tree, p: Path): Tree {
    map q | q in t && Within(q, p) :: t[q]
  }

  /** A file can be put at `p`: no directory is there and no file above it. */
  predicate CanWrite(t: Tree, p: Path) {
    forall q :: q in t && (Within(q, p) || Within(p, q)) ==> q == p
  }

  /** Reading a file as text: `text` is what is written back for bytes that were read as
      UTF-8, `hash` the digest of a text. */
  datatype Codec = Codec(text: Bytes -> Bytes, hash: Bytes -> int)

  datatype Operation =
    | Create(path: Path, next: Bytes) | UpdateManaged(path: Path, next: Bytes) | RemoveStale(path: Path)
    | SkipIdentical(path: Path) | PreserveProjectOwned(path: Path) | Conflict(path: Path)

  predicate IsWritable(op: Operation) {
    op.Create? || op.UpdateManaged? || op.RemoveStale?
  }

  datatype Status = Prepared | Committed | RolledBack

  datatype Record =
    | Update(id: nat, status: Status, path: Path, beforeHash: Option<int>, afterHash: Option<int>,
             beforeExisted: bool, batch: nat)
    | Undo(id: nat, status: Status, target: nat, path: Path, batch: nat)

  /** The backups are named after the id of the record they belong to. */
  datatype World = World(tree: Tree, journal: seq<Record>, backups: map<nat, Tree>, nextId: nat)

  /** A primitive runs, throws before it had any effect, or throws after it took effect. */
  datatype Fault = NoFault | ThrowsBefore | ThrowsAfter

  /** An append to the journal: the new journal and whether it returned. */
  function Append(journal: seq<Record>, records: seq<Record>, fault: Fault): (seq<Record>, bool) {
    match fault
    case NoFault => (journal + records, true)
    case ThrowsBefore => (journal, false)
    case ThrowsAfter => (journal + records, false)
  }

  lemma SameTree(a: Tree, b: Tree)
    requires forall p :: Get(a, p) == Get(b, p)
    ensures a == b
  {
    forall p ensures p in a <==> p in b {
      assert Get(a, p) == Get(b, p);
    }
    forall p | p in a ensures a[p] == b[p] {
      assert Get(a, p) == Get(b, p);
    }
  }

  lemma DisjointBelow(p: Path, q: Path)
    requires Disjoint(p, q)
    ensures forall r :: Within(r, p) ==> !Within(r, q)
  {
    forall r | Within(r, p) ensures !Within(r, q) {
      NestedOrder(r, p, q);
    }
  }

  lemma NestedOrder(r: Path, p: Path, q: Path)
    ensures Within(r, p) && Within(r, q) ==> Within(p, q) || Within(q, p)
  {
    if Within(r, p) && Within(r, q) {
      if |p| <= |q| { assert r[..|q|][..|p|] == r[..|p|]; } else { assert r[..|p|][..|q|] == r[..|q|]; }
    }
  }

  lemma WithinSelf(p: Path)
    ensures Within(p, p)
  {
  }
}
