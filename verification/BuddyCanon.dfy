/**
  Freeing with merging, and the canonical form it keeps: a tree in which no two free buddies share
  their clear mark is determined by what is written on its chunks.
 */
module BuddyCanon {
  import opened Common
  import opened Powers
  import opened BuddyTree

  /** What a chunk is used for: free, or part of an allocated block of the given order. */
  datatype Chunk = FreeChunk(clear: bool) | UsedChunk(order: nat, clear: bool)

  function ChunkAt(t: Tree, i: nat): Chunk
    requires i < Size(t)
  {
    match t
    case Free(_, c) => FreeChunk(c)
    case Allocated(o, c) => UsedChunk(o, c)
    case Split(_, _, l, r) => if i < Size(l) then ChunkAt(l, i) else ChunkAt(r, i - Size(l))
    case Roots(l, r) => if i < Size(l) then ChunkAt(l, i) else ChunkAt(r, i - Size(l))
  }

  /** No two free buddies carry the same clear mark: nothing is left to merge. */
  predicate Maximal(t: Tree) {
    match t
    case Split(_, _, l, r) => Maximal(l) && Maximal(r) && !(l.Free? && r.Free? && l.clear == r.clear)
    case Roots(l, r) => Maximal(l) && Maximal(r)
    case _ => true
  }

  /** Merge two free children into their parent, if they may be merged. */
  function Join(force: bool, t: Tree): Tree {
    if t.Split? && t.left.Free? && t.right.Free? && (force || t.left.clear == t.right.clear)
    then Free(t.order, !force && t.left.clear)
    else t
  }

  /** Free the block `p` with mark `c` and merge upwards; `force` merges across different marks. */
  function FreeAt(force: bool, t: Tree, p: Path, c: bool): Tree
    requires BlockAt(t, p)
  {
    if p == [] then Free(t.order, c)
    else Join(force, WithChild(t, p[0], FreeAt(force, Child(t, p[0]), p[1..], c)))
  }

  // ---------- Canonical form ----------

  predicate SameChunks(t: Tree, u: Tree) {
    Size(t) == Size(u) && forall i: nat | i < Size(t) :: ChunkAt(t, i) == ChunkAt(u, i)
  }

  lemma SameChunksHalves(t: Tree, u: Tree)
    requires t.Inner?() && u.Inner?() && SameChunks(t, u) && Size(t.left) == Size(u.left)
    ensures SameChunks(t.left, u.left) && SameChunks(t.right, u.right)
  {
    forall i: nat | i < Size(t.left) ensures ChunkAt(t.left, i) == ChunkAt(u.left, i) {
      assert ChunkAt(t, i) == ChunkAt(u, i);
    }
    forall i: nat | i < Size(t.right) ensures ChunkAt(t.right, i) == ChunkAt(u.right, i) {
      assert ChunkAt(t, Size(t.left) + i) == ChunkAt(u, Size(t.left) + i);
    }
  }

  lemma SameChunksTrans(t: Tree, u: Tree, v: Tree)
    requires SameChunks(t, u) && SameChunks(u, v)
    ensures SameChunks(t, v) && SameChunks(u, t)
  {
    forall i: nat | i < Size(t) ensures ChunkAt(t, i) == ChunkAt(v, i) { assert ChunkAt(u, i) == ChunkAt(v, i); }
  }

  lemma {:induction false} ChunkOrder(t: Tree, i: nat)
    requires WF(t) && t.Block?() && i < Size(t)
    ensures ChunkAt(t, i).UsedChunk? ==> ChunkAt(t, i).order <= t.order
    ensures ChunkAt(t, i).UsedChunk? && t.Split? ==> ChunkAt(t, i).order < t.order
  {
    if t.Split? {
      if i < Size(t.left) { ChunkOrder(t.left, i); } else { ChunkOrder(t.right, i - Size(t.left)); }
    }
  }

  /** A block all of whose chunks are free with one mark is a single free block. */
  lemma {:induction false} UniformIsFree(t: Tree, c: bool)
    requires WF(t) && Maximal(t) && t.Block?()
    requires forall i: nat | i < Size(t) :: ChunkAt(t, i) == FreeChunk(c)
    ensures t == Free(t.order, c)
  {
    SizeOfBlock(t);
    assert ChunkAt(t, 0) == FreeChunk(c);
    if t.Split? {
      SizeOfBlock(t.left);
      SizeOfBlock(t.right);
      forall i: nat | i < Size(t.left) ensures ChunkAt(t.left, i) == FreeChunk(c) {
        assert ChunkAt(t, i) == FreeChunk(c);
      }
      forall i: nat | i < Size(t.right) ensures ChunkAt(t.right, i) == FreeChunk(c) {
        assert ChunkAt(t, Size(t.left) + i) == FreeChunk(c);
      }
      UniformIsFree(t.left, c);
      UniformIsFree(t.right, c);
      assert false;
    }
  }

  lemma {:induction false} CanonicalBlock(t: Tree, u: Tree)
    requires WF(t) && WF(u) && Maximal(t) && Maximal(u) && t.Block?() && u.Block?() && t.order == u.order
    requires SameChunks(t, u)
    ensures t == u
  {
    SizeOfBlock(t);
    SizeOfBlock(u);
    assert ChunkAt(t, 0) == ChunkAt(u, 0);
    ChunkOrder(t, 0);
    ChunkOrder(u, 0);
    if t.Split? && u.Split? {
      SizeOfBlock(t.left);
      SizeOfBlock(u.left);
      SameChunksHalves(t, u);
      CanonicalBlock(t.left, u.left);
      CanonicalBlock(t.right, u.right);
    } else if t.Free? {
      UniformIsFree(u, t.clear);
    } else if u.Free? {
      UniformIsFree(t, u.clear);
    }
  }

  /** The tree is a function of its roots and of the state of every chunk. */
  lemma {:induction false} Canonical(t: Tree, u: Tree)
    requires WF(t) && WF(u) && Maximal(t) && Maximal(u) && SameRoots(t, u)
    requires SameChunks(t, u)
    ensures t == u
  {
    if t.Roots? {
      SameRootsSize(t.left, u.left);
      SameChunksHalves(t, u);
      CanonicalBlock(t.left, u.left);
      Canonical(t.right, u.right);
    } else if t.Block?() {
      CanonicalBlock(t, u);
    }
  }

  // ---------- Overwriting a node ----------

  lemma ChunkWithChild(t: Tree, b: bool, x: Tree, i: nat)
    requires t.Inner?() && Size(x) == Size(Child(t, b)) && i < Size(t)
    ensures var d := if b then Size(t.left) else 0;
            Size(WithChild(t, b, x)) == Size(t) &&
            ChunkAt(WithChild(t, b, x), i) ==
            if d <= i < d + Size(x) then ChunkAt(x, i - d) else ChunkAt(t, i)
    ensures var d := if b then Size(t.left) else 0;
            d <= i < d + Size(x) ==> ChunkAt(t, i) == ChunkAt(Child(t, b), i - d)
  {}

  lemma ChildWF(t: Tree, b: bool)
    requires WF(t) && t.Inner?()
    ensures WF(Child(t, b))
  {}

  lemma {:induction false} ChunkPut(t: Tree, p: Path, x: Tree, i: nat)
    requires WF(t) && Has(t, p) && Size(x) == Size(At(t, p)) && i < Size(t)
    ensures Size(Put(t, p, x)) == Size(t)
    ensures ChunkAt(Put(t, p, x), i) ==
            if Off(t, p) <= i < Off(t, p) + Size(x) then ChunkAt(x, i - Off(t, p)) else ChunkAt(t, i)
  {
    hide WF;
    PutSize(t, p, x);
    if p != [] {
      assert WF(Child(t, p[0])) by { ChildWF(t, p[0]); }
      var u := Child(t, p[0]);
      var d := if p[0] then Size(t.left) else 0;
      PutSize(u, p[1..], x);
      WithinChild(u, p[1..], x);
      ChunkWithChild(t, p[0], Put(u, p[1..], x), i);
      if d <= i < d + Size(u) { ChunkPut(u, p[1..], x, i - d); }
    }
  }

  lemma WithinChild(t: Tree, p: Path, x: Tree)
    requires WF(t) && Has(t, p) && Size(x) == Size(At(t, p))
    ensures Off(t, p) + Size(x) <= Size(t)
  {
    WFAt(t, p);
  }

  lemma {:induction false} PutSize(t: Tree, p: Path, x: Tree)
    requires Has(t, p) && Size(x) == Size(At(t, p))
    ensures Size(Put(t, p, x)) == Size(t)
  {
    if p != [] { PutSize(Child(t, p[0]), p[1..], x); }
  }

  lemma {:induction false} ChunkWithin(t: Tree, p: Path, i: nat)
    requires WF(t) && Has(t, p) && i < Size(At(t, p))
    ensures Off(t, p) + i < Size(t) && ChunkAt(t, Off(t, p) + i) == ChunkAt(At(t, p), i)
  {
    WFAt(t, p);
    ChunkPut(t, p, At(t, p), Off(t, p) + i);
    PutPut(t, p, At(t, p), At(t, p));
  }

  lemma {:induction false} MaximalAt(t: Tree, p: Path)
    requires Maximal(t) && Has(t, p)
    ensures Maximal(At(t, p))
  {
    if p != [] { MaximalAt(Child(t, p[0]), p[1..]); }
  }

  /** Writing something that is not free into a canonical tree keeps it canonical. */
  lemma {:induction false} MaximalPut(t: Tree, p: Path, x: Tree)
    requires Has(t, p) && Maximal(t) && Maximal(x) && !x.Free?
    ensures Maximal(Put(t, p, x))
  {
    if p != [] { MaximalPut(Child(t, p[0]), p[1..], x); }
  }

  /** A canonical tree never holds free buddies with equal marks. */
  lemma BuddiesDiffer(t: Tree, p: Path)
    requires WF(t) && Maximal(t) && FreeBlockAt(t, p) && HasParent(t, p)
    ensures Has(t, Sibling(p))
    ensures At(t, Sibling(p)).Free? ==> At(t, Sibling(p)).clear != At(t, p).clear
  {
    ParentFacts(t, p);
    MaximalAt(t, Parent(p));
  }

  // ---------- Freeing ----------

  lemma {:induction false} FreeAtKeeps(force: bool, t: Tree, p: Path, c: bool)
    requires WF(t) && BlockAt(t, p)
    ensures var u := FreeAt(force, t, p, c); WF(u) && SameRoots(t, u) && Size(u) == Size(t)
  {
    var u := FreeAt(force, t, p, c);
    if p != [] { FreeAtKeeps(force, Child(t, p[0]), p[1..], c); }
    if t.Roots? {
      SameRootsSelf(t.left);
      SameRootsSelf(t.right);
    }
    SameRootsSize(t, u);
  }

  lemma {:induction false} FreeAtMaximal(force: bool, t: Tree, p: Path, c: bool)
    requires WF(t) && Maximal(t) && BlockAt(t, p)
    ensures Maximal(FreeAt(force, t, p, c))
  {
    if p != [] { FreeAtMaximal(force, Child(t, p[0]), p[1..], c); }
  }

  lemma JoinChunk(force: bool, t: Tree, i: nat)
    requires WF(t) && t.Inner?() && i < Size(t)
    ensures Size(Join(force, t)) == Size(t)
    ensures var x := ChunkAt(Join(force, t), i);
            x == ChunkAt(t, i) || (force && x.FreeChunk? && ChunkAt(t, i).FreeChunk?)
  {}

  /** Freeing marks the block's chunks free and changes no other chunk. */
  lemma {:induction false} FreeAtChunks(t: Tree, p: Path, c: bool, i: nat)
    requires WF(t) && BlockAt(t, p) && i < Size(t)
    ensures Size(FreeAt(false, t, p, c)) == Size(t)
    ensures ChunkAt(FreeAt(false, t, p, c), i) ==
            if Off(t, p) <= i < Off(t, p) + Size(At(t, p)) then FreeChunk(c) else ChunkAt(t, i)
  {
    FreeAtKeeps(false, t, p, c);
    if p != [] {
      var u := Child(t, p[0]);
      var v := FreeAt(false, u, p[1..], c);
      var d := if p[0] then Size(t.left) else 0;
      WFAt(u, p[1..]);
      FreeAtKeeps(false, u, p[1..], c);
      ChunkWithChild(t, p[0], v, i);
      ChildKeeps(t, p[0], v);
      JoinChunk(false, WithChild(t, p[0], v), i);
      if d <= i < d + Size(u) { FreeAtChunks(u, p[1..], c, i - d); }
    }
  }

  lemma ChildKeeps(t: Tree, b: bool, v: Tree)
    requires WF(t) && t.Inner?() && WF(v) && SameRoots(Child(t, b), v)
    ensures WF(WithChild(t, b, v)) && Size(WithChild(t, b, v)) == Size(t)
  {
    SameRootsSize(Child(t, b), v);
  }

  /** A chunk under forced merging: it becomes free if it was hit, else its use stays. */
  predicate UseKept(before: Chunk, after: Chunk, hit: bool) {
    if hit || before.FreeChunk? then after.FreeChunk? else after == before
  }

  lemma ForceNode(t: Tree, b: bool, v: Tree, i: nat, hit: bool)
    requires WF(t) && t.Inner?() && WF(v) && SameRoots(Child(t, b), v) && Size(v) == Size(Child(t, b)) && i < Size(t)
    requires var d := if b then Size(t.left) else 0;
             if d <= i < d + Size(v) then UseKept(ChunkAt(Child(t, b), i - d), ChunkAt(v, i - d), hit) else !hit
    ensures var u := Join(true, WithChild(t, b, v)); Size(u) == Size(t) && UseKept(ChunkAt(t, i), ChunkAt(u, i), hit)
  {
    ChunkWithChild(t, b, v, i);
    ChildKeeps(t, b, v);
    JoinChunk(true, WithChild(t, b, v), i);
  }

  /** Merging by force may dirty free chunks, but a used chunk stays used and a free one free. */
  lemma {:induction false} ForceKeepsUse(t: Tree, p: Path, c: bool, i: nat)
    requires WF(t) && BlockAt(t, p) && i < Size(t)
    ensures Size(FreeAt(true, t, p, c)) == Size(t)
    ensures UseKept(ChunkAt(t, i), ChunkAt(FreeAt(true, t, p, c), i), Off(t, p) <= i < Off(t, p) + Size(At(t, p)))
  {
    FreeAtKeeps(true, t, p, c);
    if p != [] {
      var u := Child(t, p[0]);
      var v := FreeAt(true, u, p[1..], c);
      var d := if p[0] then Size(t.left) else 0;
      WFAt(u, p[1..]);
      FreeAtKeeps(true, u, p[1..], c);
      if d <= i < d + Size(u) { ForceKeepsUse(u, p[1..], c, i - d); }
      ForceNode(t, p[0], v, i, Off(t, p) <= i < Off(t, p) + Size(At(t, p)));
    }
  }

  lemma HoldsUsed(t: Tree, q: Path)
    requires UsedBlockAt(t, q)
    ensures !t.Free? && !t.End?
  {}

  /** Other allocated blocks survive a free, at their own address. */
  lemma {:induction false} FreeAtOthers(force: bool, t: Tree, p: Path, c: bool, q: Path)
    requires UsedBlockAt(t, p) && UsedBlockAt(t, q) && p != q
    ensures var u := FreeAt(force, t, p, c); UsedBlockAt(u, q) && At(u, q) == At(t, q)
  {
    LeavesApart(t, p, q);
    if p[0] == q[0] {
      assert p == [p[0]] + p[1..] && q == [q[0]] + q[1..];
      FreeAtOthers(force, Child(t, p[0]), p[1..], c, q[1..]);
    }
    var v := FreeAt(force, Child(t, p[0]), p[1..], c);
    var w := WithChild(t, p[0], v);
    HoldsUsed(Child(w, q[0]), q[1..]);
    assert FreeAt(force, t, p, c) == w;
  }

  /** One round of the merging loop: the free block `p` and its free buddy become their parent. */
  lemma {:induction false} MergeStep(force: bool, t: Tree, p: Path, c: bool)
    requires WF(t) && BlockAt(t, p) && HasParent(t, p) && Has(t, Sibling(p)) && At(t, Sibling(p)).Free?
    requires force || At(t, Sibling(p)).clear == c
    ensures var u := Put(t, Parent(p), Allocated(At(t, p).order + 1, !force && c));
            BlockAt(u, Parent(p)) &&
            FreeAt(force, t, p, c) == FreeAt(force, u, Parent(p), !force && c)
  {
    var a := Parent(p);
    var x := Allocated(At(t, p).order + 1, !force && c);
    ParentFacts(t, p);
    PutAt(t, a, x);
    if |p| > 1 {
      var s := Child(t, p[0]);
      assert p[1..] != [] && Parent(p)[1..] == Parent(p[1..]) && Sibling(p)[1..] == Sibling(p[1..]);
      MergeStep(force, s, p[1..], c);
    } else {
      assert p == [p[0]] && a == [] && p[1..] == [];
      WFAt(t, a);
    }
  }

  /** When the buddy cannot be merged with, the block is freed where it is. */
  lemma {:induction false} MergeStop(force: bool, t: Tree, p: Path, c: bool)
    requires WF(t) && BlockAt(t, p)
    requires HasParent(t, p) ==>
      Has(t, Sibling(p)) && !(At(t, Sibling(p)).Free? && (force || At(t, Sibling(p)).clear == c))
    ensures FreeAt(force, t, p, c) == Put(t, p, Free(At(t, p).order, c))
  {
    if p != [] {
      ParentFacts(t, p);
      if |p| > 1 {
        assert Parent(p)[1..] == Parent(p[1..]) && Sibling(p)[1..] == Sibling(p[1..]);
        MergeStop(force, Child(t, p[0]), p[1..], c);
      } else {
        assert p == [p[0]] && Parent(p) == [] && p[1..] == [];
        assert Sibling(p) == [!p[0]];
        OneStep(t, !p[0]);
      }
    }
  }

  /** Freeing does not look at the old contents of the block. */
  lemma {:induction false} FreeOverwritten(force: bool, t: Tree, p: Path, x: Tree, c: bool)
    requires BlockAt(t, p) && x.Block?() && x.order == At(t, p).order
    ensures BlockAt(Put(t, p, x), p) && FreeAt(force, Put(t, p, x), p, c) == FreeAt(force, t, p, c)
  {
    if p != [] { FreeOverwritten(force, Child(t, p[0]), p[1..], x, c); }
  }

  /** Parent and buddy of an overwritten block. */
  lemma BuddyStays(t: Tree, p: Path, x: Tree)
    requires Has(t, p)
    ensures HasParent(Put(t, p, x), p) <==> HasParent(t, p)
    ensures HasParent(t, p) ==>
      var s := Sibling(p); Has(t, s) && Has(Put(t, p, x), s) && At(Put(t, p, x), s) == At(t, s)
  {
    if p != [] {
      ParentFacts(t, p);
      assert p == Parent(p) + [Last(p)];
      PutBelow(t, Parent(p), [Last(p)], x);
      PutAt(t, Parent(p), Put(At(t, Parent(p)), [Last(p)], x));
      PutApart(t, p, x, Sibling(p));
    }
  }

  // ---------- Freeing a list of blocks ----------

  predicate AllUsed(t: Tree, ps: seq<Path>) {
    (forall i | 0 <= i < |ps| :: UsedBlockAt(t, ps[i])) && NoDup(ps)
  }

  /** What freeing does to a block's mark: `Keep` is used while an allocation is still internal. */
  datatype Marking = Keep | MarkClear | MarkDirty

  function NewMark(m: Marking, c: bool): bool {
    match m
    case Keep => c
    case MarkClear => true
    case MarkDirty => false
  }

  /** Free the blocks one after the other. */
  function Released(t: Tree, ps: seq<Path>, m: Marking): Tree
    requires AllUsed(t, ps)
    decreases |ps|
  {
    if ps == [] then t
    else
      ReleaseRest(t, ps, NewMark(m, At(t, ps[0]).clear));
      Released(FreeAt(false, t, ps[0], NewMark(m, At(t, ps[0]).clear)), ps[1..], m)
  }

  lemma ReleaseRest(t: Tree, ps: seq<Path>, c: bool)
    requires AllUsed(t, ps) && ps != []
    ensures AllUsed(FreeAt(false, t, ps[0], c), ps[1..])
  {
    NoDupTail(ps);
    forall i | 0 <= i < |ps[1..]| ensures UsedBlockAt(FreeAt(false, t, ps[0], c), ps[1..][i]) {
      Differ(ps, 0, 1 + i);
      FreeAtOthers(false, t, ps[0], c, ps[1 + i]);
    }
  }

  predicate Covers(t: Tree, p: Path, i: nat)
    requires Has(t, p)
  {
    Off(t, p) <= i < Off(t, p) + Size(At(t, p))
  }

  predicate Covered(t: Tree, ps: seq<Path>, i: nat)
    requires AllUsed(t, ps)
  {
    exists j :: 0 <= j < |ps| && Covers(t, ps[j], i)
  }

  /** Releasing a list frees exactly the chunks it covers and keeps the tree canonical. */
  lemma {:induction false} ReleasedChunks(t: Tree, ps: seq<Path>, m: Marking)
    requires WF(t) && AllUsed(t, ps)
    ensures var u := Released(t, ps, m);
            WF(u) && SameRoots(t, u) && Size(u) == Size(t) && (Maximal(t) ==> Maximal(u)) &&
            forall i: nat | i < Size(t) ::
              ChunkAt(u, i) == if Covered(t, ps, i) then FreeChunk(NewMark(m, ChunkAt(t, i).clear)) else ChunkAt(t, i)
    decreases |ps|
  {
    SameRootsSelf(t);
    if ps != [] {
      var p, c := ps[0], NewMark(m, At(t, ps[0]).clear);
      var v := FreeAt(false, t, p, c);
      ReleaseRest(t, ps, c);
      FreeAtKeeps(false, t, p, c);
      if Maximal(t) { FreeAtMaximal(false, t, p, c); }
      ReleasedChunks(v, ps[1..], m);
      var u := Released(t, ps, m);
      assert u == Released(v, ps[1..], m);
      SameRootsTrans(t, v, u);
      forall i: nat | i < Size(t)
        ensures ChunkAt(u, i) == if Covered(t, ps, i) then FreeChunk(NewMark(m, ChunkAt(t, i).clear)) else ChunkAt(t, i)
      {
        FreeAtChunks(t, p, c, i);
        if Covers(t, p, i) { ChunkWithin(t, p, i - Off(t, p)); }
        CoveredRest(t, v, ps, i);
      }
    }
  }

  lemma CoveredRest(t: Tree, v: Tree, ps: seq<Path>, i: nat)
    requires WF(t) && WF(v) && SameRoots(t, v) && ps != [] && AllUsed(t, ps) && AllUsed(v, ps[1..])
    ensures Covered(t, ps, i) <==> Covers(t, ps[0], i) || Covered(v, ps[1..], i)
  {
    forall j | 0 <= j < |ps[1..]| ensures Covers(v, ps[1..][j], i) <==> Covers(t, ps[1 + j], i) {
      OffStable(t, v, ps[1 + j]);
    }
    if Covered(t, ps, i) && !Covers(t, ps[0], i) {
      var j :| 0 <= j < |ps| && Covers(t, ps[j], i);
      assert Covers(v, ps[1..][j - 1], i);
    }
    if Covered(v, ps[1..], i) {
      var j :| 0 <= j < |ps[1..]| && Covers(v, ps[1..][j], i);
      assert Covers(t, ps[1 + j], i);
    }
  }

  /**
    The rollback law: if `u` differs from the canonical `t` only in that the blocks `ps` were taken,
    releasing them brings `t` back, node for node.
   */
  lemma RollbackRestores(t: Tree, u: Tree, ps: seq<Path>)
    requires WF(t) && WF(u) && Maximal(t) && Maximal(u) && SameRoots(t, u) && Size(t) == Size(u)
    requires AllUsed(u, ps)
    requires forall i: nat | i < Size(t) ::
      ChunkAt(t, i) == if Covered(u, ps, i) then FreeChunk(ChunkAt(u, i).clear) else ChunkAt(u, i)
    ensures Released(u, ps, Keep) == t
  {
    ReleasedChunks(u, ps, Keep);
    var r := Released(u, ps, Keep);
    SameRootsTrans(t, u, r);
    assert SameChunks(t, r);
    Canonical(t, r);
  }
}
