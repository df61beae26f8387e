/** What merging by force does to the tree: which blocks it touches, and which pairs are left over. */
module BuddyMerge {
  import opened Powers
  import opened BuddyTree
  import opened BuddyLists
  import opened BuddyCanon
  import opened BuddyRange
  import opened BuddyWork
  import opened BuddyState

  /** A chunk in use stays as it is, a free chunk stays free. */
  predicate SameUse(t: Tree, u: Tree) {
    Size(t) == Size(u) &&
    forall i: nat | i < Size(t) ::
      if ChunkAt(t, i).FreeChunk? then ChunkAt(u, i).FreeChunk? else ChunkAt(u, i) == ChunkAt(t, i)
  }

  lemma SameUseSelf(t: Tree)
    ensures SameUse(t, t)
  {}

  lemma SameUseTrans(t: Tree, u: Tree, v: Tree)
    requires SameUse(t, u) && SameUse(u, v)
    ensures SameUse(t, v)
  {
    forall i: nat | i < Size(t)
      ensures if ChunkAt(t, i).FreeChunk? then ChunkAt(v, i).FreeChunk? else ChunkAt(v, i) == ChunkAt(t, i)
    {
      assert if ChunkAt(t, i).FreeChunk? then ChunkAt(u, i).FreeChunk? else ChunkAt(u, i) == ChunkAt(t, i);
      assert if ChunkAt(u, i).FreeChunk? then ChunkAt(v, i).FreeChunk? else ChunkAt(v, i) == ChunkAt(u, i);
    }
  }

  lemma ForceSameUse(t: Tree, p: Path, c: bool)
    requires WF(t) && FreeBlockAt(t, p)
    ensures SameUse(t, FreeAt(true, t, p, c))
  {
    FreeAtKeeps(true, t, p, c);
    forall i: nat | i < Size(t)
      ensures var u := FreeAt(true, t, p, c);
              if ChunkAt(t, i).FreeChunk? then ChunkAt(u, i).FreeChunk? else ChunkAt(u, i) == ChunkAt(t, i)
    {
      ForceKeepsUse(t, p, c, i);
      if Off(t, p) <= i < Off(t, p) + Size(At(t, p)) { ChunkWithin(t, p, i - Off(t, p)); }
    }
  }

  /** Freeing overwrites the merged block and nothing else. */
  lemma {:induction false} FreeAtIsPut(force: bool, t: Tree, p: Path, c: bool, at: Path)
    requires BlockAt(t, p) && Prefix(at, p) && Has(FreeAt(force, t, p, c), at)
    ensures Has(t, at) && FreeAt(force, t, p, c) == Put(t, at, At(FreeAt(force, t, p, c), at))
  {
    if at != [] {
      PrefixCons(at, p);
      FreeAtIsPut(force, Child(t, p[0]), p[1..], c, at[1..]);
    }
  }

  /** The other free blocks of the same order survive. */
  lemma {:induction false} ForceOthers(t: Tree, p: Path, c: bool, q: Path)
    requires WF(t) && FreeBlockAt(t, p) && FreeBlockAt(t, q) && At(t, q).order == At(t, p).order
    requires p != q && q != Sibling(p)
    ensures var u := FreeAt(true, t, p, c); FreeBlockAt(u, q) && At(u, q) == At(t, q)
  {
    LeavesApart(t, p, q);
    assert p == [p[0]] + p[1..] && q == [q[0]] + q[1..];
    var v := FreeAt(true, Child(t, p[0]), p[1..], c);
    if p[0] == q[0] {
      if p[1..] != [] { assert Sibling(p) == [p[0]] + Sibling(p[1..]); }
      ForceOthers(Child(t, p[0]), p[1..], c, q[1..]);
    } else {
      if t.Split? {
        OrdersFall(Child(t, p[0]), p[1..]);
        OrdersFall(Child(t, q[0]), q[1..]);
      }
      assert p[1..] == [] ==> Sibling(p) == [!p[0]];
    }
    assert FreeAt(true, t, p, c) == WithChild(t, p[0], v);
  }

  lemma {:induction false} OrdersFall(t: Tree, p: Path)
    requires WF(t) && BlockAt(t, p) && t.Block?()
    ensures At(t, p).order == t.order - |p|
  {
    if p != [] { OrdersFall(Child(t, p[0]), p[1..]); }
  }

  /** `q` could be merged by force: it is free, has a free buddy and lies in `[s, e)`. */
  predicate Pairable(t: Tree, q: Path, s: int, e: int) {
    FreeBlockAt(t, q) && HasParent(t, q) && Has(t, Sibling(q)) && At(t, Sibling(q)).Free? &&
    Contains(s, e, Off(t, q), Off(t, q) + Pow2(At(t, q).order))
  }

  /** The merged block is not mergeable any more, so merging only ever removes pairs. */
  lemma PairsShrink(t: Tree, at: Path, x: Tree, q: Path, s: int, e: int)
    requires WF(t) && BlockAt(t, at) && x == Free(At(t, at).order, x.Free? && x.clear)
    requires var u := Put(t, at, x); HasParent(u, at) ==> Has(u, Sibling(at)) && !At(u, Sibling(at)).Free?
    requires Pairable(Put(t, at, x), q, s, e)
    ensures Pairable(t, q, s, e) && Apart(at, q)
  {
    var u := Put(t, at, x);
    PutAt(t, at, x);
    PutKeeps(t, at, x);
    var z := Sibling(q);
    ParentFacts(u, q);
    if q == at { assert false; }
    LeavesApart(u, at, q);
    PutApart(t, at, x, q);
    if z == at {
      SiblingTwice(q);
      assert false;
    }
    LeavesApart(u, at, z);
    PutApart(t, at, x, z);
    OffStable(t, u, q);
    ParentFacts(t, q);
    OffStable(t, u, Parent(q));
    WFAt(u, Parent(q));
  }

  lemma SiblingTwice(q: Path)
    requires q != []
    ensures Sibling(q) != [] && Sibling(Sibling(q)) == q && Parent(Sibling(q)) == Parent(q)
  {
    assert Parent(Sibling(q)) == Parent(q);
    assert Last(Sibling(q)) == !Last(q);
    assert Parent(q) + [Last(q)] == q;
  }

  /** No pair of an order in `[lo, hi)` is left in the range `[s, e)`. */
  ghost predicate Merged(t: Tree, s: int, e: int, lo: int, hi: int) {
    forall q | Pairable(t, q, s, e) :: !(lo <= At(t, q).order < hi)
  }

  /** The block was merged away: it is no longer in the tree, nor is its buddy. */
  lemma MergedAway(at: Path, p: Path, q: Path)
    requires Prefix(at, p) && at != p && Apart(at, q)
    ensures q != p && q != Sibling(p)
  {
    assert Parent(p)[..|at|] == p[..|at|];
    assert Sibling(p)[..|at|] == Parent(p)[..|at|];
  }

  lemma DistinctOffsets(t: Tree, p: Path, q: Path)
    requires WF(t) && FreeBlockAt(t, p) && FreeBlockAt(t, q) && p != q
    ensures Off(t, p) != Off(t, q)
  {
    LeavesApart(t, p, q);
    ApartDisjoint(t, p, q);
    WFAt(t, p);
    WFAt(t, q);
  }

  /** `q` was mergeable before `p` was merged, and is where it was. */
  predicate StillPairs(t: Tree, u: Tree, p: Path, q: Path, s: int, e: int)
    requires Pairable(u, q, s, e) && p != []
  {
    Pairable(t, q, s, e) && q != p && q != Sibling(p) && Off(u, q) == Off(t, q) && At(u, q).order == At(t, q).order
  }

  /** Every pair of order `k` left in the range is at `off` or below, and there is none if `some` is false. */
  ghost predicate PairsUpTo(t: Tree, k: int, s: int, e: int, some: bool, off: nat) {
    forall q | Pairable(t, q, s, e) && At(t, q).order == k :: some && Off(t, q) <= off
  }

  /**
    A pair to make a block of order `k` of, and the first that the walk over the list meets: it has the highest offset.
   */
  ghost predicate TopPair(t: Tree, q: Path, k: nat, s: int, e: int) {
    Pairable(t, q, s, e) && At(t, q).order + 1 == k && PairsUpTo(t, k - 1, s, e, true, Off(t, q))
  }

  lemma TopUnique(t: Tree, p: Path, q: Path, k: nat, s: int, e: int)
    requires WF(t) && TopPair(t, p, k, s, e) && TopPair(t, q, k, s, e)
    ensures p == q
  {
    if p != q { DistinctOffsets(t, p, q); }
  }

  /** What one forced merge of the free block `p` into `at` leaves for the loop to do. */
  lemma MergeProgress(t: Tree, u: Tree, p: Path, at: Path, s: int, e: int, lo: int, hi: int)
    requires WF(t) && WF(u) && SameRoots(t, u) && FreeBlockAt(t, p) && Prefix(at, p) && at != p
    requires FreeBlockAt(u, at) && BlockAt(t, at) && u == Put(t, at, At(u, at))
    requires HasParent(u, at) ==> Has(u, Sibling(at)) && !At(u, Sibling(at)).Free?
    requires Merged(t, s, e, lo, hi)
    ensures Merged(u, s, e, lo, hi)
    ensures forall q | Pairable(u, q, s, e) :: StillPairs(t, u, p, q, s, e)
  {
    OffStable(t, u, at);
    forall q | Pairable(u, q, s, e)
      ensures StillPairs(t, u, p, q, s, e)
    {
      PairsShrink(t, at, At(u, at), q, s, e);
      MergedAway(at, p, q);
      OffStable(t, u, q);
    }
  }

  // ---------- How far up merging can reach ----------

  /** Every root that overlaps `[s, e)` is at most of order `bound`. */
  predicate Capped(t: Tree, off: nat, s: int, e: int, bound: nat) {
    match t
    case Roots(l, r) => Capped(l, off, s, e, bound) && Capped(r, off + Size(l), s, e, bound)
    case End => true
    case _ => Overlaps(s, e, off, off + Size(t)) ==> t.order <= bound
  }

  lemma {:induction false} CappedAt(t: Tree, off: nat, p: Path, s: int, e: int, bound: nat)
    requires WF(t) && Capped(t, off, s, e, bound) && BlockAt(t, p)
    requires Overlaps(s, e, off + Off(t, p), off + Off(t, p) + Size(At(t, p)))
    ensures At(t, p).order <= bound
  {
    if p != [] {
      WFAt(t, p);
      if t.Split? {
        OrdersFall(t, p);
      } else {
        CappedAt(Child(t, p[0]), off + (if p[0] then Size(t.left) else 0), p[1..], s, e, bound);
      }
    }
  }

  lemma {:induction false} CappedStable(t: Tree, u: Tree, off: nat, s: int, e: int, bound: nat)
    requires WF(t) && WF(u) && SameRoots(t, u) && Capped(t, off, s, e, bound)
    ensures Capped(u, off, s, e, bound)
  {
    if t.Roots? {
      SameRootsSize(t.left, u.left);
      CappedStable(t.left, u.left, off, s, e, bound);
      CappedStable(t.right, u.right, off + Size(t.left), s, e, bound);
    } else if t.Block?() {
      SameRootsSize(t, u);
    }
  }

  lemma {:induction false} CappedByMax(t: Tree, off: nat, s: int, e: int, m: nat)
    requires Bounded(t, m)
    ensures Capped(t, off, s, e, m)
  {
    if t.Roots? { CappedByMax(t.left, off, s, e, m); CappedByMax(t.right, off + Size(t.left), s, e, m); }
  }

  lemma {:induction false} NoLargerFrees(t: Tree, k: nat)
    requires WF(t) && t.Block?() && k > t.order
    ensures Frees(t, k) == []
  {
    if t.Split? { NoLargerFrees(t.left, k); NoLargerFrees(t.right, k); }
  }

  /** The lists of orders above that of the merged block are as before. */
  lemma HighListsStay(t: Tree, at: Path, x: Tree, k: nat)
    requires WF(t) && BlockAt(t, at) && x.Free? && x.order == At(t, at).order < k
    ensures Frees(Put(t, at, x), k) == Frees(t, k)
  {
    WFAt(t, at);
    NoLargerFrees(At(t, at), k);
    FreesSame(t, at, x, k);
  }

  /** The merged block is larger than the one it grew from, and covers it. */
  lemma MergedOverlaps(t: Tree, u: Tree, p: Path, at: Path, s: int, e: int)
    requires WF(t) && WF(u) && SameRoots(t, u) && FreeBlockAt(t, p) && Prefix(at, p) && at != p
    requires BlockAt(t, at) && FreeBlockAt(u, at)
    requires Contains(s, e, Off(t, p), Off(t, p) + Pow2(At(t, p).order))
    ensures At(u, at).order == At(t, at).order > At(t, p).order
    ensures Overlaps(s, e, Off(u, at), Off(u, at) + Size(At(u, at))) && Size(At(u, at)) == Pow2(At(u, at).order)
  {
    var d := p[|at|..];
    assert p == at + d;
    AppendPath(t, at, d);
    OffStable(t, u, at);
    WFAt(t, at);
    WFAt(u, at);
    WFAt(At(t, at), d);
    OrdersFall(At(t, at), d);
    SizeOfBlock(At(t, at));
    SizeOfBlock(At(u, at));
  }
}
