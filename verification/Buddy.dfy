/**
  The buddy allocator itself: the operations of `drm_buddy.c` on the manager's mutable state,
  each proved against the functions of the modules it imports.
 */
module BuddyAllocator {
  import opened Common
  import opened Powers
  import opened BuddyTree
  import opened BuddyLists
  import opened BuddyCanon
  import opened BuddyRange
  import opened BuddyWork
  import opened BuddyBias
  import opened BuddyState
  import opened BuddyMerge
  import opened BuddyRoots
  import opened BuddyHeld
  import opened BuddyTrim
  import opened BuddyRoom
  import opened BuddySpare
  import opened BuddyChoice

  const MIN_CHUNK: nat := 4096
  const MAX_ORDER: nat := 51

  /** Error codes; `Bug` stands for a `BUG_ON` that fires. */
  datatype Errno = Ok | EINVAL | ENOSPC | ENOMEM | Bug

  function Lesser(a: nat, b: nat): nat { if a <= b then a else b }

  /** The order below which no block is used. */
  function SmallestOrder(n: nat, min: nat, f: Flags): nat
    requires n > 0
  {
    if f.contiguous then Log2(CeilPow2(n)) else min
  }

  /** The size that is allocated before trimming. */
  function RoundedSize(n: nat, min: nat, f: Flags): (r: nat)
    requires n > 0
    ensures n <= r && r - n < Pow2(SmallestOrder(n, min, f)) && Multiple(r, Pow2(SmallestOrder(n, min, f)))
  {
    MultipleIs(1, CeilPow2(n));
    if f.contiguous then CeilPow2(n) else RoundUp(n, Pow2(min))
  }

  /** Contiguous memory is asked for as a single block. */
  lemma ContiguousSize(n: nat, min: nat, f: Flags)
    requires n > 0
    ensures f.contiguous ==> RoundedSize(n, min, f) == Pow2(SmallestOrder(n, min, f))
  {}

  /** How much is handed out if blocks are found in the ordinary way. */
  function Handed(n: nat, min: nat, f: Flags): nat
    requires n > 0
  {
    if f.noTrim then RoundedSize(n, min, f) else n
  }

  /** How much of it is given back. */
  function Surplus(n: nat, min: nat, f: Flags): nat
    requires n > 0
  {
    if f.noTrim then 0 else RoundedSize(n, min, f) - n
  }

  /** The free blocks that are not too small for the request have room for it in `[lo, hi)`. */
  predicate HasRoom(t: Tree, n: nat, min: nat, f: Flags, lo: nat, hi: nat)
    requires n > 0
  {
    RoundedSize(n, min, f) <= Room(t, 0, SmallestOrder(n, min, f), lo, hi)
  }

  /** The aligned runs that are free have room for the request, whatever their marks. */
  predicate HasSpare(t: Tree, n: nat, min: nat, f: Flags)
    requires n > 0
  {
    RoundedSize(n, min, f) <= Spare(t, SmallestOrder(n, min, f))
  }

  /** Merging the pair `q` by force makes room for a block of order `k` in the range. */
  ghost predicate Helps(t: Tree, q: Path, s: nat, hi: nat, k: nat, clear: bool)
    requires FreeBlockAt(t, q)
  {
    exists z :: OfferedBy(Wish(s, hi, k, clear), FreeAt(true, t, q, At(t, q).clear), 0, z)
  }

  /** If there is a pair to merge by force, then whether a block is found is decided by the first one alone. */
  ghost predicate Decided(t: Tree, s: nat, e: nat, hi: nat, k: nat, clear: bool, found: bool) {
    forall q | TopPair(t, q, k, s, e) :: found <==> Helps(t, q, s, hi, k, clear)
  }

  /** What is on the left of `off` does not complete the `filled` chunks that were found from there on. */
  predicate LeftFails(t: Tree, off: nat, n: nat, min: nat, filled: nat)
    requires n > 0
  {
    Pow2(Log2(n)) <= filled < n && off + filled <= Size(t) && AllFree(t, 0, off, off + filled) &&
    var lhs := RoundUp(n - filled, Pow2(min));
    lhs > off || !AllFree(t, 0, off - lhs, off)
  }

  /** The `filled` chunks that were found from `off` on are completed by free chunks on the left of it. */
  predicate LeftHelps(t: Tree, off: nat, n: nat, min: nat, filled: nat, from: nat, total: nat)
    requires n > 0
  {
    Pow2(Log2(n)) <= filled < n && off + filled <= Size(t) && AllFree(t, 0, off, off + filled) &&
    var lhs := RoundUp(n - filled, Pow2(min));
    lhs <= off && AllFree(t, 0, off - lhs, off) && from == off - lhs && total == lhs + filled
  }

  /** Where a run around `off` starts and how long it is. */
  ghost predicate RunAround(t: Tree, off: nat, n: nat, min: nat, from: nat, total: nat)
    requires n > 0
  {
    if off + n <= Size(t) && AllFree(t, 0, off, off + n) then from == off && total == n
    else exists filled: nat :: LeftHelps(t, off, n, min, filled, from, total)
  }

  /** The run is around block `b`, and none is around a free block of that order at a higher offset. */
  ghost predicate Topmost(t: Tree, b: Path, n: nat, min: nat, from: nat, total: nat)
    requires n > 0
  {
    FreeBlockAt(t, b) && At(t, b).order == Log2(n) && RunAround(t, Off(t, b), n, min, from, total) &&
    forall q | FreeBlockAt(t, q) && At(t, q).order == Log2(n) && Off(t, q) > Off(t, b) ::
      NoRunAround(t, Off(t, q), n, min)
  }

  /** The list was gone through from its end. */
  lemma TopmostIs(t: Tree, list: seq<Path>, i: nat, n: nat, min: nat, from: nat, total: nat)
    requires WF(t) && n > 0 && i < |list| && list == Frees(t, Log2(n)) && Has(t, list[i])
    requires RunAround(t, Off(t, list[i]), n, min, from, total)
    requires forall j | i < j < |list| :: Has(t, list[j]) && NoRunAround(t, Off(t, list[j]), n, min)
    ensures Topmost(t, list[i], n, min, from, total)
  {
    hide NoRunAround;
    hide RunAround;
    InFrees(t, Log2(n), list[i]);
    forall q | FreeBlockAt(t, q) && At(t, q).order == Log2(n) && Off(t, q) > Off(t, list[i])
      ensures NoRunAround(t, Off(t, q), n, min)
    {
      InFrees(t, Log2(n), q);
      var j :| 0 <= j < |list| && list[j] == q;
      if j < i { FreesAscend(t, Log2(n), j, i); }
    }
  }

  /** No run of `n` free chunks starts at `off`, and none is found on both sides of it. */
  ghost predicate NoRunAround(t: Tree, off: nat, n: nat, min: nat)
    requires n > 0
  {
    !(off + n <= Size(t) && AllFree(t, 0, off, off + n)) && exists filled: nat :: LeftFails(t, off, n, min, filled)
  }

  /** The same for every free block of the order that is tried. */
  ghost predicate NoRunFrom(t: Tree, n: nat, min: nat)
    requires n > 0
  {
    forall q | FreeBlockAt(t, q) && At(t, q).order == Log2(n) :: NoRunAround(t, Off(t, q), n, min)
  }

  /**
    What taking `n` chunks from blocks of at least some order does to the room in such blocks, which is used up
    before merging by force.
   */
  predicate Grabbed(before: nat, after: nat, n: nat, exact: bool) { if exact then after + n == before else before == 0 }

  class Buddy {
    var chunkSize: nat
    var size: nat
    var maxOrder: nat
    var tree: Tree
    var roots: seq<Path>
    var freeList: seq<seq<Path>>
    var avail: int
    var clearAvail: int

    /** The free lists hold the free blocks of their order, ascending; the counters add them up. */
    ghost predicate Consistent()
      reads this
    {
      Shaped(tree, size, maxOrder) && roots == RootPaths(tree) && Lists(freeList, maxOrder, tree) &&
      avail == FreeSize(tree) && clearAvail == ClearSize(tree)
    }

    /** Between operations the tree is also in canonical form. */
    ghost predicate Valid()
      reads this
    {
      Consistent() && Maximal(tree)
    }

    lemma Shape()
      requires Consistent()
      ensures WF(tree) && (tree.Roots? || tree.End?) && Aligned(tree, 0) && Size(tree) == size
    {}

    lemma Canon()
      requires Valid()
      ensures WF(tree) && Maximal(tree) && (tree.Roots? || tree.End?) && Aligned(tree, 0)
    {}

    // ---------- Free lists ----------

    /** `list_insert_sorted` */
    method ListInsertSorted(b: Path, k: nat, ghost lo: seq<Path>, ghost hi: seq<Path>)
      requires k < |freeList| && freeList[k] == lo + hi && Has(tree, b)
      requires AllBelow(tree, lo, Off(tree, b)) && AllAbove(tree, hi, Off(tree, b))
      modifies this`freeList
      ensures freeList == old(freeList)[k := lo + [b] + hi]
    {
      var list := freeList[k];
      var i := 0;
      while i < |list| && Off(tree, b) >= Off(tree, list[i])
        invariant 0 <= i <= |lo|
      {
        i := i + 1;
      }
      assert i == |lo|;
      freeList := freeList[k := list[..i] + [b] + list[i..]];
    }

    /** `list_del` */
    method ListDel(b: Path, k: nat, ghost lo: seq<Path>, ghost hi: seq<Path>)
      requires k < |freeList| && freeList[k] == lo + [b] + hi && b !in lo
      modifies this`freeList
      ensures freeList == old(freeList)[k := lo + hi]
    {
      WithoutMiddle(lo, b, hi);
      freeList := freeList[k := Without(freeList[k], b)];
    }

    // ---------- Single blocks ----------

    /** `split_block` */
    method SplitBlock(p: Path)
      requires Consistent() && FreeBlockAt(tree, p) && At(tree, p).order > 0
      modifies this`tree, this`freeList
      ensures Consistent()
      ensures tree == Put(old(tree), p, Halved(old(At(tree, p).order), old(At(tree, p).clear)))
      ensures SameRoots(old(tree), tree)
    {
      hide Frees;
      hide RootPaths;
      hide Put;
      var b := At(tree, p);
      var o, c := b.order, b.clear;
      var x := Halved(o, c);
      ghost var t := tree;
      ShapedPut(t, p, x, size, maxOrder);
      SizesPut(t, p, x);
      SplitLinks(freeList, maxOrder, t, p, o, c);
      SplitSorted(t, p, o, c);
      ghost var lo, hi := Before(t, p, o - 1), Behind(t, p, o - 1);
      ghost var fl := freeList;
      tree := Put(tree, p, x);
      ListInsertSorted(p + [false], o - 1, lo, hi);
      ListInsertSorted(p + [true], o - 1, lo + [p + [false]], hi);
      UpdateTwice(fl, o - 1, lo + [p + [false]] + hi, lo + [p + [false]] + [p + [true]] + hi);
      ListDel(p, o, Before(t, p, o), Behind(t, p, o));
    }

    /** `mark_allocated`, together with the counter updates that always follow it */
    method TakeBlock(p: Path)
      requires Consistent() && FreeBlockAt(tree, p)
      modifies this`tree, this`freeList, this`avail, this`clearAvail
      ensures Consistent() && SameRoots(old(tree), tree)
      ensures tree == Put(old(tree), p, Allocated(old(At(tree, p).order), old(At(tree, p).clear)))
      ensures avail == old(avail) - Pow2(old(At(tree, p).order))
      ensures clearAvail == old(clearAvail) - if old(At(tree, p).clear) then Pow2(old(At(tree, p).order)) else 0
    {
      var b := At(tree, p);
      ghost var t := tree;
      ghost var x := Allocated(b.order, b.clear);
      ShapedPut(t, p, x, size, maxOrder);
      SizesPut(t, p, x);
      Unlinked(freeList, maxOrder, t, p, b.clear);
      tree := Put(tree, p, Allocated(b.order, b.clear));
      ListDel(p, b.order, Before(t, p, b.order), Behind(t, p, b.order));
      avail := avail - Pow2(b.order);
      if b.clear { clearAvail := clearAvail - Pow2(b.order); }
    }

    /** `mark_free` of an unlinked block, which gets the mark `c` */
    method MarkFree(p: Path, c: bool)
      requires Shaped(tree, size, maxOrder) && Lists(freeList, maxOrder, tree) && UsedBlockAt(tree, p)
      modifies this`tree, this`freeList
      ensures Shaped(tree, size, maxOrder) && Lists(freeList, maxOrder, tree) && SameRoots(old(tree), tree)
      ensures tree == Put(old(tree), p, Free(old(At(tree, p).order), c))
    {
      var o := At(tree, p).order;
      ghost var t := tree;
      ShapedPut(t, p, Free(o, c), size, maxOrder);
      Linked(freeList, maxOrder, t, p, c);
      tree := Put(tree, p, Free(o, c));
      ListInsertSorted(p, o, Before(t, p, o), Behind(t, p, o));
    }

    // ---------- Freeing ----------

    /** `q` is on its way to being free: unlinked, not in the tree as free, but already counted. */
    ghost predicate Pending(q: Path, force: bool)
      reads this
    {
      Shaped(tree, size, maxOrder) && roots == RootPaths(tree) && Lists(freeList, maxOrder, tree) &&
      UsedBlockAt(tree, q) && avail == FreeSize(tree) + Pow2(At(tree, q).order) &&
      clearAvail == ClearSize(tree) + if !force && At(tree, q).clear then Pow2(At(tree, q).order) else 0
    }

    predicate CanMerge(q: Path, force: bool)
      reads this
      requires UsedBlockAt(tree, q)
    {
      HasParent(tree, q) && Has(tree, Sibling(q)) && At(tree, Sibling(q)).Free? &&
      (force || At(tree, Sibling(q)).clear == At(tree, q).clear)
    }

    /** One round of the merging loop: `q` and its buddy give way to their parent. */
    method MergeOnce(q: Path, force: bool)
      requires Pending(q, force) && CanMerge(q, force)
      modifies this`tree, this`freeList, this`clearAvail
      ensures Pending(Parent(q), force) && SameRoots(old(tree), tree)
      ensures tree == Put(old(tree), Parent(q), Allocated(old(At(tree, q).order) + 1, !force && old(At(tree, q).clear)))
    {
      hide Frees;
      hide FreeSize;
      hide ClearSize;
      hide Put;
      hide RootPaths;
      var block, s := At(tree, q), Sibling(q);
      var buddy := At(tree, s);
      ghost var t := tree;
      var x := Allocated(block.order + 1, !force && block.clear);
      MergeOne(freeList, maxOrder, t, q, x, size);
      ListDel(s, block.order, Before(t, s, block.order), Behind(t, s, block.order));
      if force && buddy.clear { clearAvail := clearAvail - Pow2(buddy.order); }
      tree := Put(tree, Parent(q), x);
    }

    /** The last step: the merged block goes on its free list. */
    method Settle(q: Path, force: bool)
      requires Pending(q, force) && (force ==> !At(tree, q).clear)
      modifies this`tree, this`freeList
      ensures Consistent() && SameRoots(old(tree), tree)
      ensures tree == Put(old(tree), q, Free(old(At(tree, q).order), old(At(tree, q).clear)))
    {
      var b := At(tree, q);
      SizesPut(tree, q, Free(b.order, b.clear));
      ShapedPut(tree, q, Free(b.order, b.clear), size, maxOrder);
      MarkFree(q, b.clear);
    }

    /** The merging loop of `__drm_buddy_free`. */
    method Climb(p: Path, force: bool) returns (q: Path)
      requires Pending(p, force) && (force ==> CanMerge(p, true))
      modifies this`tree, this`freeList, this`clearAvail
      ensures Pending(q, force) && !CanMerge(q, force) && SameRoots(old(tree), tree) && Prefix(q, p)
      ensures FreeAt(force, tree, q, At(tree, q).clear) == FreeAt(force, old(tree), p, old(At(tree, p).clear))
      ensures force ==> q != p && !At(tree, q).clear
    {
      hide FreeAt;
      hide Frees;
      hide Put;
      q := p;
      SameRootsSelf(tree);
      while CanMerge(q, force)
        invariant Pending(q, force) && SameRoots(old(tree), tree) && Prefix(q, p)
        invariant FreeAt(force, tree, q, At(tree, q).clear) == FreeAt(force, old(tree), p, old(At(tree, p).clear))
        invariant q == p ==> tree == old(tree)
        invariant force && q != p ==> !At(tree, q).clear
        decreases |q|
      {
        ghost var t := tree;
        MergeStep(force, t, q, At(t, q).clear);
        PutAt(t, Parent(q), Allocated(At(t, q).order + 1, !force && At(t, q).clear));
        MergeOnce(q, force);
        SameRootsTrans(old(tree), t, tree);
        q := Parent(q);
      }
    }

    /** `__drm_buddy_free`: merge the unlinked block upwards, then put the result on its free list. */
    method MergeAndFree(p: Path, force: bool) returns (order: nat, ghost at: Path)
      requires Pending(p, force) && (force ==> CanMerge(p, true))
      modifies this`tree, this`freeList, this`clearAvail
      ensures Consistent() && SameRoots(old(tree), tree)
      ensures tree == FreeAt(force, old(tree), p, old(At(tree, p).clear))
      ensures Prefix(at, p) && FreeBlockAt(tree, at) && At(tree, at).order == order
      ensures force ==> at != p && (HasParent(tree, at) ==> Has(tree, Sibling(at)) && !At(tree, Sibling(at)).Free?)
    {
      var q := Climb(p, force);
      order := At(tree, q).order;
      at := q;
      ghost var t := tree;
      BuddyStays(t, q, Free(order, At(t, q).clear));
      MergeStop(force, t, q, At(t, q).clear);
      PutAt(t, q, Free(order, At(t, q).clear));
      Settle(q, force);
      SameRootsTrans(old(tree), t, tree);
    }

    /** `mark_cleared`, `clear_reset` on an allocated block */
    method SetMark(p: Path, c: bool)
      requires Consistent() && UsedBlockAt(tree, p)
      modifies this`tree
      ensures Consistent() && tree == Put(old(tree), p, Allocated(old(At(tree, p).order), c))
      ensures UsedBlockAt(tree, p) && At(tree, p).clear == c
      ensures forall d :: FreeAt(false, tree, p, d) == FreeAt(false, old(tree), p, d)
      ensures SameRoots(old(tree), tree)
    {
      var o := At(tree, p).order;
      ShapedPut(tree, p, Allocated(o, c), size, maxOrder);
      SizesPut(tree, p, Allocated(o, c));
      PutAt(tree, p, Allocated(o, c));
      forall k | 0 <= k <= maxOrder ensures freeList[k] == Frees(Put(tree, p, Allocated(o, c)), k) {
        FreesSame(tree, p, Allocated(o, c), k);
      }
      forall d ensures FreeAt(false, Put(tree, p, Allocated(o, c)), p, d) == FreeAt(false, tree, p, d) {
        FreeOverwritten(false, tree, p, Allocated(o, c), d);
      }
      tree := Put(tree, p, Allocated(o, c));
    }

    /** `drm_buddy_free_block` */
    method FreeBlock(p: Path)
      requires Consistent() && UsedBlockAt(tree, p)
      modifies this`tree, this`freeList, this`avail, this`clearAvail
      ensures Consistent() && SameRoots(old(tree), tree)
      ensures tree == FreeAt(false, old(tree), p, old(At(tree, p).clear))
    {
      var b := At(tree, p);
      avail := avail + Pow2(b.order);
      if b.clear { clearAvail := clearAvail + Pow2(b.order); }
      var order, at := MergeAndFree(p, false);
    }

    /** `__drm_buddy_free_list` */
    method FreeBlocks(ps: seq<Path>, m: Marking)
      requires Consistent() && AllUsed(tree, ps)
      modifies this`tree, this`freeList, this`avail, this`clearAvail
      ensures Consistent() && SameRoots(old(tree), tree)
      ensures tree == Released(old(tree), ps, m)
      ensures old(Valid()) ==> Valid()
      ensures avail == old(avail) + old(Total(tree, ps))
    {
      hide Total;
      hide Frees;
      hide RootPaths;
      SameRootsSelf(tree);
      ReleasedSize(tree, ps, m);
      ReleasedChunks(tree, ps, m);
      var i := 0;
      while i < |ps|
        invariant 0 <= i <= |ps| && Consistent() && SameRoots(old(tree), tree)
        invariant AllUsed(tree, ps[i..]) && Released(tree, ps[i..], m) == Released(old(tree), ps, m)
      {
        var p := ps[i];
        ghost var t, rest := tree, ps[i..];
        assert rest[0] == p && rest[1..] == ps[i + 1..];
        ReleaseRest(t, rest, NewMark(m, At(tree, p).clear));
        SetMark(p, NewMark(m, At(tree, p).clear));
        SameRootsTrans(old(tree), t, tree);
        ghost var t' := tree;
        FreeBlock(p);
        SameRootsTrans(old(tree), t', tree);
        i := i + 1;
      }
    }

    /** `drm_buddy_free_list`: exactly the chunks of the blocks become free, all of them with the mark given. */
    method FreeList(ps: seq<Path>, cleared: bool)
      requires Valid() && AllUsed(tree, ps)
      modifies this`tree, this`freeList, this`avail, this`clearAvail
      ensures Valid() && SameRoots(old(tree), tree)
      ensures tree == Released(old(tree), ps, if cleared then MarkClear else MarkDirty)
      ensures Size(tree) == old(Size(tree)) && forall i: nat | i < Size(tree) ::
                ChunkAt(tree, i) == if Covered(old(tree), ps, i) then FreeChunk(cleared) else ChunkAt(old(tree), i)
      ensures avail == old(avail) + old(Total(tree, ps))
      ensures clearAvail == old(clearAvail) + if cleared then old(Total(tree, ps)) else 0
    {
      hide Total;
      hide Released;
      ReleasedChunks(tree, ps, if cleared then MarkClear else MarkDirty);
      ReleasedSize(tree, ps, if cleared then MarkClear else MarkDirty);
      FreeBlocks(ps, if cleared then MarkClear else MarkDirty);
    }

    // ---------- Exact ranges ----------

    /** One round of the loop of `__alloc_range`. */
    method VisitRange(dfs: seq<Path>, s: nat, e: nat, held: seq<Path>, ghost r: Outcome)
      returns (rest: seq<Path>, held': seq<Path>, failed: bool)
      requires Consistent() && dfs != [] && OnCourse(r, tree, dfs, held, s, e, clearAvail)
      modifies this`tree, this`freeList, this`avail, this`clearAvail
      ensures Consistent() && SameRoots(old(tree), tree)
      ensures if failed then r == Outcome(false, tree, held, clearAvail) && held' == held
              else OnCourse(r, tree, rest, held', s, e, clearAvail) && Effort(tree, rest) < Effort(old(tree), dfs)
      ensures AllUsed(tree, held')
      ensures Total(tree, held') - old(Total(tree, held)) == if held' == held then 0 else SizeAt(tree, dfs[0])
    {
      hide TakeAll;
      hide Effort;
      hide Total;
      var p := dfs[0];
      var b, from := At(tree, p), Off(tree, p);
      var to := from + Pow2(b.order);
      ghost var t, clear := tree, clearAvail;
      WFAt(t, p);
      SizeOfBlock(b);
      SameRootsSelf(t);
      rest, held', failed := dfs[1..], held, false;
      if !Overlaps(s, e, from, to) {
        CourseSkips(r, t, dfs, held, s, e, clear);
      } else if b.Allocated? {
        CourseFails(r, t, dfs, held, s, e, clear);
        failed := true;
      } else if Contains(s, e, from, to) && b.Free? {
        CourseTakes(r, t, dfs, held, s, e, clear);
        PutAt(t, p, Allocated(b.order, b.clear));
        TakeBlock(p);
        held' := held + [p];
      } else if Contains(s, e, from, to) && clearAvail == 0 {
        CourseFails(r, t, dfs, held, s, e, clear);
        failed := true;
      } else {
        rest := OpenNode(dfs, s, e, held, r);
      }
    }

    /**
      The last branch of the loop of `__alloc_range`: go on with the halves of the node, after splitting it if need be.
     */
    method OpenNode(dfs: seq<Path>, s: nat, e: nat, held: seq<Path>, ghost r: Outcome) returns (rest: seq<Path>)
      requires Consistent() && dfs != [] && OnCourse(r, tree, dfs, held, s, e, clearAvail)
      requires var b, from := At(tree, dfs[0]), Off(tree, dfs[0]); var to := from + Pow2(b.order);
               Overlaps(s, e, from, to) && !b.Allocated? && !(Contains(s, e, from, to) && (b.Free? || clearAvail == 0))
      modifies this`tree, this`freeList
      ensures Consistent() && SameRoots(old(tree), tree) && OnCourse(r, tree, rest, held, s, e, clearAvail)
      ensures Effort(tree, rest) < Effort(old(tree), dfs) && AllUsed(tree, held) &&
              Total(tree, held) == old(Total(tree, held))
    {
      var p := dfs[0];
      var b := At(tree, p);
      ghost var t, from := tree, Off(tree, p);
      WFAt(t, p);
      SizeOfBlock(b);
      SameRootsSelf(t);
      rest := [p + [false], p + [true]] + dfs[1..];
      if !b.Split? {
        OpensFree(b.order, b.clear, from, s, e, clearAvail);
        CourseOpens(r, t, dfs, held, s, e, clearAvail, Halved(b.order, b.clear));
        SplitBlock(p);
      } else {
        OpensSplit(b, from, s, e, clearAvail);
        CourseOpens(r, t, dfs, held, s, e, clearAvail, b);
        PutPut(t, p, b, b);
      }
    }

    /** The loop of `__alloc_range`. */
    method VisitAll(dfs0: seq<Path>, s: nat, e: nat) returns (failed: bool, total: nat, held: seq<Path>)
      requires Consistent() && Worklist(tree, dfs0)
      modifies this`tree, this`freeList, this`avail, this`clearAvail
      ensures Consistent() && SameRoots(old(tree), tree) && total == Total(tree, held) && AllUsed(tree, held)
      ensures TakeAll(old(tree), dfs0, s, e, old(clearAvail)) == Outcome(!failed, tree, held, clearAvail)
    {
      var dfs := dfs0;
      failed, total, held := false, 0, [];
      SameRootsSelf(tree);
      ghost var r := TakeAll(tree, dfs0, s, e, clearAvail);
      assert [] + r.taken == r.taken;
      while dfs != [] && !failed
        invariant Consistent() && SameRoots(old(tree), tree) && total == Total(tree, held) && AllUsed(tree, held)
        invariant if failed then r == Outcome(false, tree, held, clearAvail)
                  else OnCourse(r, tree, dfs, held, s, e, clearAvail)
        decreases !failed, if failed then 0 else Effort(tree, dfs)
      {
        ghost var t := tree;
        var held';
        var p := dfs[0];
        dfs, held', failed := VisitRange(dfs, s, e, held, r);
        SameRootsTrans(old(tree), t, tree);
        if held' != held { total := total + SizeAt(tree, p); }
        held := held';
      }
      assert held + [] == held;
    }

    /** `__alloc_range`: take `[start, start + count)` below the blocks in `dfs`. */
    method TakeRange(dfs: seq<Path>, start: nat, count: nat, keep: bool)
      returns (err: Errno, filled: nat, got: seq<Path>)
      requires Consistent() && Worklist(tree, dfs) && count > 0
      modifies this`tree, this`freeList, this`avail, this`clearAvail
      ensures Consistent() && SameRoots(old(tree), tree)
      ensures var r := TakeAll(old(tree), dfs, start, start + count, old(clearAvail));
              var ok := r.ok && Total(r.tree, r.taken) >= count;
              AllUsed(r.tree, r.taken) && err == (if ok then Ok else ENOSPC) &&
              if ok || keep then tree == r.tree && got == r.taken && filled == Total(r.tree, r.taken)
              else tree == Released(r.tree, r.taken, Keep) && got == []
    {
      var failed;
      ghost var r := TakeAll(tree, dfs, start, start + count, clearAvail);
      failed, filled, got := VisitAll(dfs, start, start + count);
      assert r == Outcome(!failed, tree, got, clearAvail);
      err := if failed || filled < count then ENOSPC else Ok;
      if err != Ok && !keep {
        ghost var t := tree;
        FreeBlocks(got, Keep);
        SameRootsTrans(old(tree), t, tree);
        got := [];
      }
    }

    /**
      `__drm_buddy_alloc_range`: succeeds if and only if the whole range exists and is free, and then
      returns ascending blocks that cover exactly the range. A failure leaves nothing behind unless
      `keep` is set, and then the blocks of a gap-free prefix of the range.
     */
    method AllocRange(start: nat, count: nat, keep: bool) returns (err: Errno, filled: nat, got: seq<Path>)
      requires Valid() && count > 0
      modifies this`tree, this`freeList, this`avail, this`clearAvail
      ensures Valid() && SameRoots(old(tree), tree)
      ensures err == if start + count <= size && AllFree(old(tree), 0, start, start + count) then Ok else ENOSPC
      ensures AllUsed(tree, got) && Released(tree, got, Keep) == old(tree)
      ensures err == Ok || keep ==> filled == Total(tree, got) <= count && (start < size ==> Tiles(tree, got, start))
      ensures err == Ok ==> Tiles(tree, got, start) && Total(tree, got) == count
      ensures err != Ok && !keep ==>
        got == [] && tree == old(tree) && freeList == old(freeList) && avail == old(avail) &&
        clearAvail == old(clearAvail)
      ensures old(avail) - avail == Total(tree, got)
      ensures keep ==>
                forall q | FreeBlockAt(old(tree), q) && Off(old(tree), q) == start ::
                  var n := Pow2(At(old(tree), q).order); n <= count < 2 * n ==> n <= filled
    {
      ghost var t := tree;
      ghost var r := RangeResult(t, start, count, clearAvail);
      FirstTaken(t, start, count, clearAvail, Total(r.tree, r.taken));
      hide Take;
      hide TakeAll;
      hide FreeSize;
      err, filled, got := TakeRange(roots, start, count, keep);
      if tree == t { ListsUnique(freeList, old(freeList), maxOrder, t); }
    }

    // ---------- Searching a range ----------

    /** One round of the loop of `__alloc_range_bias`. */
    method VisitBias(dfs: seq<Path>, w: Wish, fallback: bool, ghost r: Picked)
      returns (rest: seq<Path>, found: bool, p: Path)
      requires Consistent() && Worklist(tree, dfs) && dfs != [] && r == PickAll(w, fallback, tree, dfs)
      modifies this`tree, this`freeList
      ensures Consistent() && SameRoots(old(tree), tree) && SameChunks(old(tree), tree) && Worklist(tree, rest)
      ensures if found then r == Picked(true, tree, p)
              else r == PickAll(w, fallback, tree, rest) && Effort(tree, rest) < Effort(old(tree), dfs)
    {
      hide Pick;
      hide PickAll;
      hide Effort;
      hide RoundDown;
      hide RoundUp;
      hide SameRoots;
      hide Lists;
      p := dfs[0];
      rest, found := dfs[1..], false;
      var b, from := At(tree, p), Off(tree, p);
      var to, req := from + Pow2(b.order), Pow2(w.order);
      SameRootsSelf(tree);
      WorklistRest(tree, dfs, b);
      PutPut(tree, p, b, b);
      if b.order < w.order || !Overlaps(w.start, w.end, from, to) || b.Allocated? {
        BiasSkips(w, fallback, tree, dfs);
      } else if (from < w.start || to > w.end) &&
                RoundDown(if to < w.end then to else w.end, req) <=
                RoundUp(if from > w.start then from else w.start, req) {
        BiasSkips(w, fallback, tree, dfs);
      } else if !fallback && w.clear != b.clear {
        BiasSkips(w, fallback, tree, dfs);
      } else if Contains(w.start, w.end, from, to) && w.order == b.order {
        if b.Free? {
          BiasFinds(w, fallback, tree, dfs);
          found := true;
        } else {
          BiasSkips(w, fallback, tree, dfs);
        }
      } else {
        rest := OpenBias(dfs, w, fallback, r);
      }
    }

    /**
      The last branch of the loop of `__alloc_range_bias`: go on with the halves, after splitting the node if need be.
     */
    method OpenBias(dfs: seq<Path>, w: Wish, fallback: bool, ghost r: Picked) returns (rest: seq<Path>)
      requires Consistent() && Worklist(tree, dfs) && dfs != [] && r == PickAll(w, fallback, tree, dfs)
      requires var b, from := At(tree, dfs[0]), Off(tree, dfs[0]);
               !Skipped(w, fallback, b, from) && !(b.order == w.order && Inside(w, from, b.order))
      modifies this`tree, this`freeList
      ensures Consistent() && SameRoots(old(tree), tree) && SameChunks(old(tree), tree) && Worklist(tree, rest)
      ensures r == PickAll(w, fallback, tree, rest) && Effort(tree, rest) < Effort(old(tree), dfs)
    {
      hide Pick;
      hide PickAll;
      hide Effort;
      hide Lists;
      hide SameRoots;
      var p := dfs[0];
      var b := At(tree, p);
      SameRootsSelf(tree);
      BiasOpens(w, fallback, tree, dfs);
      if b.Split? {
        PutPut(tree, p, b, b);
      } else {
        SplitKeepsChunks(tree, p, Halved(b.order, b.clear));
        SplitBlock(p);
      }
      rest := [p + [false], p + [true]] + dfs[1..];
    }

    /** `__alloc_range_bias` */
    method SearchOnce(w: Wish, fallback: bool) returns (found: bool, p: Path)
      requires Consistent()
      modifies this`tree, this`freeList
      ensures Consistent() && SameRoots(old(tree), tree) && SameChunks(old(tree), tree)
      ensures var r := Pick(w, fallback, old(tree), 0);
              found == r.found && tree == r.tree && (found ==> p == r.path)
    {
      ghost var t := tree;
      assert At(t, []) == t && Off(t, []) == 0;
      UnderUnder([], [], RootPaths(t));
      PickAllRoots(w, fallback, t, []);
      ghost var r := PickAll(w, fallback, t, roots);
      assert [] + Pick(w, fallback, t, 0).path == Pick(w, fallback, t, 0).path;
      SameRootsSelf(t);
      var dfs := roots;
      found, p := false, [];
      while dfs != [] && !found
        invariant Consistent() && SameRoots(t, tree) && SameChunks(t, tree) && Worklist(tree, dfs)
        invariant if found then r == Picked(true, tree, p) else r == PickAll(w, fallback, tree, dfs)
        decreases !found, if found then 0 else Effort(tree, dfs)
      {
        ghost var u := tree;
        dfs, found, p := VisitBias(dfs, w, fallback, r);
        SameRootsTrans(t, u, tree);
        SameChunksTrans(t, u, tree);
      }
    }

    /**
      `__drm_buddy_alloc_range_bias`: finds a free block of the wanted order inside the range exactly
      when some free block has room for one, and leaves no split behind when it finds none.
     */
    method SearchRange(w: Wish) returns (found: bool, p: Path)
      requires Valid()
      modifies this`tree, this`freeList
      ensures Consistent() && SameRoots(old(tree), tree) && SameChunks(old(tree), tree)
      ensures found <==> exists q :: OfferedBy(w, old(tree), 0, q)
      ensures found ==> Good(w, Picked(true, tree, p), 0)
      ensures !found ==> tree == old(tree) && freeList == old(freeList)
      ensures SameRoom(old(tree), tree, w.order)
      ensures found ==> Ranged(w, old(tree), Off(tree, p), At(tree, p).clear)
    {
      hide Ranged;
      hide SlotIn;
      ghost var t := tree;
      PickLaw(w, false, t, 0);
      PickLaw(w, true, t, 0);
      OfferedIff(w, t);
      if Pick(w, false, t, 0).found { FoundIsOffered(w, false, t, 0); }
      PickSameRoom(w, false, t);
      PickSameRoom(w, true, t);
      SearchRanged(w, t);
      found, p := SearchOnce(w, false);
      if !found { found, p := SearchOnce(w, true); }
      if tree == t { ListsUnique(freeList, old(freeList), maxOrder, t); }
    }

    // ---------- The free lists ----------

    /** The last entry of the list with the given mark, or with any mark. */
    method LastOf(k: nat, clear: bool, any: bool) returns (found: bool, b: Path)
      requires Consistent() && k <= maxOrder
      ensures found ==> FreeBlockAt(tree, b) && At(tree, b).order == k && (any || At(tree, b).clear == clear)
      ensures found ==>
                forall q | FreeBlockAt(tree, q) && At(tree, q).order == k && (any || At(tree, q).clear == clear) ::
                Off(tree, q) <= Off(tree, b)
      ensures !found ==> forall q | FreeBlockAt(tree, q) && At(tree, q).order == k :: !any && At(tree, q).clear != clear
    {
      var list := freeList[k];
      forall q ensures q in list <==> FreeBlockAt(tree, q) && At(tree, q).order == k { InFrees(tree, k, q); }
      assert forall j | 0 <= j < |list| :: list[j] in list && FreeBlockAt(tree, list[j]);
      var i := |list|;
      while i > 0
        invariant 0 <= i <= |list|
        invariant forall j | i <= j < |list| :: !any && At(tree, list[j]).clear != clear
      {
        i := i - 1;
        if any || At(tree, list[i]).clear == clear {
          forall j | 0 <= j < i ensures Off(tree, list[j]) <= Off(tree, list[i]) { FreesAscend(tree, k, j, i); }
          return true, list[i];
        }
      }
      return false, [];
    }

    /** `get_maxblock` */
    method MaxBlock(order: nat, clear: bool) returns (found: bool, b: Path)
      requires Consistent()
      ensures found ==> Eligible(tree, b, order, clear)
      ensures found ==> forall q | Eligible(tree, q, order, clear) :: Off(tree, q) <= Off(tree, b)
      ensures !found ==> forall q :: !Eligible(tree, q, order, clear)
    {
      found, b := false, [];
      var block: Path := [];
      var i := order;
      while i <= maxOrder
        invariant found ==> Eligible(tree, b, order, clear) && Eligible(tree, block, order, clear)
        invariant found ==> Off(tree, block) <= Off(tree, b)
        invariant forall q | Eligible(tree, q, order, clear) && At(tree, q).order < i ::
                    found && Off(tree, q) <= Off(tree, b)
      {
        var here, last := LastOf(i, clear, false);
        if here { block := last; }
        if here || found {
          if !found || Off(tree, block) > Off(tree, b) { found, b := true, block; }
        }
        i := i + 1;
      }
      forall q | Eligible(tree, q, order, clear) ensures At(tree, q).order < i { BoundedAt(tree, q, maxOrder); }
    }

    /** The smallest block that is large enough, the one at the highest offset among equals. */
    method BestFit(order: nat, clear: bool, any: bool) returns (found: bool, b: Path)
      requires Consistent()
      ensures found ==> FreeBlockAt(tree, b) && At(tree, b).order >= order && (any || At(tree, b).clear == clear)
      ensures found ==>
                forall q | FreeBlockAt(tree, q) && At(tree, q).order >= order && (any || At(tree, q).clear == clear) ::
                Prefers(tree, b, q)
      ensures !found ==>
                forall q | FreeBlockAt(tree, q) && At(tree, q).order >= order :: !any && At(tree, q).clear != clear
    {
      found, b := false, [];
      var i := order;
      while i <= maxOrder && !found
        invariant found ==> i > order && FreeBlockAt(tree, b) && At(tree, b).order == i - 1
        invariant found ==> any || At(tree, b).clear == clear
        invariant found ==>
                    forall q | FreeBlockAt(tree, q) && At(tree, q).order == i - 1 &&
                    (any || At(tree, q).clear == clear) ::
                    Off(tree, q) <= Off(tree, b)
        invariant forall q | FreeBlockAt(tree, q) && order <= At(tree, q).order < (if found then i - 1 else i) ::
                    !any && At(tree, q).clear != clear
      {
        found, b := LastOf(i, clear, any);
        i := i + 1;
      }
      if !found {
        forall q | FreeBlockAt(tree, q) && At(tree, q).order >= order ensures At(tree, q).order < i {
          BoundedAt(tree, q, maxOrder);
        }
      }
    }

    /** The choice made at the start of `alloc_from_freelist`. */
    method ChooseFree(order: nat, clear: bool, topDown: bool) returns (found: bool, b: Path)
      requires Consistent()
      ensures found ==> Chosen(tree, b, order, clear, topDown)
      ensures !found ==> forall q | FreeBlockAt(tree, q) :: At(tree, q).order < order
    {
      if topDown {
        found, b := MaxBlock(order, clear);
      } else {
        found, b := BestFit(order, clear, false);
      }
      if !found {
        found, b := BestFit(order, clear, true);
        assert found ==> forall q :: !Eligible(tree, q, order, clear);
      }
    }

    /**
      `alloc_from_freelist`: fails only if no free block is large enough; else the block found is the
      upper end of the chosen one.
     */
    method PickFromLists(order: nat, clear: bool, topDown: bool) returns (found: bool, p: Path, ghost b: Path)
      requires Valid()
      modifies this`tree, this`freeList
      ensures Consistent() && SameRoots(old(tree), tree) && SameChunks(old(tree), tree)
      ensures !found ==> tree == old(tree) && freeList == old(freeList)
      ensures !found ==> forall q | FreeBlockAt(tree, q) :: At(tree, q).order < order
      ensures found ==> ReadyToUse(tree, p) && At(tree, p).order == order
      ensures found ==> Chosen(old(tree), b, order, clear, topDown)
      ensures found ==> At(tree, p).clear == At(old(tree), b).clear
      ensures found ==> Off(tree, p) + Pow2(order) == Off(old(tree), b) + Pow2(At(old(tree), b).order)
      ensures SameRoom(old(tree), tree, order)
    {
      found, p := ChooseFree(order, clear, topDown);
      b := p;
      SameRootsSelf(tree);
      if found {
        var tmp := At(tree, p).order;
        ReadyInCanonical(tree, p);
        while tmp != order
          invariant order <= tmp && Consistent() && SameRoots(old(tree), tree) && SameChunks(old(tree), tree)
          invariant ReadyToUse(tree, p) && At(tree, p) == Free(tmp, old(At(tree, b).clear))
          invariant Off(tree, p) + Pow2(tmp) == old(Off(tree, b) + Pow2(At(tree, b).order))
          invariant SameRoom(old(tree), tree, order)
        {
          ghost var t := tree;
          RoomSplit(t, p, order);
          SplitDown(t, p);
          SplitBlock(p);
          SameRootsTrans(old(tree), t, tree);
          SameChunksTrans(old(tree), t, tree);
          p := p + [true];
          tmp := tmp - 1;
        }
      }
    }

    // ---------- Merging by force ----------

    /** `list_del` of a free block that is to be merged, with the clear counter. */
    method Unlink(p: Path)
      requires Consistent() && FreeBlockAt(tree, p)
      modifies this`tree, this`freeList, this`clearAvail
      ensures Pending(p, true) && SameRoots(old(tree), tree)
      ensures tree == Put(old(tree), p, Allocated(old(At(tree, p).order), old(At(tree, p).clear)))
    {
      var b := At(tree, p);
      ghost var t := tree;
      ghost var x := Allocated(b.order, b.clear);
      ShapedPut(t, p, x, size, maxOrder);
      SizesPut(t, p, x);
      Unlinked(freeList, maxOrder, t, p, b.clear);
      PutAt(t, p, x);
      tree := Put(tree, p, Allocated(b.order, b.clear));
      ListDel(p, b.order, Before(t, p, b.order), Behind(t, p, b.order));
      if b.clear { clearAvail := clearAvail - Pow2(b.order); }
    }

    /** Merge a free block with its free buddy, whatever their marks, and on upwards. */
    method MergeBlock(p: Path) returns (order: nat, ghost at: Path)
      requires Valid() && FreeBlockAt(tree, p) && HasParent(tree, p) && Has(tree, Sibling(p)) &&
               At(tree, Sibling(p)).Free?
      modifies this`tree, this`freeList, this`clearAvail
      ensures Valid() && SameRoots(old(tree), tree) && SameUse(old(tree), tree)
      ensures tree == FreeAt(true, old(tree), p, old(At(tree, p).clear))
      ensures Prefix(at, p) && at != p && FreeBlockAt(tree, at) && At(tree, at).order == order
      ensures BlockAt(old(tree), at) && tree == Put(old(tree), at, At(tree, at))
      ensures HasParent(tree, at) ==> Has(tree, Sibling(at)) && !At(tree, Sibling(at)).Free?
    {
      ghost var t, c := tree, At(tree, p).clear;
      ghost var x := Allocated(At(t, p).order, c);
      BuddyStays(t, p, x);
      FreeOverwritten(true, t, p, x, c);
      ForceSameUse(t, p, c);
      FreeAtMaximal(true, t, p, c);
      PutAt(t, p, x);
      Unlink(p);
      ghost var t' := tree;
      order, at := MergeAndFree(p, true);
      SameRootsTrans(t, t', tree);
      FreeAtIsPut(true, t, p, c, at);
      OffStable(t, tree, at);
    }

    /** The entry before `b` in its free list. */
    method PrevInList(b: Path) returns (found: bool, q: Path)
      requires Consistent() && FreeBlockAt(tree, b)
      ensures found ==> FreeBlockAt(tree, q) && At(tree, q).order == At(tree, b).order && Off(tree, q) < Off(tree, b)
      ensures forall z | FreeBlockAt(tree, z) && At(tree, z).order == At(tree, b).order &&
              Off(tree, z) < Off(tree, b) ::
                found && Off(tree, z) <= Off(tree, q)
    {
      hide Frees;
      hide Off;
      hide At;
      var k := At(tree, b).order;
      BoundedAt(tree, b, maxOrder);
      var list := freeList[k];
      forall z ensures z in list <==> FreeBlockAt(tree, z) && At(tree, z).order == k { InFrees(tree, k, z); }
      var i := 0;
      while i < |list| && list[i] != b
        invariant 0 <= i <= |list| && b !in list[..i]
      {
        i := i + 1;
      }
      assert i < |list|;
      forall j, l | 0 <= j < l < |list|
        ensures Has(tree, list[j]) && Has(tree, list[l]) && Off(tree, list[j]) < Off(tree, list[l])
      {
        FreesAscend(tree, k, j, l);
      }
      found, q := i > 0, if i > 0 then list[i - 1] else [];
      forall z | FreeBlockAt(tree, z) && At(tree, z).order == k && Off(tree, z) < Off(tree, b)
        ensures found && Off(tree, z) <= Off(tree, q)
      {
        var j :| 0 <= j < |list| && list[j] == z;
        assert j < i;
      }
    }

    /** Everything `__force_merge` keeps: validity, the use of every chunk, the lists above `bound`. */
    twostate predicate MergeKeeps(s: int, e: int, bound: nat)
      reads this
    {
      Valid() && maxOrder == old(maxOrder) && roots == old(roots) && avail == old(avail) &&
      SameRoots(old(tree), tree) && SameUse(old(tree), tree) && Capped(tree, 0, s, e, bound) &&
      |freeList| == |old(freeList)| && forall k | bound < k < |freeList| :: freeList[k] == old(freeList[k])
    }

    /** The only change to `t` was to merge the first pair that can be made a block of order `k`. */
    ghost predicate MergedAt(t: Tree, q: Path, k: nat, s: int, e: int)
      reads this
    {
      TopPair(t, q, k, s, e) && tree == FreeAt(true, t, q, At(t, q).clear)
    }

    /** The free blocks of order `k` and above are as before. */
    twostate predicate SameFrom(k: nat)
      reads this
    {
      |freeList| == |old(freeList)| && forall j | k <= j < |freeList| :: freeList[j] == old(freeList[j])
    }

    /** The entry before `b` in its free list that is not its buddy. */
    method PrevButBuddy(b: Path) returns (found: bool, q: Path)
      requires Consistent() && FreeBlockAt(tree, b) && b != []
      ensures found ==> FreeBlockAt(tree, q) && At(tree, q).order == At(tree, b).order && Off(tree, q) < Off(tree, b)
      ensures found ==> q != Sibling(b)
      ensures forall z | FreeBlockAt(tree, z) && At(tree, z).order == At(tree, b).order && z != Sibling(b) &&
              Off(tree, z) < Off(tree, b) ::
                found && Off(tree, z) <= Off(tree, q)
    {
      found, q := PrevInList(b);
      if found && q == Sibling(b) {
        forall z | FreeBlockAt(tree, z) && z != q ensures Off(tree, z) != Off(tree, q) { DistinctOffsets(tree, q, z); }
        found, q := PrevInList(q);
      }
    }

    /** Merge a block that may be merged: the other blocks of its order and the lists above `bound` are left alone. */
    method MergePair(cur: Path, s: nat, e: nat, ghost lo: nat, ghost hi: nat, ghost bound: nat)
      returns (order: nat, ghost at: Path)
      requires Valid() && Pairable(tree, cur, s, e) && Capped(tree, 0, s, e, bound) && Merged(tree, s, e, lo, hi)
      modifies this`tree, this`freeList, this`clearAvail
      ensures MergeKeeps(s, e, bound) && Merged(tree, s, e, lo, hi)
      ensures order > 0 && FreeBlockAt(tree, at) && At(tree, at).order == order
      ensures Overlaps(s, e, Off(tree, at), Off(tree, at) + Pow2(order))
      ensures forall k | order < k < |freeList| :: freeList[k] == old(freeList[k])
      ensures tree == FreeAt(true, old(tree), cur, old(At(tree, cur).clear)) && order > old(At(tree, cur).order)
      ensures forall q | Pairable(tree, q, s, e) :: StillPairs(old(tree), tree, cur, q, s, e)
      ensures forall q | FreeBlockAt(old(tree), q) && old(At(tree, q).order) == old(At(tree, cur).order) && q != cur &&
              q != Sibling(cur) ::
                FreeBlockAt(tree, q) && At(tree, q) == old(At(tree, q)) && Off(tree, q) == old(Off(tree, q))
    {
      ghost var t, c := tree, At(tree, cur).clear;
      BuddiesDiffer(t, cur);
      assert c != At(tree, Sibling(cur)).clear;  // so the warning about equal marks stays silent
      order, at := MergeBlock(cur);
      MergeProgress(t, tree, cur, at, s, e, lo, hi);
      CappedStable(t, tree, 0, s, e, bound);
      MergedOverlaps(t, tree, cur, at, s, e);
      CappedAt(tree, 0, at, s, e, bound);
      forall j | order < j < |freeList| ensures freeList[j] == old(freeList[j]) {
        HighListsStay(t, at, At(tree, at), j);
      }
      forall q | FreeBlockAt(t, q) && At(t, q).order == At(t, cur).order && q != cur && q != Sibling(cur)
        ensures FreeBlockAt(tree, q) && At(tree, q) == At(t, q) && Off(tree, q) == Off(t, q)
      {
        ForceOthers(t, cur, c, q);
        OffStable(t, tree, q);
      }
    }

    /** One block of the walk down a free list: merge it with its buddy if it may be merged. */
    method MergeVisit(cur: Path, s: nat, e: nat, ghost lo: nat, ghost hi: nat, ghost bound: nat)
      returns (more: bool, prev: Path, order: nat, ghost at: Path)
      requires Valid() && FreeBlockAt(tree, cur) && Capped(tree, 0, s, e, bound) && Merged(tree, s, e, lo, hi)
      requires PairsUpTo(tree, At(tree, cur).order, s, e, true, Off(tree, cur))
      modifies this`tree, this`freeList, this`clearAvail
      ensures MergeKeeps(s, e, bound) && Merged(tree, s, e, lo, hi)
      ensures more ==> FreeBlockAt(tree, prev) && At(tree, prev).order == old(At(tree, cur).order) &&
                       Off(tree, prev) < old(Off(tree, cur))
      ensures PairsUpTo(tree, old(At(tree, cur).order), s, e, more, if more then Off(tree, prev) else 0)
      ensures order > 0 ==> FreeBlockAt(tree, at) && At(tree, at).order == order &&
                            Overlaps(s, e, Off(tree, at), Off(tree, at) + Pow2(order))
      ensures forall k | order < k < |freeList| :: freeList[k] == old(freeList[k])
      ensures if order == 0 then tree == old(tree)
              else order > old(At(tree, cur).order) && MergedAt(old(tree), cur, old(At(tree, cur).order) + 1, s, e)
    {
      ghost var t := tree;
      forall q | FreeBlockAt(t, q) && q != cur ensures Off(t, q) != Off(t, cur) { DistinctOffsets(t, cur, q); }
      order, at := 0, cur;
      if Pairable(tree, cur, s, e) {
        more, prev := PrevButBuddy(cur);
        order, at := MergePair(cur, s, e, lo, hi, bound);
      } else {
        SameRootsSelf(t);
        more, prev := PrevInList(cur);
      }
    }

    /** The walk down one free list; it ends early once a block of order `minOrder` is there. */
    method MergeLevel(i: nat, s: nat, e: nat, minOrder: nat, ghost bound: nat)
      returns (done: bool, ghost at: Path, ghost top: Path)
      requires Valid() && i < minOrder <= maxOrder && Capped(tree, 0, s, e, bound) &&
               Merged(tree, s, e, i + 1, minOrder)
      modifies this`tree, this`freeList, this`clearAvail
      ensures MergeKeeps(s, e, bound)
      ensures done ==> FreeBlockAt(tree, at) && At(tree, at).order >= minOrder &&
                       Overlaps(s, e, Off(tree, at), Off(tree, at) + Pow2(At(tree, at).order))
      ensures !done ==> Merged(tree, s, e, i, minOrder) && SameFrom(minOrder)
      ensures i + 1 == minOrder ==> if done then MergedAt(old(tree), top, minOrder, s, e) else tree == old(tree)
    {
      var more, cur := LastOf(i, false, true);
      var order := 0;
      at, top := cur, cur;
      SameRootsSelf(tree);
      while more && order < minOrder
        invariant MergeKeeps(s, e, bound) && Merged(tree, s, e, i + 1, minOrder)
        invariant more ==> FreeBlockAt(tree, cur) && At(tree, cur).order == i
        invariant PairsUpTo(tree, i, s, e, more, if more then Off(tree, cur) else 0)
        invariant order > 0 ==> FreeBlockAt(tree, at) && At(tree, at).order == order &&
                                Overlaps(s, e, Off(tree, at), Off(tree, at) + Pow2(order))
        invariant order < minOrder ==> SameFrom(minOrder)
        invariant i + 1 == minOrder ==> order != 0 ==> order >= minOrder && MergedAt(old(tree), top, minOrder, s, e)
        invariant i + 1 == minOrder && order == 0 ==> tree == old(tree)
        decreases more, if more then Off(tree, cur) else 0
      {
        ghost var t := tree;
        top := cur;
        more, cur, order, at := MergeVisit(cur, s, e, i + 1, minOrder, bound);
        SameRootsTrans(old(tree), t, tree);
        SameUseTrans(old(tree), t, tree);
      }
      done := order >= minOrder;
    }

    /**
      `__force_merge`: joins free buddies inside `[s, e)` although their marks differ, until a block of
      order `minOrder` comes out of it. On failure no pair below that order is left in the range.
     */
    method ForceMerge(s: nat, e: nat, minOrder: nat, ghost bound: nat) returns (err: Errno, ghost at: Path)
      requires Valid() && Capped(tree, 0, s, e, bound)
      modifies this`tree, this`freeList, this`clearAvail
      ensures MergeKeeps(s, e, bound)
      ensures minOrder == 0 ==> err == ENOMEM
      ensures minOrder > 0 ==> (err == EINVAL <==> minOrder > maxOrder)
      ensures err == Ok ==> FreeBlockAt(tree, at) && At(tree, at).order >= minOrder > 0 &&
                            Overlaps(s, e, Off(tree, at), Off(tree, at) + Pow2(At(tree, at).order))
      ensures err == ENOMEM ==> Merged(tree, s, e, 0, minOrder) && SameFrom(minOrder)
      ensures forall q | TopPair(old(tree), q, minOrder, s, e) && minOrder <= maxOrder ::
                err == Ok && tree == FreeAt(true, old(tree), q, old(At(tree, q).clear))
      ensures err in {Ok, EINVAL, ENOMEM}
    {
      at := [];
      SameRootsSelf(tree);
      if minOrder == 0 { return ENOMEM, at; }
      if minOrder > maxOrder { return EINVAL, at; }
      var i := minOrder;
      while i > 0
        invariant 0 <= i <= minOrder && MergeKeeps(s, e, bound) && Merged(tree, s, e, i, minOrder) && SameFrom(minOrder)
        invariant i == minOrder ==> tree == old(tree)
        invariant i < minOrder ==> forall q :: !TopPair(old(tree), q, minOrder, s, e)
      {
        i := i - 1;
        ghost var t := tree;
        var done;
        ghost var top;
        done, at, top := MergeLevel(i, s, e, minOrder, bound);
        SameRootsTrans(old(tree), t, tree);
        SameUseTrans(old(tree), t, tree);
        if done {
          forall q | TopPair(old(tree), q, minOrder, s, e) ensures q == top {
            TopUnique(old(tree), q, top, minOrder, s, e);
          }
          return Ok, at;
        }
      }
      return ENOMEM, at;
    }

    // ---------- Setting up and tearing down ----------

    /** One round of the loop that creates the roots. */
    method AddRoot(order: nat, ghost rem: nat)
      requires Spine(tree) && roots == RootPaths(tree) && Lists(freeList, maxOrder, tree) && order <= maxOrder
      requires rem > 0 && order == Log2(rem) && Extend(tree, Fresh(rem)) == Fresh(size)
      modifies this`tree, this`roots, this`freeList
      ensures Spine(tree) && roots == RootPaths(tree) && Lists(freeList, maxOrder, tree)
      ensures Extend(tree, Fresh(rem - Pow2(order))) == Fresh(size) && |roots| == |old(roots)| + 1
    {
      var root := EndPath(tree) + [false];
      RootAdded(freeList, maxOrder, tree, rem, size);
      tree := Extend(tree, Roots(Free(order, false), End));
      ListInsertSorted(root, order, freeList[order], []);
      assert freeList[order] == old(freeList)[order] + [root];
      roots := roots + [root];
    }

    /** The loop that creates the roots, the largest first. */
    method BuildRoots()
      requires PowerOfTwo(chunkSize) && size > 0 && maxOrder == Log2(size)
      requires tree == End && roots == [] && Lists(freeList, maxOrder, End)
      modifies this`tree, this`roots, this`freeList
      ensures tree == Fresh(size) && roots == RootPaths(tree) && Lists(freeList, maxOrder, tree)
    {
      var rem := size;
      while rem > 0
        invariant 0 <= rem <= size && Spine(tree) && roots == RootPaths(tree) && Lists(freeList, maxOrder, tree)
        invariant Extend(tree, Fresh(rem)) == Fresh(size)
      {
        Log2Monotone(rem, size);
        var order := OrderOf(rem, chunkSize);
        AddRoot(order, rem);
        rem := rem - Pow2(order);
      }
      ExtendEnd(tree);
    }

    /** `drm_buddy_init` */
    method Init(bytes: nat, chunk: nat) returns (err: Errno)
      requires bytes < Pow2(64)
      modifies this
      ensures err == if bytes < chunk || chunk < MIN_CHUNK || !PowerOfTwo(chunk) then EINVAL else Ok
      ensures err != Ok ==> unchanged(this)
      ensures err == Ok ==> Valid() && chunkSize == chunk && size == bytes / chunk && tree == Fresh(size)
      ensures err == Ok ==> size > 0 && maxOrder == Log2(size) <= MAX_ORDER && |roots| == Bits(size) <= maxOrder + 1
      ensures err == Ok ==> avail == size && clearAvail == 0
    {
      hide Fresh;
      hide Bits;
      hide Log2;
      hide Pow2;
      if bytes < chunk || chunk < MIN_CHUNK || !PowerOfTwo(chunk) { return EINVAL; }
      var n := bytes / chunk;
      DeviceOrder(bytes, chunk, n);
      chunkSize, size, avail, clearAvail, maxOrder := chunk, n, n, 0, OrderOf(n, chunk);
      freeList, tree, roots := seq(maxOrder + 1, _ => []), End, [];
      BuildRoots();
      FreshDevice(n);
      return Ok;
    }

    /** The forced merge of one root: afterwards the root is free unless one of its chunks is in use. */
    method MergeRoot(i: nat, order: nat, ghost from: nat, ghost to: nat)
      requires Valid() && i < |roots| && from == size - Rest(tree, i) && to == size - Rest(tree, i + 1)
      requires Rest(tree, i) > 0 && order == Log2(Rest(tree, i))
      modifies this`tree, this`freeList, this`clearAvail
      ensures MergeKeeps(from, size, order)
      ensures BlockAt(tree, roots[i]) && (At(tree, roots[i]).Free? <==> AllFree(old(tree), 0, from, to))
    {
      ghost var t := tree;
      var root := roots[i];
      RootPlace(t, i);
      BoundedAt(t, root, maxOrder);
      CappedRest(t, 0, i, from, size, order);
      var start := Off(tree, root);
      var err, at := ForceMerge(start, size, order, order);
      RootMerged(t, tree, i, order, err == Ok, at);
    }

    /** The loop of `drm_buddy_fini`: the number of roots that cannot be made one free block. */
    method MergeRoots() returns (stuck: nat)
      requires Valid() && PowerOfTwo(chunkSize)
      modifies this`tree, this`freeList, this`clearAvail
      ensures Valid() && SameUse(old(tree), tree) && (stuck == 0 <==> AllFree(old(tree), 0, 0, size))
    {
      hide Pow2;
      hide Log2;
      hide SameUse;
      var rem: nat, i := size, 0;
      stuck := 0;
      ghost var t0 := tree;
      SameRootsSelf(t0);
      SameUseSelf(t0);
      while i < |roots|
        invariant 0 <= i <= |roots| && Valid() && SameRoots(t0, tree) && SameUse(t0, tree)
        invariant rem == Rest(t0, i) <= size && (stuck == 0 <==> AllFree(t0, 0, 0, size - rem))
      {
        RootPlace(t0, i);
        var order := OrderOf(rem, chunkSize);
        var whole := MergeNext(t0, i, order);
        if !whole { stuck := stuck + 1; }
        rem := rem - Pow2(order);
        i := i + 1;
      }
      RestOfAll(t0);
    }

    /**
      One round of that loop, with `t0` the tree before the first one. The roots released so far are larger:
      their lists, which still name them, are not touched.
     */
    method MergeNext(ghost t0: Tree, i: nat, order: nat) returns (whole: bool)
      requires Valid() && i < |roots| && WF(t0) && SameRoots(t0, tree) && SameUse(t0, tree)
      requires 0 < Rest(t0, i) <= size == Size(t0) && order == Log2(Rest(t0, i)) &&
               Rest(t0, i + 1) == Rest(t0, i) - Pow2(order)
      modifies this`tree, this`freeList, this`clearAvail
      ensures Valid() && SameRoots(t0, tree) && SameUse(t0, tree)
      ensures AllFree(t0, 0, 0, size - Rest(t0, i + 1)) <==> AllFree(t0, 0, 0, size - Rest(t0, i)) && whole
    {
      ghost var t := tree;
      RestStable(t0, t, i);
      RestStable(t0, t, i + 1);
      MergeRoot(i, order, size - Rest(t, i), size - Rest(t, i + 1));
      whole := At(tree, roots[i]).Free?;
      SameRootsTrans(t0, t, tree);
      SameUseTrans(t0, t, tree);
      AllFreeStep(t0, t, size - Rest(t, i), size - Rest(t, i + 1));
    }

    /**
      `drm_buddy_fini`: counts the roots it finds not free, and whether memory is missing at the end.
      Neither happens if everything was given back, and both happen if not.
     */
    method Fini() returns (stuck: nat, missing: bool)
      requires Valid() && PowerOfTwo(chunkSize)
      modifies this`tree, this`freeList, this`clearAvail
      ensures Valid() && SameUse(old(tree), tree) && avail == old(avail)
      ensures stuck == 0 <==> old(avail) == size
      ensures missing <==> old(avail) != size
    {
      FreeSizeFull(tree);
      stuck := MergeRoots();
      missing := avail != size;
    }

    // ---------- Contiguous memory from several blocks ----------

    /** The blocks `got` were taken for good: they are all that distinguishes the new state from the old one. */
    twostate predicate Took(exact: bool, got: seq<Path>)
      reads this
    {
      Valid() && SameRoots(old(tree), tree) && Taken(exact, old(tree), tree, got) &&
      old(avail) - avail == Total(tree, got) &&
      (exact && got == [] ==> tree == old(tree) && freeList == old(freeList) && clearAvail == old(clearAvail))
    }

    /** How much to ask for on the left of a run that fell short by `rest`. */
    method LeftSize(rest: nat, minBlock: nat) returns (lhs: nat)
      requires rest > 0 && minBlock > 0
      ensures rest <= lhs < rest + minBlock && Multiple(lhs, minBlock) && lhs == RoundUp(rest, minBlock)
    {
      hide RoundUp;
      lhs := if rest > minBlock then rest else minBlock;
      MultipleIs(1, minBlock);
      if !Multiple(lhs, minBlock) { lhs := RoundUp(lhs, minBlock); }
      var r := RoundUp(rest, minBlock);
      if lhs < r { MultiplesApart(lhs, r, minBlock); }
      if r < lhs { MultiplesApart(r, lhs, minBlock); }
    }

    /** The second half of an attempt: `right` was found from `rhs` on, and the rest has to come from the left of it. */
    method TryLeft(ghost t0: Tree, ghost fl0: seq<seq<Path>>, right: seq<Path>, rhs: nat, filled: nat, want: nat,
                   min: nat,
                   ghost k: nat)
      returns (err: Errno, got: seq<Path>, ghost from: nat)
      requires Valid() && WF(t0) && Maximal(t0) && SameRoots(t0, tree) && Taken(true, t0, tree, right)
      requires Lists(fl0, maxOrder, t0) && Tiles(tree, right, rhs) && Total(tree, right) == filled
      requires want > 0 && Pow2(Log2(want)) <= filled < want && k <= min && Multiple(rhs, Pow2(k))
      modifies this`tree, this`freeList, this`avail, this`clearAvail
      ensures Valid() && SameRoots(t0, tree) && Taken(true, t0, tree, got)
      ensures avail + Total(tree, got) == old(avail) + filled
      ensures err in {Ok, ENOSPC} && (err != Ok ==> got == [] && tree == t0 && freeList == fl0)
      ensures err == Ok ==>
                Tiles(tree, got, from) && want <= Total(tree, got) < want + Pow2(min) && Multiple(from, Pow2(k))
      ensures err != Ok ==> LeftFails(t0, rhs, want, min, filled)
      ensures err == Ok ==> LeftHelps(t0, rhs, want, min, filled, from, Total(tree, got))
    {
      hide Taken;
      hide Multiple;
      hide Frees;
      hide AllFree;
      hide Log2;
      hide Maximal;
      hide RoundUp;
      hide Tiles;
      hide Total;
      hide Consistent;
      hide WF;
      hide SameRoots;
      hide Lists;
      hide Released;
      ghost var t1 := tree;
      Canon();
      Shape();
      RunWasFree(t0, t1, right, rhs);
      err, got, from := ENOSPC, [], rhs;
      var lhs := LeftSize(want - filled, Pow2(min));
      var left: seq<Path> := [];
      if lhs <= rhs {
        LeftUntouched(t0, t1, right, rhs, rhs - lhs);
        var n;
        err, n, left := AllocRange(rhs - lhs, lhs, false);
      }  // else the offset wraps around 2^64 and the range lies behind the device
      if err == Ok {
        Canon();
        ReleasedTaken(t1, tree, left);
        SameRootsTrans(t0, t1, tree);
        from := rhs - lhs;
        MultipleOfSmaller(lhs, k, min);
        MultipleSum(rhs, lhs, Pow2(k));
        RunsMeet(t0, t1, right, tree, left, from, rhs);
        got := left + right;
      } else {
        GiveBack(t0, fl0, right, true);
        NoTotal(tree);
      }
    }

    /** One candidate: a run of `want` chunks from block `b` upwards, completed to the left of `b`. */
    method TryBlock(b: Path, want: nat, min: nat, ghost k: nat) returns (err: Errno, got: seq<Path>, ghost from: nat)
      requires Valid() && FreeBlockAt(tree, b) && want > 0 && k <= min && k <= At(tree, b).order == Log2(want)
      modifies this`tree, this`freeList, this`avail, this`clearAvail
      ensures Took(true, got) && err in {Ok, ENOSPC} && (err != Ok ==> got == [])
      ensures err == Ok ==>
                Tiles(tree, got, from) && want <= Total(tree, got) < want + Pow2(min) && Multiple(from, Pow2(k))
      ensures err != Ok ==> NoRunAround(tree, Off(tree, b), want, min)
      ensures err == Ok ==> RunAround(old(tree), old(Off(tree, b)), want, min, from, Total(tree, got))
    {
      hide LeftHelps;
      hide Taken;
      hide Released;
      hide Multiple;
      hide Frees;
      hide AllFree;
      hide LeftFails;
      ghost var t0 := tree;
      WFAt(t0, b);
      NaturalAlignment(t0, 0, b);
      MultipleOfSmaller(Off(t0, b), k, At(t0, b).order);
      var rhs := Off(tree, b);
      from := rhs;
      var filled;
      err, filled, got := AllocRange(rhs, want, true);
      ReleasedTaken(t0, tree, got);
      if err == Ok { return; }
      RunWasFree(t0, tree, got, rhs);
      err, got, from := TryLeft(t0, old(freeList), got, rhs, filled, want, min, k);
    }

    /** `__alloc_contig_try_harder` */
    method TryHarder(want: nat, min: nat) returns (err: Errno, got: seq<Path>, ghost from: nat)
      requires Valid() && 0 < want && Log2(want) <= maxOrder
      modifies this`tree, this`freeList, this`avail, this`clearAvail
      ensures Took(true, got) && err in {Ok, ENOSPC} && (err != Ok ==> got == [])
      ensures err == Ok ==> Tiles(tree, got, from) && want <= Total(tree, got) < want + Pow2(min)
      ensures err == Ok ==> Multiple(from, Pow2(Lesser(min, Log2(want))))
      ensures err != Ok && want > 1 ==> NoRunFrom(tree, want, min)
      ensures err == Ok ==> exists b :: Topmost(old(tree), b, want, min, from, Total(tree, got))
    {
      hide Topmost;
      hide Taken;
      hide Maximal;
      hide NoRunAround;
      hide RunAround;
      var order := Log2(want);
      err, got, from := ENOSPC, [], 0;
      NothingTaken(true, tree, tree);
      SameRootsSelf(tree);
      if order == 0 { return; }
      var list := freeList[order];
      var i := |list|;
      while i > 0
        invariant 0 <= i <= |list| && err == ENOSPC && got == [] && Valid()
        invariant tree == old(tree) && freeList == old(freeList) && avail == old(avail) && clearAvail == old(clearAvail)
        invariant forall j | i <= j < |list| :: Has(tree, list[j]) && NoRunAround(tree, Off(tree, list[j]), want, min)
      {
        i := i - 1;
        InFrees(tree, order, list[i]);
        ghost var t := tree;
        err, got, from := TryBlock(list[i], want, min, Lesser(min, order));
        if err == Ok {
          TopmostIs(t, list, i, want, min, from, Total(tree, got));
          return;
        }
      }
      forall q | FreeBlockAt(tree, q) && At(tree, q).order == order
        ensures NoRunAround(tree, Off(tree, q), want, min)
      {
        InFrees(tree, order, q);
      }
    }

    // ---------- Trimming ----------

    /** `mark_free` of an allocated block, with the counters. */
    method Reopen(p: Path)
      requires Consistent() && UsedBlockAt(tree, p)
      modifies this`tree, this`freeList, this`avail, this`clearAvail
      ensures Consistent() && SameRoots(old(tree), tree)
      ensures tree == Put(old(tree), p, Free(old(At(tree, p).order), old(At(tree, p).clear)))
    {
      var b := At(tree, p);
      ghost var x := Free(b.order, b.clear);
      ShapedPut(tree, p, x, size, maxOrder);
      SizesPut(tree, p, x);
      MarkFree(p, b.clear);
      avail := avail + Pow2(b.order);
      if b.clear { clearAvail := clearAvail + Pow2(b.order); }
    }

    /** The part of `drm_buddy_block_trim` behind the checks: keep `[s, s + n)` of the allocated block `p`. */
    method CutBlock(p: Path, s: nat, n: nat) returns (got: seq<Path>)
      requires Valid() && UsedBlockAt(tree, p) && n > 0
      requires Off(tree, p) <= s && s + n <= Off(tree, p) + Pow2(At(tree, p).order)
      modifies this`tree, this`freeList, this`avail, this`clearAvail
      ensures Valid() && SameRoots(old(tree), tree) && Trimmed(old(tree), p, s, s + n, tree, got)
      ensures avail == old(avail) + Pow2(old(At(tree, p).order)) - n
    {
      hide TakeAll;
      hide Carve;
      hide Tiles;
      hide Total;
      ghost var t := tree;
      CutWhole(t, p, s, s + n);
      Reopen(p);
      ghost var t1 := tree;
      CarvedOut(t1, p, s, s + n, clearAvail);
      ghost var r := TakeAll(t1, [p], s, s + n, clearAvail);
      assert r.ok && Total(r.tree, r.taken) == n;
      var err, filled;
      assert [p][0] == p;
      err, filled, got := TakeRange([p], s, n, false);
      assert err == Ok;  // so the path that marks the block allocated again is never taken
      SameRootsTrans(t, t1, tree);
    }

    /** The checks of `drm_buddy_block_trim`, and the range to keep in chunks. */
    method CheckTrim(blocks: seq<Path>, start: Option<nat>, newSize: nat)
      returns (err: Errno, whole: bool, s: nat, n: nat)
      requires chunkSize > 0 && forall i | 0 <= i < |blocks| :: BlockAt(tree, blocks[i])
      ensures err == if TrimRefused(tree, blocks, start, newSize, chunkSize) then EINVAL else Ok
      ensures err == Ok ==> |blocks| == 1 && UsedBlockAt(tree, blocks[0])
      ensures err == Ok ==> whole == (newSize == Pow2(At(tree, blocks[0]).order) * chunkSize)
      ensures err == Ok && !whole ==> n == newSize / chunkSize > 0 && Off(tree, blocks[0]) <= s &&
                                      s + n <= Off(tree, blocks[0]) + Pow2(At(tree, blocks[0]).order) &&
                                      s == if start.Some? then start.value / chunkSize else Off(tree, blocks[0])
    {
      err, whole, s, n := EINVAL, false, 0, 0;
      if |blocks| != 1 { return; }
      var b := At(tree, blocks[0]);
      if !b.Allocated? { return; }
      var blockStart, blockSize := Off(tree, blocks[0]) * chunkSize, Pow2(b.order) * chunkSize;
      if newSize > blockSize || newSize == 0 || !Multiple(newSize, chunkSize) { return; }
      if newSize == blockSize { return Ok, true, s, n; }
      MultipleIs(Off(tree, blocks[0]), chunkSize);
      var newStart := blockStart;
      if start.Some? {
        newStart := start.value;
        if newStart < blockStart || !Multiple(newStart, chunkSize) { return; }
        if newStart >= blockStart + blockSize || newSize > blockStart + blockSize - newStart { return; }
      }
      InChunks(Off(tree, blocks[0]), Pow2(b.order), newStart, newSize, chunkSize);
      return Ok, false, newStart / chunkSize, newSize / chunkSize;
    }

    /** `drm_buddy_block_trim`, with sizes in bytes */
    method BlockTrim(blocks: seq<Path>, start: Option<nat>, newSize: nat) returns (err: Errno, out: seq<Path>)
      requires Valid() && chunkSize > 0 && forall i | 0 <= i < |blocks| :: BlockAt(tree, blocks[i])
      modifies this`tree, this`freeList, this`avail, this`clearAvail
      ensures Valid() && SameRoots(old(tree), tree)
      ensures err == if TrimRefused(old(tree), blocks, start, newSize, chunkSize) then EINVAL else Ok
      ensures err == EINVAL || newSize == old(Pow2(At(tree, blocks[0]).order)) * chunkSize ==>
                out == blocks && unchanged(this)
      ensures err == Ok && newSize != old(Pow2(At(tree, blocks[0]).order)) * chunkSize ==>
        var s := if start.Some? then start.value / chunkSize else old(Off(tree, blocks[0]));
        Trimmed(old(tree), blocks[0], s, s + newSize / chunkSize, tree, out) &&
        avail == old(avail) + Pow2(old(At(tree, blocks[0]).order)) - newSize / chunkSize
    {
      SameRootsSelf(tree);
      out := blocks;
      var whole, s, n;
      err, whole, s, n := CheckTrim(blocks, start, newSize);
      if err == Ok && !whole { out := CutBlock(blocks[0], s, n); }
    }

    // ---------- Allocating ----------

    /** The end of the range that the search uses: `end - 1` wraps around if `end` is zero. */
    function RangeTop(e: nat): nat
      reads this`size
    {
      if e == 0 then size else e
    }

    /** Where blocks may come from. */
    function Low(s: nat, f: Flags): nat { if f.range then s else 0 }

    function High(e: nat, f: Flags): nat
      reads this`size
    {
      if f.range then RangeTop(e) else size
    }

    /** Blocks may come from, and be merged in, the whole device. */
    predicate Everywhere(s: nat, e: nat, f: Flags)
      reads this`size
    {
      !f.range && s == 0 && e == size
    }

    /** Neither blocks nor runs of the order are left where they may come from. */
    predicate NoneLeft(s: nat, e: nat, order: nat, f: Flags, exact: bool)
      reads this
    {
      (exact ==> Room(tree, 0, order, Low(s, f), High(e, f)) == 0) && (Everywhere(s, e, f) ==> Spare(tree, order) == 0)
    }

    /** No free block can hold a block of the order where the flags want it. */
    ghost predicate NoRoom(s: nat, e: nat, order: nat, f: Flags)
      reads this
    {
      NoRoomIn(tree, s, RangeTop(e), order, f)
    }

    /** The block has the wanted order and lies in the range, if there is one. */
    predicate Suits(p: Path, s: nat, e: nat, lo: nat, hi: nat, f: Flags)
      reads this
      requires BlockAt(tree, p)
    {
      lo <= At(tree, p).order <= hi &&
      (f.range ==> s <= Off(tree, p) && Off(tree, p) + Pow2(At(tree, p).order) <= RangeTop(e))
    }

    /** `__drm_buddy_alloc_blocks` */
    method FindBlock(s: nat, e: nat, order: nat, f: Flags) returns (found: bool, p: Path)
      requires Valid()
      modifies this`tree, this`freeList
      ensures Consistent() && SameRoots(old(tree), tree) && SameChunks(old(tree), tree)
      ensures found ==> ReadyToUse(tree, p) && Suits(p, s, e, order, order, f)
      ensures !found ==> tree == old(tree) && freeList == old(freeList) && NoRoom(s, e, order, f)
      ensures SameRoom(old(tree), tree, order)
      ensures f.range ==> (found <==> exists q :: OfferedBy(Wish(s, RangeTop(e), order, f.clear), old(tree), 0, q))
      ensures found ==> Selected(old(tree), s, RangeTop(e), order, f, Off(tree, p), At(tree, p).clear)
    {
      hide Ranged;
      hide OfferedBy;
      if f.range {
        found, p := SearchRange(Wish(s, RangeTop(e), order, f.clear));
      } else {
        ghost var b;
        found, p, b := PickFromLists(order, f.clear, f.topDown);
        assert found ==> UpperEnd(old(tree), b, order, f, Off(tree, p), At(tree, p).clear);
      }
    }

    /** The last resort at the smallest order: merge by force, then look once more. */
    method MergeAndFind(s: nat, e: nat, minOrder: nat, f: Flags) returns (found: bool, p: Path, ghost exact: bool)
      requires Valid() && minOrder <= maxOrder
      modifies this`tree, this`freeList, this`clearAvail
      ensures Consistent() && SameRoots(old(tree), tree) && SameUse(old(tree), tree) && avail == old(avail)
      ensures found ==> ReadyToUse(tree, p) && Suits(p, s, e, minOrder, minOrder, f)
      ensures !found ==> Maximal(tree)
      ensures exact <==> old(clearAvail) == 0
      ensures exact ==> !found && tree == old(tree) && freeList == old(freeList) && clearAvail == old(clearAvail)
      ensures Everywhere(s, e, f) && !found && old(NoRoom(s, e, minOrder, f)) ==> Spare(tree, minOrder) == 0
      ensures f.range && !exact ==> Decided(old(tree), s, e, RangeTop(e), minOrder, f.clear, found)
      ensures found ==>
                SelectedBy(false, old(tree), s, RangeTop(e), At(tree, p).order, minOrder, f, Off(tree, p),
                           At(tree, p).clear)
    {
      hide Selected;
      found, p, exact := false, [], true;
      SameRootsSelf(tree);
      if clearAvail != 0 {
        exact := false;
        CappedByMax(tree, 0, s, e, maxOrder);
        var err, at := ForceMerge(s, e, minOrder, maxOrder);
        if err == Ok {
          ghost var t := tree;
          found, p := FindBlock(s, e, minOrder, f);
          SameRootsTrans(old(tree), t, tree);
          ChunksAreUse(t, tree);
          SameUseTrans(old(tree), t, tree);
          if found {
            assert Source(false, old(tree), t, s, RangeTop(e), minOrder, minOrder, f, Off(tree, p), At(tree, p).clear);
          }
        } else if Everywhere(s, e, f) && old(NoRoom(s, e, minOrder, f)) {
          NoneAbove(old(freeList), old(tree), freeList, tree, maxOrder, minOrder);
          NothingSpare(tree, minOrder, e);
        }
      } else {
        DirtyIsMerged(tree, s, e, minOrder);
        if Everywhere(s, e, f) && NoRoom(s, e, minOrder, f) { NothingSpare(tree, minOrder, e); }
      }
    }

    /** The largest block that can be found, from order `top` down to `minOrder`. */
    method FindLargest(s: nat, e: nat, top: nat, minOrder: nat, f: Flags) returns (found: bool, p: Path)
      requires Valid() && minOrder <= top
      modifies this`tree, this`freeList
      ensures Consistent() && SameRoots(old(tree), tree) && SameChunks(old(tree), tree)
      ensures found ==> ReadyToUse(tree, p) && Suits(p, s, e, minOrder, top, f)
      ensures !found ==> tree == old(tree) && freeList == old(freeList) && NoRoom(s, e, minOrder, f)
      ensures SameRoom(old(tree), tree, minOrder)
      ensures found ==>
                SelectedBy(true, old(tree), s, RangeTop(e), At(tree, p).order, top, f, Off(tree, p), At(tree, p).clear)
    {
      hide Selected;
      var order := top;
      SameRootsSelf(tree);
      SameUseSelf(tree);
      found, p := FindBlock(s, e, order, f);
      while !found && order > minOrder
        invariant minOrder <= order <= top && Consistent() && SameRoots(old(tree), tree) && SameChunks(old(tree), tree)
        invariant found ==> ReadyToUse(tree, p) && Suits(p, s, e, minOrder, top, f)
        invariant !found ==> tree == old(tree) && freeList == old(freeList) && NoRoom(s, e, order, f)
        invariant SameRoom(old(tree), tree, minOrder)
        invariant found ==> At(tree, p).order == order && NoneLarger(old(tree), s, RangeTop(e), order, top, f)
        invariant found ==> Selected(old(tree), s, RangeTop(e), order, f, Off(tree, p), At(tree, p).clear)
        invariant !found ==> NoneLarger(old(tree), s, RangeTop(e), order - 1, top, f)
      {
        order := order - 1;
        found, p := FindBlock(s, e, order, f);
      }
      if found {
        assert Source(true, old(tree), old(tree), s, RangeTop(e), order, top, f, Off(tree, p), At(tree, p).clear);
      }
    }

    /** The inner loop of `drm_buddy_alloc_blocks`: one block, as large as possible up to `top`. */
    method Locate(s: nat, e: nat, top: nat, minOrder: nat, f: Flags) returns (found: bool, p: Path, ghost exact: bool)
      requires Valid() && minOrder <= top && minOrder <= maxOrder
      modifies this`tree, this`freeList, this`clearAvail
      ensures Consistent() && SameRoots(old(tree), tree) && SameUse(old(tree), tree) && avail == old(avail)
      ensures found ==> ReadyToUse(tree, p) && Suits(p, s, e, minOrder, top, f)
      ensures !found ==> Maximal(tree) && NoneLeft(s, e, minOrder, f, exact) && (exact ==> NoRoom(s, e, minOrder, f))
      ensures !found && exact ==> tree == old(tree) && freeList == old(freeList)
      ensures if exact
              then SameChunks(old(tree), tree) && SameRoom(old(tree), tree, minOrder) && clearAvail == old(clearAvail)
              else old(clearAvail) > 0 && Room(old(tree), 0, minOrder, Low(s, f), High(e, f)) == 0
      ensures f.range && Room(old(tree), 0, minOrder, s, RangeTop(e)) == 0 ==>
                Decided(old(tree), s, e, RangeTop(e), minOrder, f.clear, found)
      ensures found ==>
                SelectedBy(exact, old(tree), s, RangeTop(e), At(tree, p).order, top, f, Off(tree, p), At(tree, p).clear)
    {
      hide SelectedBy;
      hide Room;
      hide Spare;
      hide SameUse;
      ghost var t := tree;
      exact := true;
      found, p := FindLargest(s, e, top, minOrder, f);
      if found {
        ChunksAreUse(t, tree);
        if f.range { RoomOfBlock(tree, 0, p, minOrder, s, RangeTop(e)); }
      } else {
        NoRoomLeft(t, minOrder, Low(s, f), High(e, f), f.clear);
        if clearAvail == 0 { DirtyIsMerged(t, s, e, minOrder); }
        found, p, exact := MergeAndFind(s, e, minOrder, f);
        if found {
          AnyTop(t, s, RangeTop(e), minOrder, minOrder, top, f, Off(tree, p), At(tree, p).clear);
        }
      }
    }

    /** The block is marked as allocated. */
    method GrabBlock(s: nat, e: nat, top: nat, minOrder: nat, f: Flags)
      returns (found: bool, p: Path, ghost exact: bool)
      requires Valid() && minOrder <= top && minOrder <= maxOrder
      modifies this`tree, this`freeList, this`avail, this`clearAvail
      ensures Took(exact, if found then [p] else [])
      ensures found ==> UsedBlockAt(tree, p) && Suits(p, s, e, minOrder, top, f)
      ensures !found && exact ==> NoRoom(s, e, minOrder, f)
      ensures exact ==> clearAvail <= old(clearAvail)
      ensures !exact ==> old(clearAvail) > 0
      ensures var n := if found then Pow2(At(tree, p).order) else 0; var lo, hi := Low(s, f), High(e, f);
              Grabbed(Room(old(tree), 0, minOrder, lo, hi), Room(tree, 0, minOrder, lo, hi), n, exact) &&
              Spare(old(tree), minOrder) == Spare(tree, minOrder) + n
      ensures !found ==> NoneLeft(s, e, minOrder, f, exact)
      ensures f.range && Room(old(tree), 0, minOrder, s, RangeTop(e)) == 0 ==>
                Decided(old(tree), s, e, RangeTop(e), minOrder, f.clear, found)
      ensures found ==>
                SelectedBy(exact, old(tree), s, RangeTop(e), At(tree, p).order, top, f, Off(tree, p), At(tree, p).clear)
    {
      hide SelectedBy;
      hide Room;
      hide Spare;
      hide Taken;
      hide SameChunks;
      hide SameUse;
      hide Frees;
      hide NoRoom;
      hide Decided;
      hide Maximal;
      hide Lists;
      hide WF;
      hide Aligned;
      hide SameRoots;
      hide Shaped;
      ghost var t := tree;
      Canon();
      found, p, exact := Locate(s, e, top, minOrder, f);
      Shape();
      if found {
        ghost var t1 := tree;
        GrabTaken(exact, t, t1, p);
        WFAt(t1, p);
        SizeOfBlock(At(t1, p));
        RoomTaken(t1, p, minOrder, Low(s, f), High(e, f));
        TakeBlock(p);
        Shape();
        SameRootsTrans(t, t1, tree);
        SpareTaken(exact, t, tree, p, minOrder);
      } else {
        NothingTaken(exact, t, tree);
        SpareUse(t, tree, minOrder);
      }
    }

    /** One round of the outer loop of `drm_buddy_alloc_blocks`; `t0` is the tree before the first one. */
    method AddBlock(ghost t0: Tree, held: seq<Path>, ghost exact: bool, s: nat, e: nat, top: nat, minOrder: nat,
                    f: Flags, ghost want: nat)
      returns (found: bool, more: seq<Path>, order: nat, ghost exact': bool)
      requires Valid() && minOrder <= top && minOrder <= maxOrder && SameRoots(t0, tree) && Taken(exact, t0, tree, held)
      requires Fitting(tree, held, minOrder, f.range, s, RangeTop(e)) && Total(tree, held) < want
      requires Picks(exact, t0, tree, held, want, s, RangeTop(e), f)
      requires exact ==> NoneLarger(tree, s, RangeTop(e), top, Log2(want - Total(tree, held)), f)
      modifies this`tree, this`freeList, this`avail, this`clearAvail
      ensures found ==> Picks(exact', t0, tree, more, want, s, RangeTop(e), f)
      ensures found && exact' && Total(tree, more) < want ==>
                NoneLarger(tree, s, RangeTop(e), order, Log2(want - Total(tree, more)), f)
      ensures Valid() && SameRoots(t0, tree) && Taken(exact', t0, tree, more)
      ensures Fitting(tree, more, minOrder, f.range, s, RangeTop(e))
      ensures minOrder <= order <= top && (found ==> more != [])
      ensures var n := if found then Pow2(order) else 0;
              Total(tree, more) == old(Total(tree, held)) + n && avail == old(avail) - n
      ensures !found ==> more == held
      ensures !found && exact' ==>
                tree == old(tree) && freeList == old(freeList) && clearAvail == old(clearAvail) &&
                NoRoom(s, e, minOrder, f)
      ensures exact' ==> exact && clearAvail <= old(clearAvail)
      ensures exact && !exact' ==> old(clearAvail) > 0
      ensures var n := if found then Pow2(order) else 0; var lo, hi := Low(s, f), High(e, f);
              (exact ==> Grabbed(Room(old(tree), 0, minOrder, lo, hi), Room(tree, 0, minOrder, lo, hi), n, exact')) &&
              Spare(old(tree), minOrder) == Spare(tree, minOrder) + n
      ensures !found ==> NoneLeft(s, e, minOrder, f, exact')
      ensures f.range && Room(old(tree), 0, minOrder, s, RangeTop(e)) == 0 ==>
                Decided(old(tree), s, e, RangeTop(e), minOrder, f.clear, found)
    {
      hide Total;
      hide Taken;
      hide Room;
      hide Spare;
      hide SelectedBy;
      hide Picks;
      hide NoneLarger;
      hide Log2;
      hide Consistent;
      hide Maximal;
      hide WF;
      hide Aligned;
      hide SameRoots;
      hide NoRoom;
      hide Decided;
      ghost var t := tree;
      var p;
      ghost var ex;
      Canon();
      found, p, ex := GrabBlock(s, e, top, minOrder, f);
      Canon();
      SameRootsTrans(t0, t, tree);
      GrabMore(exact, t0, t, held, ex, tree, if found then [p] else []);
      FittingStays(t, tree, held, minOrder, f.range, s, RangeTop(e));
      exact', order := exact && ex, top;
      assert held + [] == held;
      NoTotal(tree);
      more := held;
      if found {
        order := At(tree, p).order;
        FittingMore(tree, held, p, minOrder, f.range, s, RangeTop(e));
        more := held + [p];
        OneTotal(tree, p);
        PicksAdded(exact, t0, t, held, ex, tree, p, top, want, s, RangeTop(e), f);
      }
    }

    /** What the outer loop of `drm_buddy_alloc_blocks` keeps; `t0` and the following are the state before it. */
    ghost predicate Underway(t0: Tree, fl0: seq<seq<Path>>, avail0: int, clear0: int, want: nat, pages: nat, order: nat,
                             done: bool, held: seq<Path>, exact: bool, s: nat, e: nat, minOrder: nat, f: Flags)
      reads this
    {
      var lo, hi, top := Low(s, f), High(e, f), RangeTop(e);
      Valid() && SameRoots(t0, tree) && Taken(exact, t0, tree, held) && avail0 - avail == Total(tree, held) &&
      (exact && held == [] ==> tree == t0 && freeList == fl0 && clearAvail == clear0) &&
      Total(tree, held) + pages == want && Multiple(pages, Pow2(minOrder)) && minOrder <= order &&
      (held != [] ==> pages + Pow2(minOrder) <= want) && Fitting(tree, held, minOrder, f.range, s, top) &&
      (if exact then clearAvail <= clear0 else clear0 > 0) &&
      (if exact then Room(tree, 0, minOrder, lo, hi) + want == Room(t0, 0, minOrder, lo, hi) + pages
       else Room(t0, 0, minOrder, lo, hi) < want) &&
      Spare(tree, minOrder) + want == Spare(t0, minOrder) + pages &&
      (!done ==> pages > 0 && NoneLeft(s, e, minOrder, f, exact) && (exact ==> NoRoom(s, e, minOrder, f))) &&
      (done && pages == want ==> tree == t0) &&
      (f.range && Room(t0, 0, minOrder, s, top) == 0 && want == Pow2(minOrder) && !(done && pages == want) ==>
         Decided(t0, s, e, top, minOrder, f.clear, done)) &&
      (done ==> Picks(exact, t0, tree, held, want, s, top, f)) &&
      (done && exact && pages > 0 ==> NoneLarger(tree, s, top, order, Log2(pages), f))
    }

    /** One round of the loop. */
    method FillRound(ghost t0: Tree, ghost fl0: seq<seq<Path>>, ghost avail0: int, ghost clear0: int, ghost want: nat,
                     pages: nat, order: nat, held: seq<Path>, ghost exact: bool, s: nat, e: nat, minOrder: nat,
                     f: Flags)
      returns (pages': nat, order': nat, done: bool, held': seq<Path>, ghost exact': bool)
      requires Underway(t0, fl0, avail0, clear0, want, pages, order, true, held, exact, s, e, minOrder, f)
      requires 0 < pages && Log2(pages) <= maxOrder
      modifies this`tree, this`freeList, this`avail, this`clearAvail
      ensures Underway(t0, fl0, avail0, clear0, want, pages', order', done, held', exact', s, e, minOrder, f)
      ensures pages' <= pages && (done ==> pages' < pages)
    {
      hide Low;
      hide High;
      hide RangeTop;
      hide NoneLeft;
      hide Pow2;
      hide Taken;
      hide Consistent;
      hide Room;
      hide Spare;
      hide NoRoom;
      hide Multiple;
      hide SameRoots;
      hide Fitting;
      hide Total;
      hide Decided;
      hide Picks;
      hide NoneLarger;
      hide Log2;
      hide Maximal;
      PagesOrder(pages, minOrder);
      PagesAtLeast(pages, minOrder);
      var top := order;
      if Log2(pages) < order {
        top := Log2(pages);
        NoOrders(tree, s, RangeTop(e), top, f);
      }
      assert pages == want - Total(tree, held);
      done, held', order', exact' := AddBlock(t0, held, exact, s, e, top, minOrder, f, want);
      pages' := pages;
      if !done { return; }
      PagesLeft(pages, minOrder, order');
      pages' := pages - Pow2(order');
    }

    /** The outer loop of `drm_buddy_alloc_blocks`: blocks that add up to `want` chunks, or what was found of them. */
    method FillBlocks(s: nat, e: nat, want: nat, minOrder: nat, f: Flags)
      returns (done: bool, held: seq<Path>, ghost exact: bool)
      requires Valid() && want > 0 && Multiple(want, Pow2(minOrder)) && Log2(want) <= maxOrder
      modifies this`tree, this`freeList, this`avail, this`clearAvail
      ensures Took(exact, held) && Fitting(tree, held, minOrder, f.range, s, RangeTop(e))
      ensures if done then Total(tree, held) == want else held != [] ==> want >= 2 * Pow2(minOrder)
      ensures !done && exact ==> NoRoom(s, e, minOrder, f)
      ensures !exact ==> old(clearAvail) > 0
      ensures done && exact <==> want <= Room(old(tree), 0, minOrder, Low(s, f), High(e, f))
      ensures Everywhere(s, e, f) ==> (done <==> want <= Spare(old(tree), minOrder))
      ensures f.range && Room(old(tree), 0, minOrder, s, RangeTop(e)) == 0 && want == Pow2(minOrder) ==>
                Decided(old(tree), s, e, RangeTop(e), minOrder, f.clear, done)
      ensures done ==> Picks(exact, old(tree), tree, held, want, s, RangeTop(e), f)
    {
      hide Taken;
      hide Consistent;
      hide Room;
      hide Spare;
      hide NoRoom;
      hide Multiple;
      hide SameRoots;
      hide Decided;
      hide Log2;
      hide Maximal;
      hide NoRoomIn;
      ghost var t0, fl0, avail0, clear0 := tree, freeList, avail, clearAvail;
      var pages: nat, order: nat := want, Log2(want);
      done, held, exact := true, [], true;
      NothingTaken(true, t0, tree);
      SameRootsSelf(t0);
      PagesOrder(want, minOrder);
      assert Underway(t0, fl0, avail0, clear0, want, pages, order, done, held, exact, s, e, minOrder, f);
      hide Fitting;
      hide Total;
      hide Picks;
      hide NoneLarger;
      while pages > 0 && done
        invariant Underway(t0, fl0, avail0, clear0, want, pages, order, done, held, exact, s, e, minOrder, f)
        invariant pages <= want
        decreases done, pages
      {
        Log2Monotone(pages, want);
        pages, order, done, held, exact :=
          FillRound(t0, fl0, avail0, clear0, want, pages, order, held, exact, s, e, minOrder, f);
      }
      if !done { PagesAtLeast(pages, minOrder); }
    }

    /** The end of `drm_buddy_alloc_blocks`: give back the `extra` chunks at the end of the last block. */
    method TrimTail(ghost t0: Tree, held: seq<Path>, ghost exact: bool, extra: nat, ghost min: nat, ghost ranged: bool,
                    ghost lo: nat, ghost hi: nat)
      returns (got: seq<Path>)
      requires Valid() && chunkSize > 0 && SameRoots(t0, tree) && Taken(exact, t0, tree, held)
      requires held != [] && Fitting(tree, held, min, ranged, lo, hi) && 0 < extra < Pow2(min)
      modifies this`tree, this`freeList, this`avail, this`clearAvail
      ensures Valid() && SameRoots(t0, tree) && Taken(exact, t0, tree, got)
      ensures Placed(tree, got, |held| - 1, min, ranged, lo, hi) && Total(tree, got) == old(Total(tree, held)) - extra
      ensures avail == old(avail) + extra
      ensures |held| == 1 ==> Tiles(tree, got, old(Off(tree, held[0])))
      ensures CutTo(old(tree), held, extra, tree, got)
    {
      hide Trimmed;
      hide Placed;
      hide Tiles;
      hide SameRoots;
      hide Maximal;
      ghost var t := tree;
      var last := |held| - 1;
      var p := held[last];
      Pow2Monotone(min, At(t, p).order);
      ghost var rest := held[..last];
      assert held == rest + [p];
      var m := Pow2(At(tree, p).order) - extra;
      TrimAccepted(t, p, m, chunkSize);
      var err, out := BlockTrim([p], None, m * chunkSize);
      SameRootsTrans(t0, t, tree);
      TrimmedTaken(exact, t0, t, p, Off(t, p), Off(t, p) + m, tree, out, rest);
      TailPlaced(t, rest, p, m, tree, out, min, ranged, lo, hi);
      got := held[..last] + out;
      assert got[..last] == held[..last] && got[last..] == out;
    }

    /** The failing end of `drm_buddy_alloc_blocks`: the blocks found so far go back. */
    method GiveBack(ghost t0: Tree, ghost fl0: seq<seq<Path>>, held: seq<Path>, ghost exact: bool)
      requires Valid() && WF(t0) && Maximal(t0) && SameRoots(t0, tree) && Taken(exact, t0, tree, held)
      requires Lists(fl0, maxOrder, t0)
      modifies this`tree, this`freeList, this`avail, this`clearAvail
      ensures Valid() && SameRoots(t0, tree) && Taken(exact, t0, tree, [])
      ensures exact ==> tree == t0 && freeList == fl0
      ensures avail == old(avail) + old(Total(tree, held))
    {
      ghost var t := tree;
      TakenReleased(exact, t0, t, held, Keep);
      FreeBlocks(held, Keep);
      SameRootsTrans(t0, t, tree);
      NothingTaken(exact, t0, tree);
      if exact { ListsUnique(freeList, fl0, maxOrder, t0); }
    }

    /** The successful end of `drm_buddy_alloc_blocks`. */
    method Finish(ghost t0: Tree, held: seq<Path>, ghost exact: bool, extra: nat, f: Flags, ghost min: nat,
                  ghost lo: nat, ghost hi: nat)
      returns (got: seq<Path>, ghost tail: nat)
      requires Valid() && chunkSize > 0 && SameRoots(t0, tree) && Taken(exact, t0, tree, held)
      requires held != [] && Fitting(tree, held, min, f.range, lo, hi) && extra < Pow2(min)
      modifies this`tree, this`freeList, this`avail, this`clearAvail
      ensures Valid() && SameRoots(t0, tree) && Taken(exact, t0, tree, got)
      ensures Placed(tree, got, tail, min, f.range, lo, hi)
      ensures Total(tree, got) == old(Total(tree, held)) - (if f.noTrim then 0 else extra)
      ensures avail + Total(tree, got) == old(avail) + old(Total(tree, held))
      ensures |held| == 1 ==> Tiles(tree, got, old(Off(tree, held[0])))
      ensures CutTo(old(tree), held, if f.noTrim then 0 else extra, tree, got)
    {
      if !f.noTrim && extra != 0 {
        tail := |held| - 1;
        got := TrimTail(t0, held, exact, extra, min, f.range, lo, hi);
      } else {
        got, tail := held, |held|;
        WholePlaced(tree, held, min, f.range, lo, hi);
      }
    }

    /** What a successful allocation of `n` chunks hands out. */
    ghost predicate Allotted(got: seq<Path>, tail: nat, from: nat, s: nat, e: nat, n: nat, min: nat, f: Flags)
      reads this
      requires n > 0
    {
      Placed(tree, got, tail, if f.contiguous then 0 else min, f.range, s, RangeTop(e)) &&
      (if f.contiguous then
         Tiles(tree, got, from) && Multiple(from, Pow2(Lesser(min, Log2(n)))) &&
         n <= Total(tree, got) && (!f.noTrim ==> Total(tree, got) < n + Pow2(min))
       else
         Total(tree, got) == Handed(n, min, f))
    }

    /** The blocks handed out were selected one by one, the last one cut down to the size asked for. */
    ghost predicate RunsCourse(exact: bool, t0: Tree, got: seq<Path>, s: nat, e: nat, n: nat, min: nat, f: Flags)
      reads this
      requires n > 0
    {
      Course(exact, t0, tree, got, RoundedSize(n, min, f), Surplus(n, min, f), s, RangeTop(e), f)
    }

    /** All blocks were found: trim, and hand them out. */
    method HandOut(ghost t0: Tree, held: seq<Path>, ghost exact: bool, s: nat, e: nat, n: nat, min: nat, f: Flags)
      returns (got: seq<Path>, ghost tail: nat, ghost from: nat)
      requires Valid() && chunkSize > 0 && SameRoots(t0, tree) && Taken(exact, t0, tree, held) && n > 0
      requires Fitting(tree, held, SmallestOrder(n, min, f), f.range, s, RangeTop(e)) &&
               Total(tree, held) == RoundedSize(n, min, f)
      modifies this`tree, this`freeList, this`avail, this`clearAvail
      ensures CutTo(old(tree), held, Surplus(n, min, f), tree, got)
      ensures Valid() && SameRoots(t0, tree) && Taken(exact, t0, tree, got) && got != []
      ensures Allotted(got, tail, from, s, e, n, min, f) && Total(tree, got) == Handed(n, min, f)
      ensures avail + Total(tree, got) == old(avail) + old(Total(tree, held))
    {
      hide Log2;
      hide Maximal;
      hide SameRoots;
      hide Taken;
      hide CutTo;
      TakenUsed(exact, t0, tree, held);
      assert held != [];
      from := 0;
      if f.contiguous {
        OneBlock(tree, held, SmallestOrder(n, min, f), f.range, s, RangeTop(e));
        from := Off(tree, held[0]);
        CeilOrder(n);
        MultipleOfSmaller(from, Lesser(min, Log2(n)), SmallestOrder(n, min, f));
      }
      got, tail := Finish(t0, held, exact, RoundedSize(n, min, f) - n, f, SmallestOrder(n, min, f), s, RangeTop(e));
      PlacedLess(tree, got, tail, SmallestOrder(n, min, f), f.range, s, RangeTop(e));
    }

    /** The same, with what is known about how the blocks were selected. */
    method Complete(ghost t0: Tree, held: seq<Path>, ghost exact: bool, s: nat, e: nat, n: nat, min: nat, f: Flags)
      returns (got: seq<Path>, ghost tail: nat, ghost from: nat)
      requires Valid() && chunkSize > 0 && SameRoots(t0, tree) && Taken(exact, t0, tree, held) && n > 0
      requires Fitting(tree, held, SmallestOrder(n, min, f), f.range, s, RangeTop(e)) &&
               Total(tree, held) == RoundedSize(n, min, f)
      requires Picks(exact, t0, tree, held, RoundedSize(n, min, f), s, RangeTop(e), f)
      modifies this`tree, this`freeList, this`avail, this`clearAvail
      ensures RunsCourse(exact, t0, got, s, e, n, min, f)
      ensures Valid() && SameRoots(t0, tree) && Taken(exact, t0, tree, got) && got != []
      ensures Allotted(got, tail, from, s, e, n, min, f) && Total(tree, got) == Handed(n, min, f)
      ensures avail + Total(tree, got) == old(avail) + old(Total(tree, held))
    {
      hide CutTo;
      hide Picks;
      hide Allotted;
      hide Fitting;
      hide Taken;
      hide Consistent;
      hide RoundedSize;
      hide SmallestOrder;
      ghost var mid := tree;
      got, tail, from := HandOut(t0, held, exact, s, e, n, min, f);
      assert CourseVia(exact, t0, mid, held, tree, got, RoundedSize(n, min, f), Surplus(n, min, f), s, RangeTop(e), f);
    }

    /** No single block was found for contiguous memory: put it together from several. */
    method Retry(ghost t0: Tree, ghost exact: bool, s: nat, e: nat, n: nat, min: nat, f: Flags)
      returns (err: Errno, got: seq<Path>, ghost tail: nat, ghost from: nat)
      requires Valid() && SameRoots(t0, tree) && Taken(exact, t0, tree, []) && n > 0 && Log2(n) <= maxOrder
      requires f.contiguous && !f.range
      modifies this`tree, this`freeList, this`avail, this`clearAvail
      ensures Valid() && SameRoots(t0, tree) && Taken(exact, t0, tree, got) && avail + Total(tree, got) == old(avail)
      ensures err == Ok ==> got != [] && Allotted(got, tail, from, s, e, n, min, f)
      ensures err == Ok ==> exists b :: Topmost(old(tree), b, n, min, from, Total(tree, got))
      ensures err != Ok ==>
                err == ENOSPC && got == [] && tree == old(tree) && freeList == old(freeList) &&
                clearAvail == old(clearAvail)
      ensures err != Ok && n > 1 ==> NoRunFrom(tree, n, min)
    {
      ghost var t := tree;
      err, got, from := TryHarder(n, min);
      tail := |got|;
      SameRootsTrans(t0, t, tree);
      GrabMore(exact, t0, t, [], true, tree, got);
      assert [] + got == got;
      UsedFit(tree, got, s, RangeTop(e));
      WholePlaced(tree, got, 0, false, s, RangeTop(e));
    }

    /**
      What comes of a request for `n` chunks that is not for an exact range, made when the tree was `t0`. The
      kernel stops if rounding makes the request larger than the largest order. A request for a single block
      fails, if nothing was merged by force, only if no free block has room for one. Blocks are found without
      merging by force if and only if the free blocks that are not too small have room for the request where they
      may come from; and if they have, even contiguous memory is found. Where blocks may come from the whole
      device, a request that need not be contiguous succeeds if and only if the free aligned runs have room for it,
      whatever their marks. Contiguous memory is found wherever a free block of the order that is tried starts it.
     */
    ghost predicate Served(t0: Tree, err: Errno, got: seq<Path>, exact: bool, tail: nat, from: nat, s: nat, e: nat,
                           n: nat, min: nat, f: Flags)
      reads this
      requires n > 0
    {
      var room, smallest := HasRoom(t0, n, min, f, Low(s, f), High(e, f)), SmallestOrder(n, min, f);
      err in {Ok, ENOSPC, Bug} && (err == Bug <==> Log2(RoundedSize(n, min, f)) > maxOrder) &&
      (err == Ok ==> Allotted(got, tail, from, s, e, n, min, f)) &&
      (err == ENOSPC && exact && RoundedSize(n, min, f) == Pow2(smallest) ==> NoRoom(s, e, smallest, f)) &&
      (err != Bug && f.range && RoundedSize(n, min, f) == Pow2(smallest) &&
       Room(t0, 0, smallest, s, RangeTop(e)) == 0 ==>
         Decided(t0, s, e, RangeTop(e), smallest, f.clear, err == Ok)) &&
      (err == ENOSPC && f.contiguous && !f.range && n > 1 ==> NoRunFrom(tree, n, min)) &&
      (err != Bug && !(f.contiguous && !f.range) ==> (err == Ok && exact <==> room)) &&
      (err != Bug && !f.contiguous && Everywhere(s, e, f) ==> (err == Ok <==> HasSpare(t0, n, min, f))) &&
      (err != Bug && room ==>
         err == Ok && exact && Total(tree, got) == Handed(n, min, f) && RunsCourse(true, t0, got, s, e, n, min, f)) &&
      (err == Ok && !f.contiguous ==> RunsCourse(exact, t0, got, s, e, n, min, f)) &&
      (err == Ok && exact && !room ==> exists b :: Topmost(t0, b, n, min, from, Total(tree, got))) &&
      (err != Bug && Everywhere(s, e, f) && HasSpare(t0, n, min, f) ==>
       err == Ok && Total(tree, got) == Handed(n, min, f))
    }

    /** Not all blocks were found: contiguous memory can still be put together, otherwise what was found goes back. */
    method Unfilled(ghost t0: Tree, ghost fl0: seq<seq<Path>>, held: seq<Path>, ghost exact: bool, s: nat, e: nat,
                    n: nat, min: nat, f: Flags)
      returns (err: Errno, got: seq<Path>, ghost tail: nat, ghost from: nat)
      requires Valid() && WF(t0) && Maximal(t0) && SameRoots(t0, tree) && Taken(exact, t0, tree, held) && n > 0 &&
               Log2(n) <= maxOrder
      requires Lists(fl0, maxOrder, t0) && (f.contiguous ==> held == []) && (exact && held == [] ==> tree == t0)
      modifies this`tree, this`freeList, this`avail, this`clearAvail
      ensures Valid() && SameRoots(t0, tree) && Taken(exact, t0, tree, got)
      ensures avail + Total(tree, got) == old(avail) + old(Total(tree, held))
      ensures err in {Ok, ENOSPC} && (err != Ok ==> got == [])
      ensures exact && err != Ok ==> tree == t0 && freeList == fl0 && clearAvail == ClearSize(t0)
      ensures err == Ok ==> got != [] && f.contiguous && !f.range && Allotted(got, tail, from, s, e, n, min, f)
      ensures err != Ok && f.contiguous && !f.range && n > 1 ==> NoRunFrom(tree, n, min)
      ensures err == Ok && exact ==> exists b :: Topmost(t0, b, n, min, from, Total(tree, got))
    {
      hide Topmost;
      if f.contiguous && !f.range {
        err, got, tail, from := Retry(t0, exact, s, e, n, min, f);
        if exact && err != Ok { ListsUnique(freeList, fl0, maxOrder, t0); }
      } else {
        err, got, tail, from := ENOSPC, [], 0, 0;
        GiveBack(t0, fl0, held, exact);
      }
    }

    /** The loop of `drm_buddy_alloc_blocks` and both of its ends; `filled` says whether it found all blocks. */
    method Gather(s: nat, e: nat, n: nat, min: nat, f: Flags)
      returns (err: Errno, got: seq<Path>, ghost exact: bool, ghost tail: nat, ghost from: nat, ghost filled: bool)
      requires Valid() && chunkSize > 0 && n > 0 && Log2(RoundedSize(n, min, f)) <= maxOrder
      modifies this`tree, this`freeList, this`avail, this`clearAvail
      ensures Took(exact, got) && (!exact ==> old(clearAvail) > 0) && (err != Ok ==> err == ENOSPC && got == [])
      ensures err == Ok ==> Allotted(got, tail, from, s, e, n, min, f)
      ensures filled && exact <==> HasRoom(old(tree), n, min, f, Low(s, f), High(e, f))
      ensures Everywhere(s, e, f) ==> (filled <==> HasSpare(old(tree), n, min, f))
      ensures if filled then err == Ok && Total(tree, got) == Handed(n, min, f)
              else err == Ok ==> f.contiguous && !f.range
      ensures err != Ok && exact && RoundedSize(n, min, f) == Pow2(SmallestOrder(n, min, f)) ==>
                NoRoom(s, e, SmallestOrder(n, min, f), f)
      ensures err != Ok && f.contiguous && !f.range && n > 1 ==> NoRunFrom(tree, n, min)
      ensures f.range && Room(old(tree), 0, SmallestOrder(n, min, f), s, RangeTop(e)) == 0 &&
              RoundedSize(n, min, f) == Pow2(SmallestOrder(n, min, f)) ==>
                Decided(old(tree), s, e, RangeTop(e), SmallestOrder(n, min, f), f.clear, err == Ok)
      ensures filled ==> RunsCourse(exact, old(tree), got, s, e, n, min, f)
      ensures err == Ok && !filled && exact ==> exists b :: Topmost(old(tree), b, n, min, from, Total(tree, got))
    {
      hide Topmost;
      hide Picks;
      hide RunsCourse;
      hide Decided;
      hide Taken;
      hide Room;
      hide Spare;
      hide Log2;
      hide Allotted;
      hide RoundedSize;
      hide SmallestOrder;
      ghost var t0 := tree;
      ContiguousSize(n, min, f);
      var done, held;
      done, held, exact := FillBlocks(s, e, RoundedSize(n, min, f), SmallestOrder(n, min, f), f);
      filled := done;
      if done {
        err := Ok;
        got, tail, from := Complete(t0, held, exact, s, e, n, min, f);
      } else {
        Log2Monotone(n, RoundedSize(n, min, f));
        err, got, tail, from := Unfilled(t0, old(freeList), held, exact, s, e, n, min, f);
      }
    }

    /** `drm_buddy_alloc_blocks` behind the checks, with sizes in chunks */
    method AllocChunks(s: nat, e: nat, n: nat, min: nat, f: Flags)
      returns (err: Errno, got: seq<Path>, ghost exact: bool, ghost tail: nat, ghost from: nat)
      requires Valid() && chunkSize > 0 && n > 0
      modifies this`tree, this`freeList, this`avail, this`clearAvail
      ensures Took(exact, got) && (!exact ==> old(clearAvail) > 0) && (err != Ok ==> got == []) &&
              (err == Bug ==> exact)
      ensures err in {Ok, ENOSPC, Bug} && Served(old(tree), err, got, exact, tail, from, s, e, n, min, f)
    {
      hide Taken;
      hide Log2;
      hide HasRoom;
      hide HasSpare;
      hide Consistent;
      if Log2(RoundedSize(n, min, f)) > maxOrder {
        err, got, exact, tail, from := Bug, [], true, 0, 0;
        SameRootsSelf(tree);
        NothingTaken(true, tree, tree);
      } else {
        ghost var filled;
        err, got, exact, tail, from, filled := Gather(s, e, n, min, f);
      }
    }

    /** The arguments `drm_buddy_alloc_blocks` refuses; sizes in bytes. */
    predicate Refused(start: nat, end: nat, bytes: nat, minBlock: nat)
      reads this
      requires chunkSize > 0
    {
      bytes < chunkSize || minBlock < chunkSize || !PowerOfTwo(minBlock) ||
      !Multiple(start, chunkSize) || !Multiple(end, chunkSize) || !Multiple(bytes, chunkSize) ||
      end > size * chunkSize || start + bytes > size * chunkSize ||
      (start + bytes == end && !(Multiple(start, minBlock) && Multiple(end, minBlock)))
    }

    /** The checks of `drm_buddy_alloc_blocks`, and the request in chunks. */
    method CheckRequest(start: nat, end: nat, bytes: nat, minBlock: nat)
      returns (refused: bool, s: nat, e: nat, n: nat, min: nat)
      requires PowerOfTwo(chunkSize)
      ensures refused <==> Refused(start, end, bytes, minBlock)
      ensures !refused ==> s == start / chunkSize && e == end / chunkSize && n == bytes / chunkSize > 0 && s + n <= size
      ensures !refused ==> min + Log2(chunkSize) == Log2(minBlock) && minBlock == Pow2(min) * chunkSize
      ensures !refused ==> (start + bytes == end <==> s + n == e)
    {
      hide Pow2;
      hide Log2;
      refused, s, e, n, min := true, 0, 0, 0, 0;
      var device := size * chunkSize;
      if bytes < chunkSize || minBlock < chunkSize || !PowerOfTwo(minBlock) { return; }
      if !Multiple(start, chunkSize) || !Multiple(end, chunkSize) || !Multiple(bytes, chunkSize) { return; }
      if end > device || start >= device || bytes > device - start { return; }
      if start + bytes == end && !(Multiple(start, minBlock) && Multiple(end, minBlock)) { return; }
      s, e, n := start / chunkSize, end / chunkSize, bytes / chunkSize;
      RequestInChunks(start, end, bytes, size, chunkSize);
      OrdersDiffer(minBlock, chunkSize);
      return false, s, e, n, Log2(minBlock) - Log2(chunkSize);
    }

    /**
      `drm_buddy_alloc_blocks`, with sizes in bytes. An exact range is handed out if and only if all of it
      is free. Whatever the outcome, the blocks handed out are all that changed, up to the marks of free
      chunks; those change only if merging by force was tried, which takes cleared memory.
     */
    method AllocBlocks(start: nat, end: nat, bytes: nat, minBlock: nat, f: Flags)
      returns (err: Errno, got: seq<Path>, ghost exact: bool, ghost tail: nat, ghost from: nat)
      requires Valid() && PowerOfTwo(chunkSize)
      modifies this`tree, this`freeList, this`avail, this`clearAvail
      ensures Took(exact, got) && (!exact ==> old(clearAvail) > 0) && (err != Ok ==> got == [])
      ensures err == EINVAL <==> Refused(start, end, bytes, minBlock)
      ensures err == EINVAL ==> exact
      ensures err != EINVAL ==>
        var s, e, n, min := start / chunkSize, end / chunkSize, bytes / chunkSize, Log2(minBlock) - Log2(chunkSize);
        n > 0 && min >= 0 && minBlock == Pow2(min) * chunkSize &&
        if s + n == e then
          exact && err == (if AllFree(old(tree), 0, s, e) then Ok else ENOSPC) &&
          (err == Ok ==> Tiles(tree, got, s) && Total(tree, got) == n)
        else Served(old(tree), err, got, exact, tail, from, s, e, n, min, f)
    {
      hide Tiles;
      hide Served;
      err, got, exact, tail, from := EINVAL, [], true, 0, 0;
      SameRootsSelf(tree);
      NothingTaken(true, tree, tree);
      var refused, s, e, n, min := CheckRequest(start, end, bytes, minBlock);
      if refused { return; }
      if s + n == e {
        ghost var t := tree;
        var filled;
        err, filled, got := AllocRange(s, n, false);
        ReleasedTaken(t, tree, got);
      } else {
        err, got, exact, tail, from := AllocChunks(s, e, n, min, f);
      }
    }
  }
}
