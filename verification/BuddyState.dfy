/**
  What the manager's state must satisfy, and how the free lists and counters follow the tree when one
  node changes: the bookkeeping lemmas behind the operations of the allocator.
 */
module BuddyState {
  import opened Powers
  import opened BuddyTree
  import opened BuddyLists
  import opened BuddyCanon
  import opened BuddyRange
  import opened BuddyWork
  import opened BuddyBias

  /** `list_del`: take the entry out of the list. */
  function Without(s: seq<Path>, b: Path): seq<Path> {
    if s == [] then [] else if s[0] == b then s[1..] else [s[0]] + Without(s[1..], b)
  }

  lemma {:induction false} WithoutMiddle(lo: seq<Path>, b: Path, hi: seq<Path>)
    requires b !in lo
    ensures Without(lo + [b] + hi, b) == lo + hi
  {
    if lo == [] {
      assert lo + [b] + hi == [b] + hi;
      assert lo + hi == hi;
    } else {
      WithoutMiddle(lo[1..], b, hi);
      assert (lo + [b] + hi)[1..] == lo[1..] + [b] + hi;
      assert lo + hi == [lo[0]] + (lo[1..] + hi);
    }
  }

  lemma UpdateTwice(s: seq<seq<Path>>, i: nat, x: seq<Path>, y: seq<Path>)
    requires i < |s|
    ensures s[i := x][i := y] == s[i := y]
  {}

  /** Every free list holds the free blocks of its order, in ascending offset. */
  predicate Lists(fl: seq<seq<Path>>, m: nat, t: Tree) {
    |fl| == m + 1 && forall k | 0 <= k <= m :: fl[k] == Frees(t, k)
  }

  predicate Shaped(t: Tree, size: nat, m: nat) {
    WF(t) && (t.Roots? || t.End?) && Aligned(t, 0) && Size(t) == size && Bounded(t, m)
  }

  lemma {:induction false} AlignedStable(t: Tree, u: Tree, base: nat)
    requires SameRoots(t, u) && WF(t) && WF(u) && Aligned(t, base)
    ensures Aligned(u, base)
  {
    if t.Roots? {
      SameRootsSize(t.left, u.left);
      AlignedStable(t.left, u.left, base);
      AlignedStable(t.right, u.right, base + Size(t.left));
    }
  }

  lemma ShapedStable(t: Tree, u: Tree, size: nat, m: nat)
    requires Shaped(t, size, m) && WF(u) && SameRoots(t, u)
    ensures Shaped(u, size, m) && RootPaths(u) == RootPaths(t)
  {
    SameRootsSize(t, u);
    RootsStable(t, u, m);
    AlignedStable(t, u, 0);
  }

  lemma ShapedPut(t: Tree, p: Path, x: Tree, size: nat, m: nat)
    requires Shaped(t, size, m) && BlockAt(t, p) && WF(x) && x.Block?() && x.order == At(t, p).order
    ensures var u := Put(t, p, x);
            Shaped(u, size, m) && SameRoots(t, u) && RootPaths(u) == RootPaths(t) && At(t, p).order <= m
  {
    PutKeeps(t, p, x);
    ShapedStable(t, Put(t, p, x), size, m);
    BoundedAt(t, p, m);
  }

  /** A free block in its list, and the list with the block gone once the node is no longer free. */
  lemma Unlinked(fl: seq<seq<Path>>, m: nat, t: Tree, p: Path, c: bool)
    requires Lists(fl, m, t) && WF(t) && FreeBlockAt(t, p) && At(t, p).order <= m
    ensures var k := At(t, p).order; var lo, hi := Before(t, p, k), Behind(t, p, k);
            fl[k] == lo + [p] + hi && p !in lo && Lists(fl[k := lo + hi], m, Put(t, p, Allocated(k, c)))
  {
    var k := At(t, p).order;
    var x := Allocated(k, c);
    AroundSorted(t, p, k);
    FreesHere(t, p);
    forall i | 0 <= i <= m ensures fl[k := Before(t, p, k) + Behind(t, p, k)][i] == Frees(Put(t, p, x), i) {
      if i == k { PutGap(t, p, x, k); } else { FreesSame(t, p, x, i); }
    }
  }

  /** The place of a block in its list, and the list with the block inserted there. */
  lemma Linked(fl: seq<seq<Path>>, m: nat, t: Tree, p: Path, c: bool)
    requires Lists(fl, m, t) && WF(t) && UsedBlockAt(t, p) && At(t, p).order <= m
    ensures var o := At(t, p).order; var lo, hi := Before(t, p, o), Behind(t, p, o);
            var u := Put(t, p, Free(o, c));
            fl[o] == lo + hi && Has(u, p) && AllBelow(u, lo, Off(u, p)) && AllAbove(u, hi, Off(u, p)) &&
            Lists(fl[o := lo + [p] + hi], m, u)
  {
    var o := At(t, p).order;
    var x := Free(o, c);
    FreesGap(t, p, o);
    Sorted(t, p, x, o);
    forall i | 0 <= i <= m ensures fl[o := Before(t, p, o) + [p] + Behind(t, p, o)][i] == Frees(Put(t, p, x), i) {
      if i == o { PutGap(t, p, x, o); } else { FreesSame(t, p, x, i); }
    }
  }

  /** The neighbours of a node in a list, compared in the tree with the node overwritten. */
  lemma Sorted(t: Tree, p: Path, x: Tree, k: nat)
    requires WF(t) && BlockAt(t, p) && WF(x) && x.Block?() && x.order == At(t, p).order
    ensures var u := Put(t, p, x);
            Has(u, p) && AllBelow(u, Before(t, p, k), Off(u, p)) && AllAbove(u, Behind(t, p, k), Off(u, p)) &&
            AllAbove(u, Behind(t, p, k), Off(u, p) + Pow2(x.order) - 1)
  {
    PutKeeps(t, p, x);
    PutAt(t, p, x);
    AroundPut(t, p, x, k);
    SizeOfBlock(x);
    AroundSorted(Put(t, p, x), p, k);
  }

  lemma HalvedFrees(t: Tree, p: Path, o: nat, c: bool)
    requires Has(t, p) && o > 0
    ensures var u := Put(t, p, Halved(o, c)); var lo, hi := Before(t, p, o - 1), Behind(t, p, o - 1);
            Frees(u, o - 1) == lo + [p + [false]] + [p + [true]] + hi
    ensures forall k :: k != o - 1 ==> Frees(Halved(o, c), k) == []
  {
    var x := Halved(o, c);
    assert Under([false], [[]]) == [[false]] by { assert [false] + [] == [false]; }
    assert Under([true], [[]]) == [[true]] by { assert [true] + [] == [true]; }
    assert Frees(x, o - 1) == [[false], [true]];
    assert Under(p, [[false], [true]]) == [p + [false]] + [p + [true]];
    FreesPut(t, p, x, o - 1);
    var lo, hi := Before(t, p, o - 1), Behind(t, p, o - 1);
    assert lo + ([p + [false]] + [p + [true]]) + hi == lo + [p + [false]] + [p + [true]] + hi;
  }

  /** What splitting does to the lists: the halves are linked in, the block is taken out. */
  lemma SplitLinks(fl: seq<seq<Path>>, m: nat, t: Tree, p: Path, o: nat, c: bool)
    requires Lists(fl, m, t) && WF(t) && Has(t, p) && At(t, p) == Free(o, c) && 0 < o <= m
    ensures var u := Put(t, p, Halved(o, c));
            var lo, hi := Before(t, p, o - 1), Behind(t, p, o - 1);
            fl[o - 1] == lo + hi &&
            fl[o] == Before(t, p, o) + [p] + Behind(t, p, o) && p !in Before(t, p, o) &&
            Lists(fl[o - 1 := lo + [p + [false]] + [p + [true]] + hi][o := Before(t, p, o) + Behind(t, p, o)], m, u)
  {
    var x := Halved(o, c);
    var u := Put(t, p, x);
    FreesGap(t, p, o - 1);
    FreesHere(t, p);
    AroundSorted(t, p, o);
    HalvedFrees(t, p, o, c);
    var lo, hi := Before(t, p, o - 1), Behind(t, p, o - 1);
    var fl' := fl[o - 1 := lo + [p + [false]] + [p + [true]] + hi][o := Before(t, p, o) + Behind(t, p, o)];
    forall k | 0 <= k <= m ensures fl'[k] == Frees(u, k) {
      if k == o { PutGap(t, p, x, o); } else if k != o - 1 { FreesSame(t, p, x, k); }
    }
  }

  lemma SplitSorted(t: Tree, p: Path, o: nat, c: bool)
    requires WF(t) && Has(t, p) && At(t, p) == Free(o, c) && 0 < o
    ensures var u := Put(t, p, Halved(o, c)); var pl, ph := p + [false], p + [true];
            var lo, hi := Before(t, p, o - 1), Behind(t, p, o - 1);
            Has(u, pl) && Has(u, ph) &&
            AllBelow(u, lo, Off(u, pl)) && AllAbove(u, hi, Off(u, pl)) &&
            AllBelow(u, lo + [pl], Off(u, ph)) && AllAbove(u, hi, Off(u, ph))
  {
    var x := Halved(o, c);
    Sorted(t, p, x, o - 1);
    PutChildren(t, p, x);
  }

  /** What merging a block with its buddy does to the lists: the buddy is taken out. */
  lemma MergeLinks(fl: seq<seq<Path>>, m: nat, t: Tree, q: Path, x: Tree)
    requires Lists(fl, m, t) && WF(t) && UsedBlockAt(t, q) && HasParent(t, q)
    requires Has(t, Sibling(q)) && At(t, Sibling(q)).Free? && At(t, q).order <= m && x.Allocated?
    ensures var s := Sibling(q); var o := At(t, s).order; var lo, hi := Before(t, s, o), Behind(t, s, o);
            o == At(t, q).order && fl[o] == lo + [s] + hi && s !in lo &&
            Lists(fl[o := lo + hi], m, Put(t, Parent(q), x))
  {
    var s := Sibling(q);
    var b := At(t, s);
    var y := Allocated(b.order, b.clear);
    ParentFacts(t, q);
    WFAt(t, Parent(q));
    Unlinked(fl, m, t, s, b.clear);
    var u := Put(t, s, y);
    PutBelow(t, Parent(q), [!Last(q)], y);
    OneStepPut(At(t, Parent(q)), !Last(q), y);
    var z := WithChild(At(t, Parent(q)), !Last(q), y);
    PutPut(t, Parent(q), z, x);
    PutAt(t, Parent(q), z);
    forall k | 0 <= k <= m ensures Frees(Put(t, Parent(q), x), k) == Frees(u, k) {
      FreesSame(u, Parent(q), x, k);
    }
  }

  lemma MergeSizes(t: Tree, q: Path, x: Tree)
    requires WF(t) && UsedBlockAt(t, q) && HasParent(t, q)
    requires Has(t, Sibling(q)) && At(t, Sibling(q)).Free? && x.Allocated?
    ensures var b := At(t, Sibling(q)); var u := Put(t, Parent(q), x);
            FreeSize(u) == FreeSize(t) - Pow2(b.order) && b.order == At(t, q).order &&
            At(t, Parent(q)).order == b.order + 1 && Pow2(b.order + 1) == 2 * Pow2(b.order) &&
            ClearSize(u) == ClearSize(t) - if b.clear then Pow2(b.order) else 0
  {
    ParentFacts(t, q);
    WFAt(t, Parent(q));
    SizesPut(t, Parent(q), x);
  }

  /** What giving way to its parent `x` does for the used block `q` and its free buddy. */
  lemma MergeOne(fl: seq<seq<Path>>, m: nat, t: Tree, q: Path, x: Tree, size: nat)
    requires Shaped(t, size, m) && Lists(fl, m, t) && UsedBlockAt(t, q) && HasParent(t, q)
    requires Has(t, Sibling(q)) && At(t, Sibling(q)).Free? &&
             x == Allocated(At(t, q).order + 1, x.Allocated? && x.clear)
    ensures var s := Sibling(q); var o := At(t, s).order; var lo, hi := Before(t, s, o), Behind(t, s, o);
            o == At(t, q).order && o <= m && fl[o] == lo + [s] + hi && s !in lo &&
            Lists(fl[o := lo + hi], m, Put(t, Parent(q), x))
    ensures var u, b := Put(t, Parent(q), x), At(t, Sibling(q));
            Shaped(u, size, m) && SameRoots(t, u) && RootPaths(u) == RootPaths(t) && Has(u, Parent(q)) &&
            At(u, Parent(q)) == x &&
            FreeSize(u) + Pow2(b.order + 1) == FreeSize(t) + Pow2(b.order) &&
            ClearSize(u) == ClearSize(t) - (if b.clear then Pow2(b.order) else 0) &&
            Pow2(b.order + 1) == 2 * Pow2(b.order)
  {
    ParentFacts(t, q);
    MergeSizes(t, q, x);
    ShapedPut(t, q, At(t, q), size, m);
    ShapedPut(t, Parent(q), x, size, m);
    MergeLinks(fl, m, t, q, x);
    PutAt(t, Parent(q), x);
  }

  /** The free lists are a function of the tree. */
  lemma ListsUnique(fl: seq<seq<Path>>, fl': seq<seq<Path>>, m: nat, t: Tree)
    requires Lists(fl, m, t) && Lists(fl', m, t)
    ensures fl == fl'
  {}

  /** Allocated blocks stay where they are when a free block is overwritten. */
  lemma UsedElsewhere(t: Tree, p: Path, x: Tree, ps: seq<Path>)
    requires FreeBlockAt(t, p) && AllUsed(t, ps)
    ensures AllUsed(Put(t, p, x), ps) && (x.Allocated? ==> AllUsed(Put(t, p, x), ps + [p]))
    ensures WF(t) && WF(x) && x.Block?() && x.order == At(t, p).order ==> Total(Put(t, p, x), ps) == Total(t, ps)
  {
    forall i | 0 <= i < |ps|
      ensures UsedBlockAt(Put(t, p, x), ps[i]) && At(Put(t, p, x), ps[i]) == At(t, ps[i]) && ps[i] != p
    {
      LeavesApart(t, p, ps[i]);
      PutApart(t, p, x, ps[i]);
    }
    PutAt(t, p, x);
    SameTotal(t, Put(t, p, x), ps);
  }

  lemma {:induction false} SameTotal(t: Tree, u: Tree, ps: seq<Path>)
    requires forall i | 0 <= i < |ps| :: Has(t, ps[i]) && Has(u, ps[i]) && At(t, ps[i]) == At(u, ps[i])
    ensures Total(t, ps) == Total(u, ps)
  {
    if ps != [] { SameTotal(t, u, ps[1..]); }
  }

  /** The loop of `__alloc_range` is on course for outcome `r`, with the blocks `held` taken so far. */
  predicate OnCourse(r: Outcome, t: Tree, dfs: seq<Path>, held: seq<Path>, s: nat, e: nat, clear: int) {
    WF(t) && Worklist(t, dfs) && AllUsed(t, held) && r == After(held, TakeAll(t, dfs, s, e, clear))
  }

  lemma CourseSkips(r: Outcome, t: Tree, dfs: seq<Path>, held: seq<Path>, s: nat, e: nat, clear: int)
    requires OnCourse(r, t, dfs, held, s, e, clear) && dfs != []
    requires !Overlaps(s, e, Off(t, dfs[0]), Off(t, dfs[0]) + Size(At(t, dfs[0])))
    ensures OnCourse(r, t, dfs[1..], held, s, e, clear) && Effort(t, dfs[1..]) < Effort(t, dfs)
  {
    VisitSkips(t, dfs, s, e, clear);
    var rest := TakeAll(t, dfs[1..], s, e, clear);
    assert [] + rest.taken == rest.taken;
    SameRootsSelf(t);
    EffortSkip(t, t, dfs);
  }

  lemma CourseFails(r: Outcome, t: Tree, dfs: seq<Path>, held: seq<Path>, s: nat, e: nat, clear: int)
    requires OnCourse(r, t, dfs, held, s, e, clear) && dfs != []
    requires var p := dfs[0]; var x := At(t, p); var a, b := Off(t, p), Off(t, p) + Size(x);
             Overlaps(s, e, a, b) && (x.Allocated? || (x.Split? && Contains(s, e, a, b) && clear == 0))
    ensures r == Outcome(false, t, held, clear)
  {
    VisitFails(t, dfs, s, e, clear);
    assert held + [] == held;
  }

  lemma CourseTakes(r: Outcome, t: Tree, dfs: seq<Path>, held: seq<Path>, s: nat, e: nat, clear: int)
    requires OnCourse(r, t, dfs, held, s, e, clear) && dfs != [] && At(t, dfs[0]).Free?
    requires var p := dfs[0]; var x := At(t, p);
             Overlaps(s, e, Off(t, p), Off(t, p) + Pow2(x.order)) &&
             Contains(s, e, Off(t, p), Off(t, p) + Pow2(x.order))
    ensures var p := dfs[0]; var x := At(t, p); var u := Put(t, p, Allocated(x.order, x.clear));
            OnCourse(r, u, dfs[1..], held + [p], s, e, clear - if x.clear then Pow2(x.order) else 0) &&
            Effort(u, dfs[1..]) < Effort(t, dfs) && Total(u, held + [p]) == Total(t, held) + Pow2(x.order)
  {
    hide TakeAll;
    TakenTotal(t, dfs[0], held);
    TakesNext(r, t, dfs, held, s, e, clear);
  }

  lemma TakesNext(r: Outcome, t: Tree, dfs: seq<Path>, held: seq<Path>, s: nat, e: nat, clear: int)
    requires WF(t) && Worklist(t, dfs) && r == After(held, TakeAll(t, dfs, s, e, clear)) && dfs != [] &&
             At(t, dfs[0]).Free?
    requires var p := dfs[0]; var x := At(t, p);
             Overlaps(s, e, Off(t, p), Off(t, p) + Pow2(x.order)) &&
             Contains(s, e, Off(t, p), Off(t, p) + Pow2(x.order))
    ensures var p := dfs[0]; var x := At(t, p); var u := Put(t, p, Allocated(x.order, x.clear));
            WF(u) && Worklist(u, dfs[1..]) && Effort(u, dfs[1..]) < Effort(t, dfs) &&
            r == After(held + [p], TakeAll(u, dfs[1..], s, e, clear - if x.clear then Pow2(x.order) else 0))
  {
    hide TakeAll;
    var p := dfs[0];
    var x := At(t, p);
    var y := Allocated(x.order, x.clear);
    VisitTakes(t, dfs, s, e, clear);
    SameRootsPut(t, p, y);
    EffortSkip(t, Put(t, p, y), dfs);
    AfterAfter(held, [p], TakeAll(Put(t, p, y), dfs[1..], s, e, clear - if x.clear then Pow2(x.order) else 0));
  }

  lemma SameRootsPut(t: Tree, p: Path, y: Tree)
    requires WF(t) && FreeBlockAt(t, p) && y.Allocated? && y.order == At(t, p).order
    ensures SameRoots(t, Put(t, p, y))
  {
    PutKeeps(t, p, y);
  }

  lemma AfterAfter(a: seq<Path>, b: seq<Path>, r: Outcome)
    ensures After(a, After(b, r)) == After(a + b, r)
  {
    assert a + (b + r.taken) == (a + b) + r.taken;
  }

  lemma TakenTotal(t: Tree, p: Path, held: seq<Path>)
    requires WF(t) && FreeBlockAt(t, p) && AllUsed(t, held)
    ensures var x := At(t, p); var u := Put(t, p, Allocated(x.order, x.clear));
            AllUsed(u, held + [p]) && Total(u, held + [p]) == Total(t, held) + Pow2(x.order)
  {
    var x := At(t, p);
    var y := Allocated(x.order, x.clear);
    var u := Put(t, p, y);
    UsedElsewhere(t, p, y, held);
    PutAt(t, p, y);
    TotalJoin(u, held, [p]);
    assert Total(u, [p]) == SizeAt(u, p) + Total(u, []);
  }

  lemma CourseOpens(r: Outcome, t: Tree, dfs: seq<Path>, held: seq<Path>, s: nat, e: nat, clear: int, u: Tree)
    requires OnCourse(r, t, dfs, held, s, e, clear) && dfs != []
    requires WF(u) && u.Split? && u.order == At(t, dfs[0]).order && (At(t, dfs[0]).Free? || u == At(t, dfs[0]))
    requires OpensTo(At(t, dfs[0]), u, Off(t, dfs[0]), s, e, clear)
    ensures var p := dfs[0]; var v := Put(t, p, u); var rest := [p + [false], p + [true]] + dfs[1..];
            OnCourse(r, v, rest, held, s, e, clear) && Effort(v, rest) < Effort(t, dfs) &&
            Total(v, held) == Total(t, held)
  {
    var p := dfs[0];
    TakeAllOpens(t, dfs, u, s, e, clear);
    PutKeeps(t, p, u);
    if At(t, p).Free? {
      UsedElsewhere(t, p, u, held);
    } else {
      PutPut(t, p, u, u);
    }
    EffortPush(t, Put(t, p, u), dfs);
  }

  // ---------- Picking from the free lists ----------

  /** Once the free block `p` is used, the tree is canonical. */
  predicate ReadyToUse(t: Tree, p: Path) {
    FreeBlockAt(t, p) && Maximal(Put(t, p, Allocated(At(t, p).order, At(t, p).clear)))
  }

  lemma ReadyInCanonical(t: Tree, p: Path)
    requires Maximal(t) && FreeBlockAt(t, p)
    ensures ReadyToUse(t, p)
  {
    MaximalPut(t, p, Allocated(At(t, p).order, At(t, p).clear));
  }

  /** Splitting the chosen block and going on with its right half. */
  lemma SplitDown(t: Tree, p: Path)
    requires WF(t) && ReadyToUse(t, p) && At(t, p).order > 0
    ensures var o, c := At(t, p).order, At(t, p).clear; var u := Put(t, p, Halved(o, c)); var q := p + [true];
            ReadyToUse(u, q) && At(u, q) == Free(o - 1, c) && SameChunks(t, u) &&
            Off(u, q) + Pow2(o - 1) == Off(t, p) + Pow2(o)
  {
    var o, c := At(t, p).order, At(t, p).clear;
    var x := Halved(o, c);
    var u := Put(t, p, x);
    PutChildren(t, p, x);
    OffPutSelf(t, p, x);
    SplitKeepsChunks(t, p, x);
    var y := Split(o, false, Free(o - 1, c), Allocated(o - 1, c));
    PutTwo(t, p, x, x.left, y.right);
    OneStepPut(x, false, x.left);
    var v := Put(t, p, Allocated(o, c));
    PutPut(t, p, Allocated(o, c), y);
    PutAt(t, p, Allocated(o, c));
    MaximalPut(v, p, y);
    PutAt(t, p, x);
    PutBelow(u, p, [true], y.right);
    OneStepPut(x, true, y.right);
    PutPut(t, p, x, y);
  }

  lemma SplitKeepsChunks(t: Tree, p: Path, x: Tree)
    requires WF(t) && FreeBlockAt(t, p) && At(t, p).order > 0 && x == Halved(At(t, p).order, At(t, p).clear)
    ensures SameChunks(t, Put(t, p, x))
  {
    PutKeeps(t, p, x);
    WFAt(t, p);
    forall i: nat | i < Size(t) ensures ChunkAt(t, i) == ChunkAt(Put(t, p, x), i) {
      ChunkPut(t, p, x, i);
      if Off(t, p) <= i < Off(t, p) + Size(x) { ChunkWithin(t, p, i - Off(t, p)); }
    }
  }

  /** A free block large enough, with the preferred mark. */
  predicate Eligible(t: Tree, q: Path, order: nat, clear: bool) {
    FreeBlockAt(t, q) && At(t, q).order >= order && At(t, q).clear == clear
  }

  /** `a` comes before `b` in the order of preference: smaller block first, then the higher address. */
  predicate Prefers(t: Tree, a: Path, b: Path)
    requires Has(t, a) && Has(t, b) && At(t, a).Free? && At(t, b).Free?
  {
    At(t, a).order < At(t, b).order || (At(t, a).order == At(t, b).order && Off(t, a) >= Off(t, b))
  }

  /** What the choice from the free lists promises about the chosen block `b`. */
  ghost predicate Chosen(t: Tree, b: Path, order: nat, clear: bool, topDown: bool) {
    FreeBlockAt(t, b) && At(t, b).order >= order &&
    (At(t, b).clear == clear || forall q :: !Eligible(t, q, order, clear)) &&
    (At(t, b).clear == clear && topDown ==> forall q | Eligible(t, q, order, clear) :: Off(t, q) <= Off(t, b)) &&
    (At(t, b).clear == clear && !topDown ==> forall q | Eligible(t, q, order, clear) :: Prefers(t, b, q)) &&
    (At(t, b).clear != clear ==> forall q | FreeBlockAt(t, q) && At(t, q).order >= order :: Prefers(t, b, q))
  }

  // ---------- Exact ranges of the whole device ----------

  /** What the traversal of all roots comes to. */
  lemma RangeLaw(t: Tree, s: nat, e: nat, clear: int)
    requires WF(t) && (t.Roots? || t.End?) && Maximal(t) && s < e && clear == ClearSize(t)
    ensures Worklist(t, RootPaths(t))
    ensures var r := TakeAll(t, RootPaths(t), s, e, clear);
            AllUsed(r.tree, r.taken) && Released(r.tree, r.taken, Keep) == t && Maximal(r.tree) &&
            TookRun(FreeSize(t), Clamp(s, Size(t)), Clamp(e, Size(t)), r) && (r.ok <==> AllFree(t, 0, s, e)) &&
            r == Take(t, 0, s, e, clear)
  {
    assert At(t, []) == t && Off(t, []) == 0;
    UnderUnder([], [], RootPaths(t));
    TakeAllRoots(t, [], s, e, clear);
    var r := Take(t, 0, s, e, clear);
    UnderUnder([], [], r.taken);
    assert TakeAll(t, RootPaths(t), s, e, clear) == r;
    TakeUndone(t, s, e, clear);
    TakeMaximal(t, 0, s, e, clear);
    TakeTiles(t, 0, s, e, clear);
    TakeSucceeds(t, 0, s, e, clear);
  }

  /** The same for a range of `n` chunks: it is complete just when all of it exists and is free. */
  lemma RangeResult(t: Tree, s: nat, n: nat, clear: int) returns (r: Outcome)
    requires WF(t) && (t.Roots? || t.End?) && Maximal(t) && n > 0 && clear == ClearSize(t)
    ensures Worklist(t, RootPaths(t)) && r == TakeAll(t, RootPaths(t), s, s + n, clear) == Take(t, 0, s, s + n, clear)
    ensures AllUsed(r.tree, r.taken) && Released(r.tree, r.taken, Keep) == t && Maximal(r.tree)
    ensures r.ok && Total(r.tree, r.taken) >= n <==> s + n <= Size(t) && AllFree(t, 0, s, s + n)
    ensures Total(r.tree, r.taken) <= n && FreeSize(t) - FreeSize(r.tree) == Total(r.tree, r.taken)
    ensures s < Size(t) ==> Tiles(r.tree, r.taken, s)
  {
    RangeLaw(t, s, s + n, clear);
    r := TakeAll(t, RootPaths(t), s, s + n, clear);
    RunOfRange(FreeSize(t), Size(t), s, n, r);
  }

  lemma RunOfRange(free: nat, size: nat, s: nat, n: nat, r: Outcome)
    requires n > 0 && TookRun(free, Clamp(s, size), Clamp(s + n, size), r)
    ensures Total(r.tree, r.taken) <= n && free - FreeSize(r.tree) == Total(r.tree, r.taken)
    ensures Total(r.tree, r.taken) >= n ==> s + n <= size
    ensures r.ok && s + n <= size ==> Total(r.tree, r.taken) == n
    ensures s < size ==> Tiles(r.tree, r.taken, s)
  {}
}
