/** Allocations in progress: the tree before and after a list of blocks was taken. */
module BuddyHeld {
  import opened Common
  import opened Powers
  import opened BuddyTree
  import opened BuddyLists
  import opened BuddyCanon
  import opened BuddyRange
  import opened BuddyState
  import opened BuddyMerge

  /** What may happen to a chunk; free chunks keep their mark if `exact`. */
  predicate ChunkTaken(exact: bool, before: Chunk, after: Chunk, taken: bool) {
    if before.FreeChunk? then after.FreeChunk? != taken && (exact ==> after.clear == before.clear)
    else after == before && !taken
  }

  /** `t` is `t0` with the blocks `held` taken out of free space, and nothing else changed. */
  predicate Taken(exact: bool, t0: Tree, t: Tree, held: seq<Path>) {
    AllUsed(t, held) && Size(t0) == Size(t) &&
    forall i: nat | i < Size(t) :: ChunkTaken(exact, ChunkAt(t0, i), ChunkAt(t, i), Covered(t, held, i))
  }

  /** Chunks in use stay as they are. */
  predicate KeepsUsed(t: Tree, u: Tree) {
    Size(t) == Size(u) && forall i: nat | i < Size(t) :: ChunkAt(t, i).UsedChunk? ==> ChunkAt(u, i) == ChunkAt(t, i)
  }

  lemma KeepsUsedHalves(t: Tree, u: Tree)
    requires t.Inner?() && u.Inner?() && KeepsUsed(t, u) && Size(t.left) == Size(u.left)
    ensures KeepsUsed(t.left, u.left) && KeepsUsed(t.right, u.right)
  {
    forall i: nat | i < Size(t.left) && ChunkAt(t.left, i).UsedChunk? ensures ChunkAt(u.left, i) == ChunkAt(t.left, i) {
      assert ChunkAt(t, i) == ChunkAt(t.left, i) && ChunkAt(u, i) == ChunkAt(u.left, i);
    }
    forall i: nat | i < Size(t.right) && ChunkAt(t.right, i).UsedChunk?
      ensures ChunkAt(u.right, i) == ChunkAt(t.right, i)
    {
      var j := Size(t.left) + i;
      assert ChunkAt(t, j) == ChunkAt(t.right, i) && ChunkAt(u, j) == ChunkAt(u.right, i);
    }
  }

  /** An allocated block can be read off its chunks, so it survives whatever leaves used chunks alone. */
  lemma {:induction false} UsedStays(t: Tree, u: Tree, p: Path)
    requires WF(t) && WF(u) && SameRoots(t, u) && UsedBlockAt(t, p) && KeepsUsed(t, u)
    ensures UsedBlockAt(u, p) && At(u, p) == At(t, p) && Off(u, p) == Off(t, p)
  {
    if p == [] {
      SizeOfBlock(u);
      assert ChunkAt(t, 0) == UsedChunk(t.order, t.clear) == ChunkAt(u, 0);
      if u.Split? { ChunkOrder(u, 0); }
    } else {
      var i := Off(t, p);
      WFAt(t, p);
      SizeOfBlock(At(t, p));
      ChunkWithin(t, p, 0);
      if t.Split? { ChunkOrder(t, i); }
      assert u.Inner?();
      if t.Split? { SizeOfBlock(t.left); SizeOfBlock(u.left); } else { SameRootsSize(t.left, u.left); }
      KeepsUsedHalves(t, u);
      UsedStays(Child(t, p[0]), Child(u, p[0]), p[1..]);
    }
  }

  lemma AllUsedStay(t: Tree, u: Tree, ps: seq<Path>)
    requires WF(t) && WF(u) && SameRoots(t, u) && AllUsed(t, ps) && KeepsUsed(t, u)
    ensures AllUsed(u, ps) && Total(u, ps) == Total(t, ps)
    ensures forall i | 0 <= i < |ps| :: At(u, ps[i]) == At(t, ps[i]) && Off(u, ps[i]) == Off(t, ps[i])
    ensures forall i: nat :: Covered(u, ps, i) <==> Covered(t, ps, i)
  {
    forall j | 0 <= j < |ps|
      ensures UsedBlockAt(u, ps[j]) && At(u, ps[j]) == At(t, ps[j]) && Off(u, ps[j]) == Off(t, ps[j])
    {
      UsedStays(t, u, ps[j]);
    }
    SameTotal(t, u, ps);
    forall i: nat ensures Covered(u, ps, i) <==> Covered(t, ps, i) {
      forall j | 0 <= j < |ps| ensures Covers(u, ps[j], i) <==> Covers(t, ps[j], i) {}
    }
  }

  lemma TakenKeepsUsed(exact: bool, t: Tree, u: Tree, ps: seq<Path>)
    requires Taken(exact, t, u, ps)
    ensures KeepsUsed(t, u)
  {
    forall i: nat | i < Size(t) && ChunkAt(t, i).UsedChunk? ensures ChunkAt(u, i) == ChunkAt(t, i) {
      assert ChunkTaken(exact, ChunkAt(t, i), ChunkAt(u, i), Covered(u, ps, i));
    }
  }

  lemma CoveredJoin(t: Tree, a: seq<Path>, b: seq<Path>, i: nat)
    requires AllUsed(t, a) && AllUsed(t, b) && AllUsed(t, a + b)
    ensures Covered(t, a + b, i) <==> Covered(t, a, i) || Covered(t, b, i)
  {
    if Covered(t, a, i) {
      var j :| 0 <= j < |a| && Covers(t, a[j], i);
      assert Covers(t, (a + b)[j], i);
    }
    if Covered(t, b, i) {
      var j :| 0 <= j < |b| && Covers(t, b[j], i);
      assert Covers(t, (a + b)[|a| + j], i);
    }
    if Covered(t, a + b, i) {
      var j :| 0 <= j < |a + b| && Covers(t, (a + b)[j], i);
      if j < |a| { assert Covers(t, a[j], i); } else { assert Covers(t, b[j - |a|], i); }
    }
  }

  /** A block of `b` was not used before `b` was taken, so it is none of the blocks `a`. */
  lemma HeldDiffer(exact: bool, t: Tree, u: Tree, a: seq<Path>, b: seq<Path>)
    requires WF(t) && WF(u) && SameRoots(t, u) && AllUsed(t, a) && AllUsed(u, a) && Taken(exact, t, u, b)
    ensures AllUsed(u, a + b) && AllUsed(u, b + a)
  {
    forall i, j | 0 <= i < |a| && 0 <= j < |b| ensures a[i] != b[j] {
      UsedAtStart(t, a[i]);
      TakenWasFree(exact, t, u, b, j);
      if a[i] == b[j] { OffStable(t, u, a[i]); }
    }
    NoDupJoin(a, b);
    NoDupJoin(b, a);
  }

  lemma UsedAtStart(t: Tree, p: Path)
    requires WF(t) && UsedBlockAt(t, p)
    ensures Off(t, p) < Size(t) && ChunkAt(t, Off(t, p)) == UsedChunk(At(t, p).order, At(t, p).clear)
  {
    WFAt(t, p);
    ChunkWithin(t, p, 0);
  }

  lemma TakenWasFree(exact: bool, t: Tree, u: Tree, b: seq<Path>, j: nat)
    requires WF(u) && Taken(exact, t, u, b) && j < |b|
    ensures Off(u, b[j]) < Size(t) && ChunkAt(t, Off(u, b[j])).FreeChunk?
  {
    var k := Off(u, b[j]);
    UsedAtStart(u, b[j]);
    assert Covers(u, b[j], k);
    assert ChunkTaken(exact, ChunkAt(t, k), ChunkAt(u, k), Covered(u, b, k));
  }

  /** Taking `a` and then `b` is taking both. */
  lemma TakenTrans(exact: bool, t0: Tree, t: Tree, a: seq<Path>, u: Tree, b: seq<Path>)
    requires WF(t) && WF(u) && SameRoots(t, u) && Taken(exact, t0, t, a) && Taken(exact, t, u, b)
    ensures Taken(exact, t0, u, a + b) && Taken(exact, t0, u, b + a) && Total(u, a + b) == Total(t, a) + Total(u, b)
    ensures forall i | 0 <= i < |a| ::
              UsedBlockAt(u, a[i]) && At(u, a[i]) == At(t, a[i]) && Off(u, a[i]) == Off(t, a[i])
  {
    TakenKeepsUsed(exact, t, u, b);
    AllUsedStay(t, u, a);
    HeldDiffer(exact, t, u, a, b);
    TotalJoin(u, a, b);
    forall i: nat | i < Size(u)
      ensures ChunkTaken(exact, ChunkAt(t0, i), ChunkAt(u, i), Covered(u, a + b, i))
      ensures ChunkTaken(exact, ChunkAt(t0, i), ChunkAt(u, i), Covered(u, b + a, i))
    {
      CoveredJoin(u, a, b, i);
      CoveredJoin(u, b, a, i);
      assert ChunkTaken(exact, ChunkAt(t0, i), ChunkAt(t, i), Covered(t, a, i));
      assert ChunkTaken(exact, ChunkAt(t, i), ChunkAt(u, i), Covered(u, b, i));
      if Covered(t, a, i) { CoveredIsUsed(t, a, i); }
    }
  }

  lemma CoveredIsUsed(t: Tree, ps: seq<Path>, i: nat)
    requires WF(t) && AllUsed(t, ps) && i < Size(t) && Covered(t, ps, i)
    ensures ChunkAt(t, i).UsedChunk?
  {
    var j :| 0 <= j < |ps| && Covers(t, ps[j], i);
    ChunkWithin(t, ps[j], i - Off(t, ps[j]));
  }

  lemma NothingTaken(exact: bool, t: Tree, u: Tree)
    requires if exact then SameChunks(t, u) else SameUse(t, u)
    ensures Taken(exact, t, u, [])
  {
    forall i: nat | i < Size(u) ensures ChunkTaken(exact, ChunkAt(t, i), ChunkAt(u, i), Covered(u, [], i)) {
      assert !exact ==> if ChunkAt(t, i).FreeChunk? then ChunkAt(u, i).FreeChunk? else ChunkAt(u, i) == ChunkAt(t, i);
    }
  }

  lemma TakenUsed(exact: bool, t: Tree, u: Tree, got: seq<Path>)
    requires Taken(exact, t, u, got)
    ensures AllUsed(u, got)
  {}

  lemma TakenLoosely(t: Tree, u: Tree, ps: seq<Path>)
    requires Taken(true, t, u, ps)
    ensures Taken(false, t, u, ps)
  {
    forall i: nat | i < Size(u) ensures ChunkTaken(false, ChunkAt(t, i), ChunkAt(u, i), Covered(u, ps, i)) {
      assert ChunkTaken(true, ChunkAt(t, i), ChunkAt(u, i), Covered(u, ps, i));
    }
  }

  lemma BlockTaken(t: Tree, p: Path)
    requires WF(t) && FreeBlockAt(t, p)
    ensures var u := Put(t, p, Allocated(At(t, p).order, At(t, p).clear)); Taken(true, t, u, [p])
  {
    var x := Allocated(At(t, p).order, At(t, p).clear);
    var u := Put(t, p, x);
    PutKeeps(t, p, x);
    PutAt(t, p, x);
    OffStable(t, u, p);
    forall i: nat | i < Size(u) ensures ChunkTaken(true, ChunkAt(t, i), ChunkAt(u, i), Covered(u, [p], i)) {
      ChunkPut(t, p, x, i);
      if Off(t, p) <= i < Off(t, p) + Size(x) {
        assert Covers(u, [p][0], i);
        ChunkWithin(t, p, i - Off(t, p));
      }
    }
  }

  /** A list that is released to give back `t` was taken from `t`. */
  lemma ReleasedTaken(t: Tree, u: Tree, ps: seq<Path>)
    requires WF(u) && AllUsed(u, ps) && Released(u, ps, Keep) == t
    ensures Taken(true, t, u, ps)
  {
    ReleasedChunks(u, ps, Keep);
    forall i: nat | i < Size(u) ensures ChunkTaken(true, ChunkAt(t, i), ChunkAt(u, i), Covered(u, ps, i)) {
      if Covered(u, ps, i) { CoveredIsUsed(u, ps, i); }
    }
  }

  /** Releasing undoes taking: node for node if nothing was marked, else up to the marks of free chunks. */
  lemma TakenReleased(exact: bool, t: Tree, u: Tree, ps: seq<Path>, m: Marking)
    requires WF(t) && WF(u) && Maximal(t) && Maximal(u) && SameRoots(t, u) && Taken(exact, t, u, ps)
    ensures var r := Released(u, ps, m); SameUse(t, r) && (exact && m == Keep ==> r == t)
  {
    ReleasedChunks(u, ps, m);
    var r := Released(u, ps, m);
    forall i: nat | i < Size(t)
      ensures if ChunkAt(t, i).FreeChunk? then ChunkAt(r, i).FreeChunk? else ChunkAt(r, i) == ChunkAt(t, i)
      ensures exact ==> ChunkAt(t, i) == if Covered(u, ps, i) then FreeChunk(ChunkAt(u, i).clear) else ChunkAt(u, i)
    {
      assert ChunkTaken(exact, ChunkAt(t, i), ChunkAt(u, i), Covered(u, ps, i));
    }
    if exact && m == Keep { RollbackRestores(t, u, ps); }
  }

  // ---------- Runs of blocks ----------

  lemma {:induction false} TilesStay(t: Tree, u: Tree, ps: seq<Path>, a: int)
    requires Tiles(t, ps, a)
    requires forall i | 0 <= i < |ps| ::
               Has(t, ps[i]) && Has(u, ps[i]) && At(u, ps[i]) == At(t, ps[i]) && Off(u, ps[i]) == Off(t, ps[i])
    ensures Tiles(u, ps, a)
  {
    if ps != [] { TilesStay(t, u, ps[1..], a + Size(At(t, ps[0]))); }
  }

  /** A run of taken blocks lies inside the device, on chunks that were free. */
  /** Taking a run leaves what is below it as it was. */
  lemma LeftUntouched(t: Tree, u: Tree, ps: seq<Path>, s: nat, lo: nat)
    requires WF(u) && Taken(true, t, u, ps) && Tiles(u, ps, s)
    ensures AllFree(t, 0, lo, s) <==> AllFree(u, 0, lo, s)
  {
    forall i: nat | i < Size(t) && lo <= 0 + i < s
      ensures ChunkAt(t, i).FreeChunk? <==> ChunkAt(u, i).FreeChunk?
    {
      TilesCover(u, ps, s, i);
      assert ChunkTaken(true, ChunkAt(t, i), ChunkAt(u, i), Covered(u, ps, i));
    }
  }

  lemma RunWasFree(t: Tree, u: Tree, ps: seq<Path>, s: nat)
    requires WF(u) && Taken(true, t, u, ps) && Tiles(u, ps, s)
    ensures AllFree(t, 0, s, s + Total(u, ps))
    ensures Size(u) == Size(t) && (Total(u, ps) > 0 ==> s + Total(u, ps) <= Size(t))
  {
    forall i: nat | i < Size(t) && s <= 0 + i < s + Total(u, ps) ensures ChunkAt(t, i).FreeChunk? {
      TilesCover(u, ps, s, i);
      assert ChunkTaken(true, ChunkAt(t, i), ChunkAt(u, i), Covered(u, ps, i));
    }
    RunInside(u, ps, s);
  }

  lemma RunInside(u: Tree, ps: seq<Path>, s: nat)
    requires WF(u) && AllUsed(u, ps) && Tiles(u, ps, s)
    ensures Total(u, ps) > 0 ==> s + Total(u, ps) <= Size(u)
  {
    if Total(u, ps) > 0 {
      var i := s + Total(u, ps) - 1;
      TilesCover(u, ps, s, i);
      var j :| 0 <= j < |ps| && Covers(u, ps[j], i);
      WFAt(u, ps[j]);
    }
  }

  /** Two runs that meet form one; `left` was taken after `right`. */
  lemma RunsMeet(t0: Tree, t: Tree, right: seq<Path>, u: Tree, left: seq<Path>, from: int, mid: int)
    requires WF(t) && WF(u) && SameRoots(t, u) && Taken(true, t0, t, right) && Taken(true, t, u, left)
    requires Tiles(t, right, mid) && Tiles(u, left, from) && from + Total(u, left) == mid
    ensures Taken(true, t0, u, left + right) && Tiles(u, left + right, from)
    ensures Total(u, left + right) == Total(u, left) + Total(t, right)
  {
    TakenTrans(true, t0, t, right, u, left);
    TilesStay(t, u, right, mid);
    TilesJoin(u, left, right, from);
    TotalJoin(u, left, right);
    TotalJoin(u, right, left);
  }

  lemma ChunksAreUse(t: Tree, u: Tree)
    requires SameChunks(t, u)
    ensures SameUse(t, u)
  {
    forall i: nat | i < Size(t)
      ensures if ChunkAt(t, i).FreeChunk? then ChunkAt(u, i).FreeChunk? else ChunkAt(u, i) == ChunkAt(t, i)
    {
      assert ChunkAt(t, i) == ChunkAt(u, i);
    }
  }

  /** A block was found after some splitting or merging, and then taken. */
  lemma GrabTaken(exact: bool, t: Tree, u: Tree, p: Path)
    requires WF(t) && WF(u) && SameRoots(t, u) && SameUse(t, u) && (exact ==> SameChunks(t, u)) && FreeBlockAt(u, p)
    ensures var v := Put(u, p, Allocated(At(u, p).order, At(u, p).clear));
            Taken(exact, t, v, [p]) && UsedBlockAt(v, p) && At(v, p).order == At(u, p).order &&
            At(v, p).clear == At(u, p).clear && Off(v, p) == Off(u, p) &&
            Total(v, [p]) == Pow2(At(u, p).order)
  {
    var x := Allocated(At(u, p).order, At(u, p).clear);
    var v := Put(u, p, x);
    NothingTaken(exact, t, u);
    BlockTaken(u, p);
    if !exact { TakenLoosely(u, v, [p]); }
    PutKeeps(u, p, x);
    PutAt(u, p, x);
    OffStable(u, v, p);
    TakenTrans(exact, t, u, [], v, [p]);
    assert [] + [p] == [p];
    assert Total(v, [p]) == SizeAt(v, p) + Total(v, []);
  }

  lemma {:induction false} FreeAtSize(t: Tree, p: Path, c: bool)
    requires WF(t) && UsedBlockAt(t, p)
    ensures FreeSize(FreeAt(false, t, p, c)) == FreeSize(t) + Pow2(At(t, p).order)
    ensures ClearSize(FreeAt(false, t, p, c)) == ClearSize(t) + if c then Pow2(At(t, p).order) else 0
  {
    if p != [] {
      var x := Child(t, p[0]);
      FreeAtSize(x, p[1..], c);
      FreeAtKeeps(false, x, p[1..], c);
      JoinSize(WithChild(t, p[0], FreeAt(false, x, p[1..], c)));
    }
  }

  lemma JoinSize(t: Tree)
    requires t.Split? ==>
               t.order > 0 && t.left.Block?() && t.right.Block?() && t.left.order == t.right.order == t.order - 1
    ensures FreeSize(Join(false, t)) == FreeSize(t) && ClearSize(Join(false, t)) == ClearSize(t)
  {}

  /** What is released is added to the free memory, and to the cleared memory if it is marked so. */
  lemma {:induction false} ReleasedSize(t: Tree, ps: seq<Path>, m: Marking)
    requires WF(t) && AllUsed(t, ps)
    ensures FreeSize(Released(t, ps, m)) == FreeSize(t) + Total(t, ps)
    ensures m.MarkClear? ==> ClearSize(Released(t, ps, m)) == ClearSize(t) + Total(t, ps)
    ensures m.MarkDirty? ==> ClearSize(Released(t, ps, m)) == ClearSize(t)
    decreases |ps|
  {
    if ps != [] {
      var p, c := ps[0], NewMark(m, At(t, ps[0]).clear);
      var v := FreeAt(false, t, p, c);
      ReleaseRest(t, ps, c);
      FreeAtKeeps(false, t, p, c);
      FreeAtSize(t, p, c);
      ReleasedSize(v, ps[1..], m);
      forall i | 0 <= i < |ps[1..]|
        ensures Has(t, ps[1..][i]) && Has(v, ps[1..][i]) && At(t, ps[1..][i]) == At(v, ps[1..][i])
      {
        Differ(ps, 0, 1 + i);
        FreeAtOthers(false, t, p, c, ps[1 + i]);
      }
      SameTotal(t, v, ps[1..]);
    }
  }

  // ---------- Collecting blocks ----------

  /** The blocks have at least the order `min` and, if `ranged`, lie in `[lo, hi)`. */
  predicate Fitting(t: Tree, ps: seq<Path>, min: nat, ranged: bool, lo: nat, hi: nat) {
    forall i | 0 <= i < |ps| ::
      BlockAt(t, ps[i]) && At(t, ps[i]).order >= min &&
      (ranged ==> lo <= Off(t, ps[i]) && Off(t, ps[i]) + Pow2(At(t, ps[i]).order) <= hi)
  }

  lemma FittingStays(t: Tree, u: Tree, ps: seq<Path>, min: nat, ranged: bool, lo: nat, hi: nat)
    requires Fitting(t, ps, min, ranged, lo, hi)
    requires forall i | 0 <= i < |ps| ::
               BlockAt(u, ps[i]) && At(u, ps[i]) == At(t, ps[i]) && Off(u, ps[i]) == Off(t, ps[i])
    ensures Fitting(u, ps, min, ranged, lo, hi)
  {}

  lemma FittingMore(t: Tree, ps: seq<Path>, p: Path, min: nat, ranged: bool, lo: nat, hi: nat)
    requires Fitting(t, ps, min, ranged, lo, hi) && Fitting(t, [p], min, ranged, lo, hi)
    ensures Fitting(t, ps + [p], min, ranged, lo, hi)
  {
    forall i | 0 <= i < |ps + [p]|
      ensures var q := (ps + [p])[i];
              BlockAt(t, q) && At(t, q).order >= min &&
              (ranged ==> lo <= Off(t, q) && Off(t, q) + Pow2(At(t, q).order) <= hi)
    {
      if i < |ps| { assert (ps + [p])[i] == ps[i]; } else { assert (ps + [p])[i] == [p][0]; }
    }
  }

  /** Two rounds of taking, either of which may have merged blocks by force. */
  lemma GrabMore(x: bool, t0: Tree, t: Tree, a: seq<Path>, y: bool, u: Tree, b: seq<Path>)
    requires WF(t) && WF(u) && SameRoots(t, u) && Taken(x, t0, t, a) && Taken(y, t, u, b)
    ensures Taken(x && y, t0, u, a + b) && Total(u, a + b) == Total(t, a) + Total(u, b)
    ensures forall i | 0 <= i < |a| :: BlockAt(u, a[i]) && At(u, a[i]) == At(t, a[i]) && Off(u, a[i]) == Off(t, a[i])
  {
    if x && !y { TakenLoosely(t0, t, a); }
    if y && !x { TakenLoosely(t, u, b); }
    TakenTrans(x && y, t0, t, a, u, b);
  }

  lemma PagesOrder(pages: nat, min: nat)
    requires pages > 0 && Multiple(pages, Pow2(min))
    ensures Log2(pages) >= min
  {
    PagesAtLeast(pages, min);
    if Log2(pages) < min { Pow2Monotone(Log2(pages), min); }
  }

  lemma PagesAtLeast(pages: nat, min: nat)
    requires pages > 0 && Multiple(pages, Pow2(min))
    ensures pages >= Pow2(min)
  {
    MultipleIs(0, Pow2(min));
    MultiplesApart(0, pages, Pow2(min));
  }

  lemma PagesLeft(pages: nat, min: nat, order: nat)
    requires pages > 0 && Multiple(pages, Pow2(min)) && min <= order <= Log2(pages)
    ensures Pow2(order) <= pages && Multiple(pages - Pow2(order), Pow2(min)) && Pow2(min) <= Pow2(order)
  {
    Pow2Monotone(order, Log2(pages));
    Pow2Monotone(min, order);
    MultipleIs(1, Pow2(order));
    MultipleOfSmaller(Pow2(order), min, order);
    MultipleSum(pages, Pow2(order), Pow2(min));
  }

  /** Blocks of at least `2^min` chunks that add up to `2^min` are one block. */
  lemma OneBlock(t: Tree, ps: seq<Path>, min: nat, ranged: bool, lo: nat, hi: nat)
    requires WF(t) && Aligned(t, 0) && Fitting(t, ps, min, ranged, lo, hi) && AllUsed(t, ps) &&
             Total(t, ps) == Pow2(min)
    ensures |ps| == 1 && Multiple(Off(t, ps[0]), Pow2(min))
  {
    assert ps != [];
    SizeAtLeast(t, ps[0], min);
    if |ps| > 1 {
      assert ps[1..][0] == ps[1];
      SizeAtLeast(t, ps[1], min);
    }
    NaturalAlignment(t, 0, ps[0]);
    MultipleOfSmaller(Off(t, ps[0]), min, At(t, ps[0]).order);
  }

  lemma SizeAtLeast(t: Tree, p: Path, min: nat)
    requires UsedBlockAt(t, p) && At(t, p).order >= min
    ensures SizeAt(t, p) >= Pow2(min) > 0
  {
    Pow2Monotone(min, At(t, p).order);
  }

  lemma CeilOrder(n: nat)
    requires n > 0
    ensures Log2(n) <= Log2(CeilPow2(n))
  {
    Log2Monotone(n, CeilPow2(n));
  }

  /** A free block at the start of a range that is less than twice as long is taken, whatever follows. */
  lemma {:induction false} TakeFirst(t: Tree, off: nat, s: int, e: int, clear: int, q: Path)
    requires WF(t) && FreeBlockAt(t, q) && s == off + Off(t, q)
    requires Pow2(At(t, q).order) <= e - s < 2 * Pow2(At(t, q).order)
    ensures FreeSize(t) - FreeSize(Take(t, off, s, e, clear).tree) >= Pow2(At(t, q).order)
  {
    hide Take;
    if q == [] {
      TakeWhole(t, off, s, e, clear);
    } else {
      AncestorLarger(t, q);
      TakeInner(t, off, s, e, clear);
      var l := Take(t.left, off, s, e, clear);
      TakeLess(t.left, off, s, e, clear);
      TakeLess(t.right, off + Size(t.left), s, e, l.clear);
      if q[0] {
        TakeBefore(t.left, off, s, e, clear);
        TakeFirst(t.right, off + Size(t.left), s, e, l.clear, q[1..]);
      } else {
        TakeFirst(t.left, off, s, e, clear, q[1..]);
      }
    }
  }

  lemma TakeWhole(t: Tree, off: nat, s: int, e: int, clear: int)
    requires t.Free? && s == off && Pow2(t.order) <= e - s
    ensures FreeSize(t) - FreeSize(Take(t, off, s, e, clear).tree) == Pow2(t.order)
  {}

  lemma TakeLess(t: Tree, off: nat, s: int, e: int, clear: int)
    requires WF(t) && s < e
    ensures FreeSize(Take(t, off, s, e, clear).tree) <= FreeSize(t)
  {
    TakeTiles(t, off, s, e, clear);
  }

  /** A split block is at least twice as large as a block below it. */
  lemma AncestorLarger(t: Tree, q: Path)
    requires WF(t) && BlockAt(t, q) && q != []
    ensures t.Inner?() && t.left.Block?() && (t.Split? ==> Size(t) >= 2 * Pow2(At(t, q).order))
    ensures Off(t, q) + Pow2(At(t, q).order) <= Size(t) && (q[0] ==> Off(t, q) >= Size(t.left))
  {
    WFAt(t, q);
    SizeOfBlock(At(t, q));
    if t.Split? {
      OrdersFall(t, q);
      Pow2Monotone(At(t, q).order + 1, t.order);
      SizeOfBlock(t);
    }
  }

  /** What `TakeFirst` says of all blocks that may be at the start. */
  lemma FirstTaken(t: Tree, s: nat, n: nat, clear: int, taken: nat)
    requires WF(t) && FreeSize(t) - FreeSize(Take(t, 0, s, s + n, clear).tree) == taken
    ensures forall q | FreeBlockAt(t, q) && Off(t, q) == s ::
              Pow2(At(t, q).order) <= n < 2 * Pow2(At(t, q).order) ==> Pow2(At(t, q).order) <= taken
  {
    hide Take;
    hide FreeSize;
    hide WF;
    hide Pow2;
    forall q | FreeBlockAt(t, q) && Off(t, q) == s && Pow2(At(t, q).order) <= n < 2 * Pow2(At(t, q).order)
      ensures Pow2(At(t, q).order) <= taken
    {
      TakeFirst(t, 0, s, s + n, clear, q);
    }
  }

  lemma TakeBefore(t: Tree, off: nat, s: int, e: int, clear: int)
    requires WF(t) && t.Block?() && off + Size(t) <= s < e
    ensures Take(t, off, s, e, clear) == Outcome(true, t, [], clear)
  {
    SizeOfBlock(t);
  }
}
