/** How much memory is in aligned runs of some order that are free, whatever the marks and the blocks. */
module BuddySpare {
  import opened Powers
  import opened BuddyTree
  import opened BuddyLists
  import opened BuddyCanon
  import opened BuddyRange
  import opened BuddyState
  import opened BuddyMerge
  import opened BuddyRoots
  import opened BuddyHeld

  /** The free runs of order `k` among those that start at `x` and follow each other up to `e`, in chunks. */
  function SpareFrom(t: Tree, k: nat, x: nat, e: nat): nat
    decreases e - x
  {
    if x + Pow2(k) > e then 0
    else (if AllFree(t, 0, x, x + Pow2(k)) then Pow2(k) else 0) + SpareFrom(t, k, x + Pow2(k), e)
  }

  function Spare(t: Tree, k: nat): nat { SpareFrom(t, k, 0, Size(t)) }

  /** A chunk of `[x, e)` is free in both trees or in none. */
  predicate SameFree(t: Tree, u: Tree, x: nat, e: nat) {
    Size(t) == Size(u) &&
    forall i: nat | i < Size(t) && x <= i < e :: ChunkAt(t, i).FreeChunk? <==> ChunkAt(u, i).FreeChunk?
  }

  lemma NextRun(x: nat, e: nat, k: nat)
    requires Multiple(x, Pow2(k)) && Multiple(e, Pow2(k))
    ensures Multiple(x + Pow2(k), Pow2(k)) && (x < e ==> x + Pow2(k) <= e)
  {
    MultipleIs(1, Pow2(k));
    MultipleSum(x, Pow2(k), Pow2(k));
    if x < e { MultiplesApart(x, e, Pow2(k)); }
  }

  // ---------- Sums of runs ----------

  lemma RunSame(t: Tree, u: Tree, x: nat, y: nat, e: nat)
    requires SameFree(t, u, x, e) && y <= e
    ensures AllFree(t, 0, x, y) <==> AllFree(u, 0, x, y)
  {
    hide ChunkAt;
    hide Size;
    forall i: nat | i < Size(t) && x <= 0 + i < y ensures ChunkAt(t, i).FreeChunk? <==> ChunkAt(u, i).FreeChunk? {}
  }

  lemma {:induction false} SpareSame(t: Tree, u: Tree, k: nat, x: nat, e: nat)
    requires SameFree(t, u, x, e)
    ensures SpareFrom(t, k, x, e) == SpareFrom(u, k, x, e)
    decreases e - x
  {
    if x + Pow2(k) <= e {
      assert AllFree(t, 0, x, x + Pow2(k)) <==> AllFree(u, 0, x, x + Pow2(k)) by { RunSame(t, u, x, x + Pow2(k), e); }
      SpareSame(t, u, k, x + Pow2(k), e);
    }
  }

  lemma {:induction false} SpareJoin(t: Tree, k: nat, x: nat, m: nat, e: nat)
    requires x <= m <= e && Multiple(x, Pow2(k)) && Multiple(m, Pow2(k))
    ensures SpareFrom(t, k, x, e) == SpareFrom(t, k, x, m) + SpareFrom(t, k, m, e)
    decreases m - x
  {
    if x < m {
      NextRun(x, m, k);
      SpareJoin(t, k, x + Pow2(k), m, e);
    }
  }

  lemma {:induction false} SpareAll(t: Tree, k: nat, x: nat, e: nat)
    requires x <= e && Multiple(x, Pow2(k)) && Multiple(e, Pow2(k)) && AllFree(t, 0, x, e)
    ensures SpareFrom(t, k, x, e) == e - x
    decreases e - x
  {
    if x < e {
      NextRun(x, e, k);
      assert AllFree(t, 0, x, x + Pow2(k));
      SpareAll(t, k, x + Pow2(k), e);
    }
  }

  lemma {:induction false} SpareNone(t: Tree, k: nat, x: nat, e: nat)
    requires e <= Size(t) && forall i: nat | x <= i < e :: ChunkAt(t, i).UsedChunk?
    ensures SpareFrom(t, k, x, e) == 0
    decreases e - x
  {
    if x + Pow2(k) <= e {
      assert ChunkAt(t, x).UsedChunk? && x <= 0 + x;
      SpareNone(t, k, x + Pow2(k), e);
    }
  }

  // ---------- What operations do to them ----------

  lemma SpareUse(t: Tree, u: Tree, k: nat)
    requires SameUse(t, u)
    ensures Spare(t, k) == Spare(u, k)
  {
    SpareSame(t, u, k, 0, Size(t));
  }

  /** Taking a block that is not smaller takes its size. */
  lemma SpareTaken(exact: bool, t: Tree, u: Tree, p: Path, k: nat)
    requires WF(u) && Aligned(u, 0) && Taken(exact, t, u, [p]) && UsedBlockAt(u, p) && k <= At(u, p).order
    ensures Spare(t, k) == Spare(u, k) + Pow2(At(u, p).order)
  {
    hide SpareFrom;
    hide AllFree;
    hide SameFree;
    hide Taken;
    hide Multiple;
    hide Pow2;
    hide Aligned;
    hide WF;
    var lo, n := Off(u, p), Pow2(At(u, p).order);
    var hi := lo + n;
    WFAt(u, p);
    SizeOfBlock(At(u, p));
    OneTaken(exact, t, u, p);
    NaturalAlignment(u, 0, p);
    MultipleIs(1, n);
    MultipleSum(lo, n, n);
    MultipleOfSmaller(lo, k, At(u, p).order);
    MultipleOfSmaller(hi, k, At(u, p).order);
    MultipleIs(0, Pow2(k));
    SpareJoin(t, k, 0, lo, Size(t));
    SpareJoin(t, k, lo, hi, Size(t));
    SpareJoin(u, k, 0, lo, Size(t));
    SpareJoin(u, k, lo, hi, Size(t));
    SpareSame(t, u, k, 0, lo);
    SpareSame(t, u, k, hi, Size(t));
    SpareAll(t, k, lo, hi);
    SpareNone(u, k, lo, hi);
  }

  lemma OneTaken(exact: bool, t: Tree, u: Tree, p: Path)
    requires WF(u) && Taken(exact, t, u, [p]) && UsedBlockAt(u, p)
    ensures var lo, hi := Off(u, p), Off(u, p) + Size(At(u, p));
            hi <= Size(u) && SameFree(t, u, 0, lo) && SameFree(t, u, hi, Size(u)) && AllFree(t, 0, lo, hi) &&
            forall i: nat | lo <= i < hi :: ChunkAt(u, i).UsedChunk?
  {
    var lo, hi := Off(u, p), Off(u, p) + Size(At(u, p));
    WFAt(u, p);
    forall i: nat | i < Size(u)
      ensures if lo <= i < hi then ChunkAt(t, i).FreeChunk? && ChunkAt(u, i).UsedChunk?
              else ChunkAt(t, i).FreeChunk? <==> ChunkAt(u, i).FreeChunk?
    {
      assert ChunkTaken(exact, ChunkAt(t, i), ChunkAt(u, i), Covered(u, [p], i));
      assert [p][0] == p && (Covers(u, p, i) <==> lo <= i < hi);
      assert Covers(u, [p][0], i) ==> Covered(u, [p], i);
    }
  }

  // ---------- Free runs are blocks once nothing is left to merge ----------

  lemma {:induction false} SpareRun(t: Tree, k: nat, x: nat, e: nat) returns (y: nat)
    requires SpareFrom(t, k, x, e) > 0 && Multiple(x, Pow2(k))
    ensures Multiple(y, Pow2(k)) && y + Pow2(k) <= e && AllFree(t, 0, y, y + Pow2(k))
    decreases e - x
  {
    if AllFree(t, 0, x, x + Pow2(k)) {
      y := x;
    } else {
      NextRun(x, x, k);
      y := SpareRun(t, k, x + Pow2(k), e);
    }
  }

  /** In a block: the one of order `k` at `x`, or a larger one that is not split and covers it. */
  lemma {:induction false} RunInBlock(t: Tree, off: nat, x: nat, k: nat) returns (p: Path)
    requires WF(t) && t.Block?() && Multiple(off, Pow2(t.order)) && k <= t.order
    requires Multiple(x, Pow2(k)) && off <= x && x + Pow2(k) <= off + Pow2(t.order)
    ensures BlockAt(t, p) && k <= At(t, p).order && (At(t, p).order == k || !At(t, p).Split?)
    ensures off + Off(t, p) <= x && x + Pow2(k) <= off + Off(t, p) + Pow2(At(t, p).order)
  {
    p := [];
    if t.Split? && k < t.order {
      HalvesAligned(off, t.order);
      SizeOfBlock(t.left);
      var right := x >= off + Pow2(t.order - 1);
      if !right { RunFits(off, x, t.order - 1, k); }
      var q := RunInBlock(Child(t, right), if right then off + Pow2(t.order - 1) else off, x, k);
      p := [right] + q;
      assert p[1..] == q;
    }
  }

  lemma {:induction false} RunBlock(t: Tree, off: nat, x: nat, k: nat) returns (p: Path)
    requires WF(t) && (t.Roots? || t.End?) && Aligned(t, off)
    requires Multiple(x, Pow2(k)) && off <= x && x + Pow2(k) <= off + Size(t)
    ensures BlockAt(t, p) && k <= At(t, p).order && (At(t, p).order == k || !At(t, p).Split?)
    ensures off + Off(t, p) <= x && x + Pow2(k) <= off + Off(t, p) + Pow2(At(t, p).order)
  {
    SizeOfBlock(t.left);
    var right := x >= off + Size(t.left);
    var q;
    if right {
      q := RunBlock(t.right, off + Size(t.left), x, k);
    } else {
      FallingBounds(t);
      if t.left.order < k { Pow2Monotone(t.left.order + 1, k); }
      RunFits(off, x, t.left.order, k);
      q := RunInBlock(t.left, off, x, k);
    }
    p := [right] + q;
    assert p[1..] == q;
  }

  lemma RunFits(off: nat, x: nat, o: nat, k: nat)
    requires k <= o && Multiple(off, Pow2(o)) && Multiple(x, Pow2(k)) && x < off + Pow2(o)
    ensures x + Pow2(k) <= off + Pow2(o)
  {
    MultipleIs(1, Pow2(o));
    MultipleSum(off, Pow2(o), Pow2(o));
    MultipleOfSmaller(off + Pow2(o), k, o);
    MultiplesApart(x, off + Pow2(o), Pow2(k));
  }

  /** With nothing left to merge, a free run lies in a free block. */
  lemma FreeRunBlock(t: Tree, x: nat, k: nat, e: int) returns (q: Path)
    requires WF(t) && (t.Roots? || t.End?) && Aligned(t, 0) && Merged(t, 0, e, 0, k) && Size(t) <= e
    requires Multiple(x, Pow2(k)) && x + Pow2(k) <= Size(t) && AllFree(t, 0, x, x + Pow2(k))
    ensures FreeBlockAt(t, q) && At(t, q).order >= k
    ensures Off(t, q) <= x && x + Pow2(k) <= Off(t, q) + Pow2(At(t, q).order) <= Size(t)
  {
    q := RunBlock(t, 0, x, k);
    WFAt(t, q);
    SizeOfBlock(At(t, q));
    if At(t, q).order == k {
      RootChunks(t, t, q);
      MergedIsFree(t, q, 0, e, k);
    } else {
      ChunkWithin(t, q, x - Off(t, q));
      assert 0 <= 0 + x < x + Pow2(k);
    }
  }

  /** Without cleared memory a canonical tree has nothing to merge. */
  lemma DirtyIsMerged(t: Tree, s: int, e: int, k: nat)
    requires WF(t) && Maximal(t) && ClearSize(t) == 0
    ensures Merged(t, s, e, 0, k)
  {
    forall q | Pairable(t, q, s, e) ensures false {
      BuddiesDiffer(t, q);
      SizesPut(t, q, At(t, q));
      SizesPut(t, Sibling(q), At(t, Sibling(q)));
    }
  }

  lemma NothingSpare(t: Tree, k: nat, e: int)
    requires WF(t) && (t.Roots? || t.End?) && Aligned(t, 0) && Merged(t, 0, e, 0, k) && Size(t) <= e
    requires forall q | FreeBlockAt(t, q) :: At(t, q).order < k
    ensures Spare(t, k) == 0
  {
    if Spare(t, k) > 0 {
      MultipleIs(0, Pow2(k));
      var x := SpareRun(t, k, 0, Size(t));
      var q := FreeRunBlock(t, x, k, e);
    }
  }

  /** If the lists of order `k` and above are as before, then there are no larger free blocks than before. */
  lemma NoneAbove(fl: seq<seq<Path>>, t: Tree, fl': seq<seq<Path>>, t': Tree, m: nat, k: nat)
    requires Lists(fl, m, t) && Lists(fl', m, t') && Bounded(t', m) && WF(t')
    requires forall j | k <= j < |fl'| :: fl'[j] == fl[j]
    requires forall q | FreeBlockAt(t, q) :: At(t, q).order < k
    ensures forall q | FreeBlockAt(t', q) :: At(t', q).order < k
  {
    forall q | FreeBlockAt(t', q) ensures At(t', q).order < k {
      var o := At(t', q).order;
      BoundedAt(t', q, m);
      InFrees(t', o, q);
      if o >= k {
        assert q in fl'[o] && fl'[o] == fl[o];
        InFrees(t, o, q);
      }
    }
  }
}
