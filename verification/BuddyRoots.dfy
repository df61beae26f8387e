/** The array of roots: how `drm_buddy_init` builds it and what `drm_buddy_fini` finds in it. */
module BuddyRoots {
  import opened Powers
  import opened BuddyTree
  import opened BuddyLists
  import opened BuddyCanon
  import opened BuddyRange
  import opened BuddyState
  import opened BuddyMerge

  // ---------- Building the roots ----------

  predicate PowerOfTwo(n: nat) { n > 0 && n == Pow2(Log2(n)) }

  /** `hweight64` */
  function Bits(n: nat): nat {
    if n == 0 then 0 else n % 2 + Bits(n / 2)
  }

  /** Taking the highest power of two away removes exactly one bit. */
  lemma {:induction false} BitsFall(n: nat)
    requires n > 0
    ensures Bits(n) == 1 + Bits(n - Pow2(Log2(n)))
  {
    if n > 1 {
      var o := Log2(n / 2);
      BitsFall(n / 2);
      assert (n - 2 * Pow2(o)) / 2 == n / 2 - Pow2(o) && (n - 2 * Pow2(o)) % 2 == n % 2;
    }
  }

  lemma {:induction false} BitsAtMost(n: nat)
    requires n > 0
    ensures 1 <= Bits(n) <= Log2(n) + 1
  {
    if n > 1 { BitsAtMost(n / 2); }
  }

  /** Sizes in bytes and sizes in chunks have logarithms that differ by that of the chunk. */
  lemma {:induction false} Log2Scaled(n: nat, c: nat)
    requires n > 0
    ensures n * Pow2(c) > 0 && Log2(n * Pow2(c)) == Log2(n) + c
  {
    if c > 0 {
      Log2Scaled(n, c - 1);
      Doubled(n, Pow2(c - 1));
      Log2Double(n * Pow2(c - 1));
    }
  }

  lemma Doubled(n: int, m: int)
    ensures n * (2 * m) == 2 * (n * m)
  {}

  lemma Log2Double(x: nat)
    requires x > 0
    ensures Log2(2 * x) == 1 + Log2(x)
  {
    assert 2 * x / 2 == x;
  }

  /** The order computed from sizes in bytes is the logarithm of the number of chunks. */
  function OrderOf(n: nat, chunk: nat): (o: nat)
    requires n > 0 && PowerOfTwo(chunk)
    ensures o == Log2(n)
  {
    Log2Scaled(n, Log2(chunk));
    Log2(n * chunk) - Log2(chunk)
  }

  /** A 64-bit size and chunks of at least 4 KiB leave at most 52 orders. */
  lemma DeviceOrder(bytes: nat, chunk: nat, n: nat)
    requires chunk <= bytes < Pow2(64) && chunk >= 4096 && PowerOfTwo(chunk) && n == bytes / chunk
    ensures n > 0 && Log2(n) <= 51
  {
    QuotientBounds(bytes, chunk);
    Log2Scaled(n, Log2(chunk));
    LargeChunk(chunk);
    OrderCap(n * chunk, Log2(n), Log2(chunk));
  }

  lemma LargeChunk(chunk: nat)
    requires chunk >= 4096
    ensures Log2(chunk) >= 12
  {
    assert Pow2(12) == 4096;
    if Log2(chunk) < 12 { Pow2Monotone(Log2(chunk), 12); }
  }

  lemma OrderCap(y: nat, o: nat, c: nat)
    requires 0 < y < Pow2(64) && Log2(y) == o + c && c >= 12
    ensures o <= 51
  {
    if o + c >= 64 { Pow2Monotone(64, o + c); }
  }

  lemma QuotientBounds(x: nat, m: nat)
    requires 0 < m <= x
    ensures x / m > 0 && x / m * m <= x
  {}

  /** The roots of a device of `n` chunks: the powers of two in `n`, the largest first, all free and dirty. */
  function Fresh(n: nat): Tree {
    if n == 0 then End else Roots(Free(Log2(n), false), Fresh(n - Pow2(Log2(n))))
  }

  lemma {:induction false} FreshShape(n: nat)
    ensures var t := Fresh(n); WF(t) && Size(t) == n && Maximal(t) && (n > 0 ==> Bounded(t, Log2(n)))
  {
    if n > 0 {
      var m := n - Pow2(Log2(n));
      FreshShape(m);
      if m > 0 {
        NextRoot(n);
        BoundedMore(Fresh(m), Log2(m), Log2(n));
      }
    }
  }

  lemma {:induction false} FreshSizes(n: nat)
    ensures FreeSize(Fresh(n)) == n && ClearSize(Fresh(n)) == 0
  {
    hide Log2;
    hide Pow2;
    if n > 0 { FreshSizes(n - Pow2(Log2(n))); }
  }

  lemma {:induction false} FreshRoots(n: nat)
    ensures |RootPaths(Fresh(n))| == Bits(n)
  {
    hide Log2;
    hide Pow2;
    hide Bits;
    if n == 0 {
      NoBits();
    } else {
      FreshRoots(n - Pow2(Log2(n)));
      BitsFall(n);
    }
  }

  lemma NoBits()
    ensures Bits(0) == 0
  {}

  lemma NextRoot(n: nat)
    requires n > 0 && n > Pow2(Log2(n))
    ensures Log2(n - Pow2(Log2(n))) < Log2(n)
  {
    var m := n - Pow2(Log2(n));
    if Log2(m) >= Log2(n) { Pow2Monotone(Log2(n), Log2(m)); }
  }

  lemma {:induction false} BoundedMore(t: Tree, m: nat, n: nat)
    requires Bounded(t, m) && m <= n
    ensures Bounded(t, n)
  {
    if t.Roots? { BoundedMore(t.left, m, n); BoundedMore(t.right, m, n); }
  }

  lemma FreshShaped(n: nat)
    requires n > 0
    ensures Shaped(Fresh(n), n, Log2(n))
  {
    FreshShape(n);
    RootsAligned(Fresh(n), 0);
  }

  /** What a new device looks like. */
  lemma FreshDevice(n: nat)
    requires n > 0
    ensures Shaped(Fresh(n), n, Log2(n)) && Maximal(Fresh(n)) && FreeSize(Fresh(n)) == n && ClearSize(Fresh(n)) == 0
    ensures |RootPaths(Fresh(n))| == Bits(n) <= Log2(n) + 1
  {
    FreshSizes(n);
    FreshRoots(n);
    FreshShape(n);
    FreshShaped(n);
    BitsAtMost(n);
  }

  predicate Spine(t: Tree) { t.End? || (t.Roots? && Spine(t.right)) }

  /** The root array `t` continued with `u`. */
  function Extend(t: Tree, u: Tree): Tree {
    if t.Roots? then Roots(t.left, Extend(t.right, u)) else u
  }

  function EndPath(t: Tree): Path {
    if t.Roots? then [true] + EndPath(t.right) else []
  }

  lemma {:induction false} ExtendTwice(t: Tree, x: Tree, u: Tree)
    requires Spine(t)
    ensures Extend(Extend(t, Roots(x, End)), u) == Extend(t, Roots(x, u)) && Spine(Extend(t, Roots(x, End)))
  {
    if t.Roots? { ExtendTwice(t.right, x, u); }
  }

  lemma {:induction false} ExtendEnd(t: Tree)
    requires Spine(t)
    ensures Extend(t, End) == t
  {
    if t.Roots? { ExtendEnd(t.right); }
  }

  /** A new root comes last in the root array, in its free list, and in the address space. */
  lemma {:induction false} ExtendLists(t: Tree, o: nat, c: bool, k: nat)
    requires Spine(t)
    ensures var u, p := Extend(t, Roots(Free(o, c), End)), EndPath(t) + [false];
            Has(u, p) && At(u, p) == Free(o, c) && RootPaths(u) == RootPaths(t) + [p] &&
            Frees(u, k) == Frees(t, k) + (if k == o then [p] else [])
  {
    var u, p := Extend(t, Roots(Free(o, c), End)), EndPath(t) + [false];
    if t.Roots? {
      ExtendLists(t.right, o, c, k);
      var q := EndPath(t.right) + [false];
      assert p == [true] + q && p[1..] == q;
      UnderJoin([true], RootPaths(t.right), [q]);
      UnderJoin([true], Frees(t.right, k), if k == o then [q] else []);
      assert Under([true], [q]) == [p];
    } else {
      OneStep(u, false);
      assert p == [false];
      assert [false] + [] == [false];
      assert Under([false], [[]]) == [[false]];
    }
  }

  /** The block at the end of an ascending list lies above the others. */
  lemma LastIsAbove(u: Tree, k: nat, lo: seq<Path>, p: Path)
    requires WF(u) && Frees(u, k) == lo + [p]
    ensures Has(u, p) && AllBelow(u, lo, Off(u, p))
  {
    var s := lo + [p];
    forall i | 0 <= i < |s| ensures Has(u, s[i]) { InFrees(u, k, s[i]); }
    assert s[|lo|] == p;
    forall i | 0 <= i < |lo| ensures Has(u, lo[i]) && Off(u, lo[i]) < Off(u, p) {
      FreesAscend(u, k, i, |lo|);
      assert s[i] == lo[i];
    }
  }

  /** One more root, put at the end of its list. */
  lemma RootAdded(fl: seq<seq<Path>>, m: nat, t: Tree, rem: nat, n: nat)
    requires Spine(t) && Lists(fl, m, t) && rem > 0 && Log2(rem) <= m && Extend(t, Fresh(rem)) == Fresh(n)
    ensures var o, root := Log2(rem), EndPath(t) + [false];
            var u := Extend(t, Roots(Free(o, false), End));
            Spine(u) && Extend(u, Fresh(rem - Pow2(o))) == Fresh(n) && RootPaths(u) == RootPaths(t) + [root] &&
            Has(u, root) && AllBelow(u, fl[o], Off(u, root)) && Lists(fl[o := fl[o] + [root]], m, u)
  {
    var o, root := Log2(rem), EndPath(t) + [false];
    var u := Extend(t, Roots(Free(o, false), End));
    RootSpine(t, rem, n, u);
    RootLast(fl[o], t, o, u, root);
    RootLists(fl, m, t, o, u, root);
  }

  lemma RootSpine(t: Tree, rem: nat, n: nat, u: Tree)
    requires Spine(t) && rem > 0 && Extend(t, Fresh(rem)) == Fresh(n) &&
             u == Extend(t, Roots(Free(Log2(rem), false), End))
    ensures Spine(u) && Extend(u, Fresh(rem - Pow2(Log2(rem)))) == Fresh(n) && WF(u)
  {
    var rest := Fresh(rem - Pow2(Log2(rem)));
    assert Fresh(rem) == Roots(Free(Log2(rem), false), rest);
    ExtendTwice(t, Free(Log2(rem), false), rest);
    FreshShape(n);
    PrefixWF(u, rest);
  }

  lemma RootLast(list: seq<Path>, t: Tree, o: nat, u: Tree, root: Path)
    requires Spine(t) && list == Frees(t, o) && u == Extend(t, Roots(Free(o, false), End)) && WF(u) &&
             root == EndPath(t) + [false]
    ensures RootPaths(u) == RootPaths(t) + [root] && Has(u, root) && AllBelow(u, list, Off(u, root))
  {
    ExtendLists(t, o, false, o);
    LastIsAbove(u, o, list, root);
  }

  lemma RootLists(fl: seq<seq<Path>>, m: nat, t: Tree, o: nat, u: Tree, root: Path)
    requires Spine(t) && Lists(fl, m, t) && o <= m && u == Extend(t, Roots(Free(o, false), End)) &&
             root == EndPath(t) + [false]
    ensures Lists(fl[o := fl[o] + [root]], m, u)
  {
    forall k | 0 <= k <= m ensures fl[o := fl[o] + [root]][k] == Frees(u, k) { ExtendLists(t, o, false, k); }
  }

  lemma {:induction false} PrefixWF(t: Tree, u: Tree)
    requires Spine(t) && WF(Extend(t, u))
    ensures WF(t)
  {
    if t.Roots? { PrefixWF(t.right, u); }
  }

  // ---------- Tearing down ----------

  /** What is left of the device from root `i` on. */
  function Rest(t: Tree, i: nat): nat {
    if t.Roots? && i > 0 then Rest(t.right, i - 1) else Size(t)
  }

  /** All roots together are smaller than twice the first one. */
  lemma {:induction false} FallingBounds(t: Tree)
    requires WF(t) && t.Roots?
    ensures Pow2(t.left.order) <= Size(t) < 2 * Pow2(t.left.order)
  {
    var o := t.left.order;
    SizeOfBlock(t.left);
    assert Size(t) == Pow2(o) + Size(t.right);
    if t.right.Roots? {
      FallingBounds(t.right);
      Pow2Monotone(t.right.left.order + 1, o);
    }
  }

  lemma {:induction false} FallingSize(t: Tree)
    requires WF(t) && t.Roots?
    ensures Size(t) > 0 && Log2(Size(t)) == t.left.order && Bounded(t, t.left.order)
  {
    FallingBounds(t);
    Log2Unique(Size(t), t.left.order);
    if t.right.Roots? {
      FallingSize(t.right);
      BoundedMore(t.right, t.right.left.order, t.left.order);
    }
  }

  /** Root `i` is the largest power of two in what is left, and starts where the roots before it end. */
  lemma {:induction false} RootPlace(t: Tree, i: nat)
    requires WF(t) && (t.Roots? || t.End?) && i < |RootPaths(t)|
    ensures var q := RootPaths(t)[i];
            BlockAt(t, q) && Rest(t, i) > 0 && At(t, q).order == Log2(Rest(t, i)) &&
            Off(t, q) + Rest(t, i) == Size(t) &&
            Rest(t, i + 1) == Rest(t, i) - Pow2(Log2(Rest(t, i)))
  {
    FallingSize(t);
    if i == 0 {
      OneStep(t, false);
      SizeOfBlock(t.left);
    } else {
      RootPlace(t.right, i - 1);
      var r := RootPaths(t.right)[i - 1];
      assert RootPaths(t)[i] == [true] + r && ([true] + r)[1..] == r;
    }
  }

  lemma {:induction false} RestStable(t: Tree, u: Tree, i: nat)
    requires WF(t) && WF(u) && SameRoots(t, u)
    ensures Rest(t, i) == Rest(u, i)
  {
    SameRootsSize(t, u);
    if t.Roots? && i > 0 { RestStable(t.right, u.right, i - 1); }
  }

  lemma {:induction false} RestOfAll(t: Tree)
    requires WF(t) && (t.Roots? || t.End?)
    ensures Rest(t, |RootPaths(t)|) == 0
  {
    if t.Roots? { RestOfAll(t.right); }
  }

  /** From root `i` on no block is larger than root `i`. */
  lemma {:induction false} CappedRest(t: Tree, off: nat, i: nat, s: int, e: int, bound: nat)
    requires WF(t) && (t.Roots? || t.End?) && i < |RootPaths(t)| && BlockAt(t, RootPaths(t)[i])
    requires e == off + Size(t) && s == e - Rest(t, i) && bound == At(t, RootPaths(t)[i]).order
    ensures Capped(t, off, s, e, bound)
  {
    FallingSize(t);
    if i == 0 {
      OneStep(t, false);
      CappedByMax(t, off, s, e, bound);
    } else {
      RootPlace(t.right, i - 1);
      var r := RootPaths(t.right)[i - 1];
      assert RootPaths(t)[i] == [true] + r && ([true] + r)[1..] == r;
      CappedRest(t.right, off + Size(t.left), i - 1, s, e, bound);
    }
  }

  lemma HalvesPair(t: Tree, p: Path, s: int, e: int)
    requires WF(t) && Has(t, p) && At(t, p).Split? && At(t, p).left.Free? && At(t, p).right.Free?
    requires Contains(s, e, Off(t, p), Off(t, p) + Pow2(At(t, p).order))
    ensures Pairable(t, p + [false], s, e) && At(t, p + [false]).order == At(t, p).order - 1
  {
    AppendPath(t, p, [false]);
    AppendPath(t, p, [true]);
    OneStep(At(t, p), false);
    OneStep(At(t, p), true);
    WFAt(t, p);
    assert Parent(p + [false]) == p && Sibling(p + [false]) == p + [true];
  }

  /** If nothing below the block `p` is in use and nothing is left to merge, then `p` itself is free. */
  lemma {:induction false} MergedIsFree(t: Tree, p: Path, s: int, e: int, k: nat)
    requires WF(t) && BlockAt(t, p) && At(t, p).order <= k && Merged(t, s, e, 0, k)
    requires Contains(s, e, Off(t, p), Off(t, p) + Pow2(At(t, p).order))
    requires AllFree(At(t, p), 0, 0, Size(At(t, p)))
    ensures At(t, p).Free?
    decreases At(t, p)
  {
    var x := At(t, p);
    WFAt(t, p);
    SizeOfBlock(x);
    if x.Split? {
      var l, r := p + [false], p + [true];
      AllFreeHalves(x, 0, 0, Size(x));
      AllFreeShift(x.right, Size(x.left));
      SizeOfBlock(x.left);
      AppendPath(t, p, [false]);
      AppendPath(t, p, [true]);
      OneStep(x, false);
      OneStep(x, true);
      MergedIsFree(t, l, s, e, k);
      MergedIsFree(t, r, s, e, k);
      HalvesPair(t, p, s, e);
    }
    assert x.Allocated? ==> !ChunkAt(x, 0).FreeChunk?;
  }

  lemma AllFreeShift(t: Tree, off: nat)
    requires AllFree(t, off, 0, off + Size(t))
    ensures AllFree(t, 0, 0, Size(t))
  {
    forall i: nat | i < Size(t) ensures ChunkAt(t, i).FreeChunk? { assert 0 <= off + i < off + Size(t); }
  }

  /** The counter of free chunks reaches the size of the device exactly when no chunk is in use. */
  lemma {:induction false} FreeSizeFull(t: Tree)
    requires WF(t)
    ensures FreeSize(t) <= Size(t)
    ensures FreeSize(t) == Size(t) <==> AllFree(t, 0, 0, Size(t))
  {
    if t.Inner?() {
      FreeSizeFull(t.left);
      FreeSizeFull(t.right);
      AllFreeHalves(t, 0, 0, Size(t));
      assert AllFree(t.right, Size(t.left), 0, Size(t)) ==> AllFree(t.right, 0, 0, Size(t.right)) by {
        if AllFree(t.right, Size(t.left), 0, Size(t)) { AllFreeShift(t.right, Size(t.left)); }
      }
    } else if t.Allocated? {
      assert !ChunkAt(t, 0).FreeChunk?;
    }
  }

  /** After the forced merge of what follows the root `p`, the root is free unless a chunk of it is in use. */
  lemma RootIsFree(t: Tree, p: Path, s: nat, e: nat, k: nat, found: bool, at: Path)
    requires WF(t) && Size(t) == e && BlockAt(t, p) && p in RootPaths(t)
    requires Off(t, p) == s && At(t, p).order == k && e - s < 2 * Pow2(k)
    requires found ==>
               FreeBlockAt(t, at) && At(t, at).order >= k &&
               Overlaps(s, e, Off(t, at), Off(t, at) + Pow2(At(t, at).order))
    requires !found ==> Merged(t, s, e, 0, k)
    ensures At(t, p).Free? <==> AllFree(At(t, p), 0, 0, Size(At(t, p)))
  {
    WFAt(t, p);
    SizeOfBlock(At(t, p));
    if found {
      OnlyRootFits(t, p, s, e, k, at);
    } else if AllFree(At(t, p), 0, 0, Size(At(t, p))) {
      MergedIsFree(t, p, s, e, k);
    }
  }

  lemma RootChunks(t: Tree, u: Tree, p: Path)
    requires SameUse(t, u) && WF(u) && Has(u, p)
    ensures AllFree(t, 0, Off(u, p), Off(u, p) + Size(At(u, p))) <==> AllFree(At(u, p), 0, 0, Size(At(u, p)))
  {
    WFAt(u, p);
    var s, n := Off(u, p), Size(At(u, p));
    forall i: nat | i < n ensures ChunkAt(At(u, p), i).FreeChunk? <==> ChunkAt(t, s + i).FreeChunk? {
      ChunkWithin(u, p, i);
    }
    if AllFree(At(u, p), 0, 0, n) {
      forall i: nat | i < Size(t) && s <= 0 + i < s + n ensures ChunkAt(t, i).FreeChunk? {
        assert ChunkAt(At(u, p), i - s).FreeChunk? <==> ChunkAt(t, s + (i - s)).FreeChunk?;
      }
    }
  }

  /** A block of order `k` that reaches into the tail of the device behind `p` can only be `p`. */
  lemma OnlyRootFits(t: Tree, p: Path, s: nat, e: nat, k: nat, at: Path)
    requires WF(t) && Size(t) == e && BlockAt(t, p) && p in RootPaths(t)
    requires Off(t, p) == s && At(t, p).order == k && e - s < 2 * Pow2(k)
    requires BlockAt(t, at) && At(t, at).order >= k && Overlaps(s, e, Off(t, at), Off(t, at) + Pow2(At(t, at).order))
    ensures at == p
  {
    WFAt(t, p);
    WFAt(t, at);
    SizeOfBlock(At(t, p));
    SizeOfBlock(At(t, at));
    Pow2Monotone(k, At(t, at).order);
    if Apart(p, at) {
      ApartDisjoint(t, p, at);
    } else if Prefix(p, at) {
      var d := at[|p|..];
      assert at == p + d;
      AppendPath(t, p, d);
      OrdersFall(At(t, p), d);
    } else {
      RootsAreTop(t, p, at);
    }
  }

  lemma {:induction false} RootsAreTop(t: Tree, p: Path, q: Path)
    requires WF(t) && p in RootPaths(t) && Prefix(q, p) && BlockAt(t, q)
    ensures q == p
  {
    if q != [] && p != [false] {
      var r := UnderOff(t, true, RootPaths(t.right), p);
      PrefixCons(q, p);
      RootsAreTop(t.right, r, q[1..]);
    }
  }

  /** The free part grows by one root, seen in the tree as it was and as it is. */
  lemma AllFreeStep(t: Tree, u: Tree, a: nat, b: nat)
    requires SameUse(t, u) && a <= b <= Size(t)
    ensures AllFree(t, 0, 0, b) <==> AllFree(t, 0, 0, a) && AllFree(u, 0, a, b)
  {
    forall i: nat | i < Size(t) ensures ChunkAt(t, i).FreeChunk? <==> ChunkAt(u, i).FreeChunk? {}
  }

  /** What the forced merge from root `i` on says about that root. */
  lemma RootMerged(t: Tree, u: Tree, i: nat, k: nat, found: bool, at: Path)
    requires WF(t) && WF(u) && SameRoots(t, u) && SameUse(t, u) && (u.Roots? || u.End?) && i < |RootPaths(u)|
    requires Rest(t, i) > 0 && k == Log2(Rest(t, i))
    requires var s, e := Size(t) - Rest(t, i), Size(t);
             if found then FreeBlockAt(u, at) && At(u, at).order >= k &&
                 Overlaps(s, e, Off(u, at), Off(u, at) + Pow2(At(u, at).order))
             else Merged(u, s, e, 0, k)
    ensures var p := RootPaths(u)[i];
            BlockAt(u, p) && (At(u, p).Free? <==> AllFree(t, 0, Size(t) - Rest(t, i), Size(t) - Rest(t, i + 1)))
  {
    hide Rest;
    hide RootPaths;
    var p := RootPaths(u)[i];
    RestStable(t, u, i);
    RestStable(t, u, i + 1);
    RootPlace(u, i);
    WFAt(u, p);
    SizeOfBlock(At(u, p));
    RootIsFree(u, p, Size(t) - Rest(t, i), Size(t), k, found, at);
    RootChunks(t, u, p);
  }
}
