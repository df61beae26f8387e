/**
  Allocating an exact range of chunks: what `__alloc_range` computes, as a recursion over the tree,
  and the laws of that recursion.
 */
module BuddyRange {
  import opened Common
  import opened Powers
  import opened BuddyTree
  import opened BuddyLists
  import opened BuddyCanon

  /** The traversal stopped early (`!ok`) or not; `clear` is what is left of the clear counter. */
  datatype Outcome = Outcome(ok: bool, tree: Tree, taken: seq<Path>, clear: int)

  function Halved(o: nat, c: bool): Tree
    requires o > 0
  {
    Split(o, false, Free(o - 1, c), Free(o - 1, c))
  }

  predicate Overlaps(s1: int, e1: int, s2: int, e2: int) { s1 < e2 && s2 < e1 }
  predicate Contains(s1: int, e1: int, s2: int, e2: int) { s1 <= s2 && e2 <= e1 }

  /** Take the chunks `[s, e)` out of a free block, splitting it as far as needed. */
  function Carve(o: nat, c: bool, off: nat, s: int, e: int): Tree {
    if !Overlaps(s, e, off, off + Pow2(o)) then Free(o, c)
    else if Contains(s, e, off, off + Pow2(o)) then Allocated(o, c)
    else Split(o, false, Carve(o - 1, c, off, s, e), Carve(o - 1, c, off + Pow2(o - 1), s, e))
  }

  /** The allocated blocks of a tree, in ascending offset. */
  function Useds(t: Tree): seq<Path> {
    match t
    case Allocated(_, _) => [[]]
    case Split(_, _, l, r) => Under([false], Useds(l)) + Under([true], Useds(r))
    case Roots(l, r) => Under([false], Useds(l)) + Under([true], Useds(r))
    case _ => []
  }

  /** Take the chunks `[s, e)` out of the block, or row of roots, `t` that starts at `off`. */
  function Take(t: Tree, off: nat, s: int, e: int, clear: int): Outcome {
    match t
    case End => Outcome(true, t, [], clear)
    case Free(o, c) =>
      var u := Carve(o, c, off, s, e);
      Outcome(true, u, Useds(u), clear - ClearSize(t) + ClearSize(u))
    case Allocated(_, _) => Outcome(!Overlaps(s, e, off, off + Size(t)), t, [], clear)
    case Split(_, _, x, y) =>
      if !Overlaps(s, e, off, off + Size(t)) then Outcome(true, t, [], clear)
      else if Contains(s, e, off, off + Size(t)) && clear == 0 then Outcome(false, t, [], clear)
      else
        var l := Take(x, off, s, e, clear);
        Both(t, l, Take(y, off + Size(x), s, e, l.clear))
    case Roots(x, y) =>
      var l := Take(x, off, s, e, clear);
      Both(t, l, Take(y, off + Size(x), s, e, l.clear))
  }

  /** What came of the left part, followed by what came of the right one if the left was done. */
  function Both(x: Tree, l: Outcome, h: Outcome): Outcome
    requires x.Inner?()
  {
    if !l.ok then Outcome(false, x.(left := l.tree), Under([false], l.taken), l.clear)
    else Outcome(h.ok, x.(left := l.tree, right := h.tree),
                 Under([false], l.taken) + Under([true], h.taken), h.clear)
  }

  // ---------- Shape, counters and canonical form ----------

  /** The traversal does not go into `t`. */
  predicate Stops(t: Tree, off: nat, s: int, e: int, clear: int) {
    !t.Inner?() || (t.Split? &&
                    (!Overlaps(s, e, off, off + Size(t)) || (Contains(s, e, off, off + Size(t)) && clear == 0)))
  }

  lemma TakeInner(t: Tree, off: nat, s: int, e: int, clear: int)
    requires !Stops(t, off, s, e, clear)
    ensures var l := Take(t.left, off, s, e, clear);
            Take(t, off, s, e, clear) == Both(t, l, Take(t.right, off + Size(t.left), s, e, l.clear))
  {}

  lemma NodeKeeps(x: Tree, l: Tree, r: Tree)
    requires WF(x) && x.Inner?() && WF(l) && WF(r) && SameRoots(x.left, l) && SameRoots(x.right, r)
    ensures var y := x.(left := l, right := r); WF(y) && SameRoots(x, y) && Size(y) == Size(x)
  {
    SameRootsSize(x.left, l);
    SameRootsSize(x.right, r);
  }

  lemma {:induction false} CarveKeeps(o: nat, c: bool, off: nat, s: int, e: int)
    ensures var u := Carve(o, c, off, s, e); u.Block?() && u.order == o && WF(u)
    ensures s < e ==> Maximal(Carve(o, c, off, s, e))
  {
    if Overlaps(s, e, off, off + Pow2(o)) && !Contains(s, e, off, off + Pow2(o)) {
      CarveKeeps(o - 1, c, off, s, e);
      CarveKeeps(o - 1, c, off + Pow2(o - 1), s, e);
    }
  }

  lemma {:induction false} TakeKeeps(t: Tree, off: nat, s: int, e: int, clear: int)
    requires WF(t)
    ensures var r := Take(t, off, s, e, clear);
            WF(r.tree) && SameRoots(t, r.tree) && Size(r.tree) == Size(t)
  {
    SameRootsSelf(t);
    if t.Free? {
      CarveKeeps(t.order, t.clear, off, s, e);
      SizeOfBlock(Carve(t.order, t.clear, off, s, e));
    } else if t.Inner?() {
      var l := Take(t.left, off, s, e, clear);
      var h := Take(t.right, off + Size(t.left), s, e, l.clear);
      TakeKeeps(t.left, off, s, e, clear);
      TakeKeeps(t.right, off + Size(t.left), s, e, l.clear);
      SameRootsSelf(t.right);
      NodeKeeps(t, l.tree, t.right);
      NodeKeeps(t, l.tree, h.tree);
    }
  }

  /** The clear counter keeps step with the clear blocks of the tree. */
  lemma {:induction false} TakeClear(t: Tree, off: nat, s: int, e: int, clear: int)
    ensures var r := Take(t, off, s, e, clear);
            r.clear - ClearSize(r.tree) == clear - ClearSize(t)
  {
    if !Stops(t, off, s, e, clear) {
      TakeClear(t.left, off, s, e, clear);
      TakeClear(t.right, off + Size(t.left), s, e, Take(t.left, off, s, e, clear).clear);
      TakeInner(t, off, s, e, clear);
    }
  }

  /** A block that overlaps the range is not free any more, one that does not is as it was. */
  predicate Touched(t: Tree, off: nat, s: int, e: int, r: Outcome) {
    t.Block?() ==> if Overlaps(s, e, off, off + Size(t)) then !r.tree.Free? else r.tree == t && r.ok
  }

  lemma MaximalBoth(t: Tree, off: nat, s: int, e: int, l: Outcome, h: Outcome)
    requires WF(t) && Maximal(t) && t.Inner?() && s < e && Maximal(l.tree) && Maximal(h.tree)
    requires Touched(t.left, off, s, e, l) && Touched(t.right, off + Size(t.left), s, e, h)
    requires t.Split? ==> Overlaps(s, e, off, off + Size(t))
    ensures Maximal(Both(t, l, h).tree) && Touched(t, off, s, e, Both(t, l, h))
  {}

  /** Taking leaves no mergeable pair behind: every block it split has lost a chunk. */
  lemma {:induction false} TakeMaximal(t: Tree, off: nat, s: int, e: int, clear: int)
    requires WF(t) && Maximal(t) && s < e
    ensures var r := Take(t, off, s, e, clear); Maximal(r.tree) && Touched(t, off, s, e, r)
  {
    if Stops(t, off, s, e, clear) {
      if t.Free? { CarveKeeps(t.order, t.clear, off, s, e); }
    } else {
      var l := Take(t.left, off, s, e, clear);
      TakeMaximal(t.left, off, s, e, clear);
      TakeMaximal(t.right, off + Size(t.left), s, e, l.clear);
      TakeInner(t, off, s, e, clear);
      MaximalBoth(t, off, s, e, l, Take(t.right, off + Size(t.left), s, e, l.clear));
    }
  }

  // ---------- Which chunks are taken ----------

  function SizeAt(t: Tree, p: Path): nat { if Has(t, p) then Size(At(t, p)) else 0 }

  function Total(t: Tree, ps: seq<Path>): nat {
    if ps == [] then 0 else SizeAt(t, ps[0]) + Total(t, ps[1..])
  }

  /** The blocks follow each other without gap, from offset `a` upwards. */
  predicate Tiles(t: Tree, ps: seq<Path>, a: int) {
    ps == [] || (Has(t, ps[0]) && Off(t, ps[0]) == a && Tiles(t, ps[1..], a + Size(At(t, ps[0]))))
  }

  function Clamp(x: int, n: nat): nat { if x < 0 then 0 else if x > n then n else x }

  lemma {:induction false} TilesUnder(t: Tree, b: bool, ps: seq<Path>, a: int)
    requires t.Inner?() && Tiles(Child(t, b), ps, a)
    ensures Tiles(t, Under([b], ps), a + if b then Size(t.left) else 0)
    ensures Total(t, Under([b], ps)) == Total(Child(t, b), ps)
  {
    if ps != [] {
      var q := [b] + ps[0];
      assert q[1..] == ps[0];
      TilesUnder(t, b, ps[1..], a + Size(At(Child(t, b), ps[0])));
      assert Under([b], ps)[1..] == Under([b], ps[1..]);
    }
  }

  lemma {:induction false} TilesJoin(t: Tree, ps: seq<Path>, qs: seq<Path>, a: int)
    requires Tiles(t, ps, a) && Tiles(t, qs, a + Total(t, ps))
    ensures Tiles(t, ps + qs, a)
  {
    if ps == [] {
      assert ps + qs == qs;
    } else {
      assert Total(t, ps) == Size(At(t, ps[0])) + Total(t, ps[1..]);
      TilesJoin(t, ps[1..], qs, a + Size(At(t, ps[0])));
      assert (ps + qs)[1..] == ps[1..] + qs;
    }
  }

  lemma {:induction false} TotalJoin(t: Tree, ps: seq<Path>, qs: seq<Path>)
    ensures Total(t, ps + qs) == Total(t, ps) + Total(t, qs)
  {
    if ps == [] {
      assert ps + qs == qs;
    } else {
      TotalJoin(t, ps[1..], qs);
      assert (ps + qs)[1..] == ps[1..] + qs;
    }
  }

  /** `r` took a gap-free run of chunks from `a` on out of `free` free ones; all up to `b`, if `r.ok`. */
  predicate TookRun(free: nat, a: int, b: int, r: Outcome) {
    match r
    case Outcome(ok, tree, taken, _) =>
      Tiles(tree, taken, a) && Total(tree, taken) <= b - a && (taken != [] ==> Total(tree, taken) > 0) &&
      (ok ==> Total(tree, taken) == b - a) && free - FreeSize(tree) == Total(tree, taken)
  }

  /** `TookRun` for the part of `[s, e)` that lies in a tree of `size` chunks from `off` on. */
  predicate TookRange(free: nat, size: nat, off: nat, s: int, e: int, r: Outcome) {
    TookRun(free, Clamp(s - off, size), Clamp(e - off, size), r)
  }

  lemma CombineTiles(t: Tree, off: nat, s: int, e: int, l: Outcome, h: Outcome, r: Outcome)
    requires t.Inner?() && s < e && Size(l.tree) == Size(t.left) && r == Both(t, l, h)
    requires TookRange(FreeSize(t.left), Size(t.left), off, s, e, l)
    requires TookRange(FreeSize(t.right), Size(t.right), off + Size(t.left), s, e, h)
    ensures TookRange(FreeSize(t), Size(t), off, s, e, r)
  {
    var m, n := Size(t.left), Size(t.right);
    ClampParts(s, off, m, n);
    ClampParts(e, off, m, n);
    BothTile(t, l, h, Clamp(s - off, m), Clamp(e - off, m), Clamp(s - (off + m), n), Clamp(e - (off + m), n),
             FreeSize(t), Clamp(s - off, Size(t)), Clamp(e - off, Size(t)), r);
  }

  function Carved(u: Tree): Outcome { Outcome(true, u, Useds(u), 0) }

  lemma CarveNone(o: nat, c: bool, off: nat, s: int, e: int)
    requires s < e && !Overlaps(s, e, off, off + Pow2(o))
    ensures TookRange(Pow2(o), Pow2(o), off, s, e, Carved(Free(o, c)))
  {
    assert Useds(Free(o, c)) == [];
  }

  lemma CarveAll(o: nat, c: bool, off: nat, s: int, e: int)
    requires s < e && Contains(s, e, off, off + Pow2(o))
    ensures TookRange(Pow2(o), Pow2(o), off, s, e, Carved(Allocated(o, c)))
  {
    var u: Tree, p: Path := Allocated(o, c), [];
    assert Useds(u) == [p] && At(u, p) == u && SizeAt(u, p) == Pow2(o);
    assert [p][1..] == [] && Total(u, [p]) == Pow2(o);
    assert Tiles(u, [p], 0);
  }

  lemma HalvedSizes(o: nat, c: bool)
    requires o > 0
    ensures var x := Halved(o, c);
            FreeSize(x) == Size(x) == Pow2(o) && FreeSize(x.left) == Size(x.left) == Pow2(o - 1) &&
            FreeSize(x.right) == Size(x.right) == Pow2(o - 1)
  {}

  lemma CarvedBoth(o: nat, c: bool, l: Tree, h: Tree)
    requires o > 0
    ensures Carved(Split(o, false, l, h)) == Both(Halved(o, c), Carved(l), Carved(h))
  {}

  lemma CarveHalves(o: nat, c: bool, off: nat, s: int, e: int, l: Outcome, h: Outcome, r: Outcome)
    requires o > 0 && s < e && Size(l.tree) == Pow2(o - 1) && r == Both(Halved(o, c), l, h)
    requires TookRange(Pow2(o - 1), Pow2(o - 1), off, s, e, l)
    requires TookRange(Pow2(o - 1), Pow2(o - 1), off + Pow2(o - 1), s, e, h)
    ensures TookRange(Pow2(o), Pow2(o), off, s, e, r)
  {
    HalvedSizes(o, c);
    CombineTiles(Halved(o, c), off, s, e, l, h, r);
  }

  lemma {:induction false} CarveTiles(o: nat, c: bool, off: nat, s: int, e: int)
    requires s < e
    ensures TookRange(Pow2(o), Pow2(o), off, s, e, Carved(Carve(o, c, off, s, e)))
  {
    if !Overlaps(s, e, off, off + Pow2(o)) {
      CarveNone(o, c, off, s, e);
    } else if Contains(s, e, off, off + Pow2(o)) {
      CarveAll(o, c, off, s, e);
    } else {
      var m := Pow2(o - 1);
      var l, h := Carve(o - 1, c, off, s, e), Carve(o - 1, c, off + m, s, e);
      CarveTiles(o - 1, c, off, s, e);
      CarveTiles(o - 1, c, off + m, s, e);
      CarveKeeps(o - 1, c, off, s, e);
      SizeOfBlock(l);
      CarvedBoth(o, c, l, h);
      CarveHalves(o, c, off, s, e, Carved(l), Carved(h), Carved(Split(o, false, l, h)));
    }
  }

  lemma TakeLeaf(t: Tree, off: nat, s: int, e: int, clear: int)
    requires WF(t) && s < e && Stops(t, off, s, e, clear)
    ensures TookRange(FreeSize(t), Size(t), off, s, e, Take(t, off, s, e, clear))
  {
    if t.Free? { CarveTiles(t.order, t.clear, off, s, e); }
  }

  lemma {:induction false} TakeTiles(t: Tree, off: nat, s: int, e: int, clear: int)
    requires WF(t) && s < e
    ensures TookRange(FreeSize(t), Size(t), off, s, e, Take(t, off, s, e, clear))
  {
    if Stops(t, off, s, e, clear) {
      TakeLeaf(t, off, s, e, clear);
    } else {
      var l := Take(t.left, off, s, e, clear);
      var h := Take(t.right, off + Size(t.left), s, e, l.clear);
      TakeTiles(t.left, off, s, e, clear);
      TakeTiles(t.right, off + Size(t.left), s, e, l.clear);
      TakeTilesBoth(t, off, s, e, clear, l, h);
    }
  }

  lemma TakeTilesBoth(t: Tree, off: nat, s: int, e: int, clear: int, l: Outcome, h: Outcome)
    requires WF(t) && s < e && !Stops(t, off, s, e, clear)
    requires l == Take(t.left, off, s, e, clear) && h == Take(t.right, off + Size(t.left), s, e, l.clear)
    requires TookRange(FreeSize(t.left), Size(t.left), off, s, e, l)
    requires TookRange(FreeSize(t.right), Size(t.right), off + Size(t.left), s, e, h)
    ensures TookRange(FreeSize(t), Size(t), off, s, e, Take(t, off, s, e, clear))
  {
    TakeKeeps(t.left, off, s, e, clear);
    TakeInner(t, off, s, e, clear);
    CombineTiles(t, off, s, e, l, h, Take(t, off, s, e, clear));
  }

  lemma BothTile(x: Tree, l: Outcome, h: Outcome, a: nat, b: nat, a': nat, b': nat,
                 free: nat, lo: nat, hi: nat, r: Outcome)
    requires x.Inner?() && Size(l.tree) == Size(x.left) && r == Both(x, l, h)
    requires TookRun(FreeSize(x.left), a, b, l) && TookRun(FreeSize(x.right), a', b', h)
    requires a <= b <= Size(x.left) && a' <= b'
    requires (a < Size(x.left) ==> a' == 0) && (b' > 0 ==> b == Size(x.left))
    requires free == FreeSize(x.left) + FreeSize(x.right) && lo == a + a' && hi == b + b'
    ensures TookRun(free, lo, hi, r)
  {
    var ps, qs := Under([false], l.taken), Under([true], h.taken);
    TilesUnder(r.tree, false, l.taken, a);
    if l.ok {
      TilesUnder(r.tree, true, h.taken, a');
      TilesHalves(r.tree, ps, qs, a, a' + Size(x.left));
      assert |ps| == |l.taken| && |qs| == |h.taken|;
    }
  }

  lemma ClampParts(x: int, off: nat, m: nat, n: nat)
    ensures Clamp(x - off, m + n) == Clamp(x - off, m) + Clamp(x - (off + m), n)
  {}

  lemma TilesHalves(t: Tree, ps: seq<Path>, qs: seq<Path>, a: int, b: int)
    requires Tiles(t, ps, a) && Tiles(t, qs, b) && (ps != [] && qs != [] ==> a + Total(t, ps) == b)
    ensures Tiles(t, ps + qs, if ps == [] then b else a)
    ensures Total(t, ps + qs) == Total(t, ps) + Total(t, qs)
  {
    TotalJoin(t, ps, qs);
    if ps == [] {
      assert ps + qs == qs;
    } else if qs == [] {
      assert ps + qs == ps;
    } else {
      TilesJoin(t, ps, qs, a);
    }
  }

  // ---------- Effect on the chunks ----------

  predicate In(i: int, a: int, n: int) { a <= i < a + n }

  /** Chunk `i` went from free to used, keeping its mark, if it lies in the run; else it is as before. */
  predicate Marked(before: Chunk, after: Chunk, run: bool) {
    if run then before == FreeChunk(after.clear) && after.UsedChunk? else before == after
  }

  lemma RunHalves(i: int, m: nat, a: nat, b: nat, a': nat, b': nat, n: nat, n': nat)
    requires a <= b <= m && a' <= b' && n == b - a && n' <= b' - a'
    requires (a < m ==> a' == 0) && (b' > 0 ==> b == m)
    ensures i < m ==> (In(i, a + a', n + n') <==> In(i, a, n))
    ensures i >= m ==> (In(i, a + a', n + n') <==> In(i - m, a', n'))
  {}

  lemma {:induction false} CarveChunk(o: nat, c: bool, off: nat, s: int, e: int, i: nat)
    requires i < Pow2(o)
    ensures var u := Carve(o, c, off, s, e);
            Size(u) == Pow2(o) && Marked(FreeChunk(c), ChunkAt(u, i), s <= off + i < e)
  {
    CarveKeeps(o, c, off, s, e);
    SizeOfBlock(Carve(o, c, off, s, e));
    if Overlaps(s, e, off, off + Pow2(o)) && !Contains(s, e, off, off + Pow2(o)) {
      var m := Pow2(o - 1);
      var l := Carve(o - 1, c, off, s, e);
      CarveKeeps(o - 1, c, off, s, e);
      SizeOfBlock(l);
      if i < m { CarveChunk(o - 1, c, off, s, e, i); } else { CarveChunk(o - 1, c, off + m, s, e, i - m); }
    }
  }

  /** Chunk `i` after the traversal, seen from a tree of `size` chunks that starts at `off`. */
  predicate TookChunk(before: Chunk, r: Outcome, size: nat, off: nat, s: int, i: nat) {
    match r
    case Outcome(_, tree, taken, _) =>
      i < Size(tree) && Marked(before, ChunkAt(tree, i), In(i, Clamp(s - off, size), Total(tree, taken)))
  }

  lemma TakeLeafChunk(t: Tree, off: nat, s: int, e: int, clear: int, i: nat)
    requires WF(t) && s < e && i < Size(t) && Stops(t, off, s, e, clear)
    ensures TookChunk(ChunkAt(t, i), Take(t, off, s, e, clear), Size(t), off, s, i)
  {
    if t.Free? {
      CarveChunk(t.order, t.clear, off, s, e, i);
      CarveTiles(t.order, t.clear, off, s, e);
    }
  }

  lemma {:induction false} TakeChunk(t: Tree, off: nat, s: int, e: int, clear: int, i: nat)
    requires WF(t) && s < e && i < Size(t)
    ensures TookChunk(ChunkAt(t, i), Take(t, off, s, e, clear), Size(t), off, s, i)
  {
    if Stops(t, off, s, e, clear) {
      TakeLeafChunk(t, off, s, e, clear, i);
    } else {
      var m := Size(t.left);
      var l := Take(t.left, off, s, e, clear);
      var h := Take(t.right, off + m, s, e, l.clear);
      if i < m {
        TakeChunk(t.left, off, s, e, clear, i);
        TakeLeftChunk(t, off, s, e, clear, l, h, i);
      } else {
        TakeChunk(t.right, off + m, s, e, l.clear, i - m);
        TakeRightChunk(t, off, s, e, clear, l, h, i);
      }
    }
  }

  lemma TakeLeftChunk(t: Tree, off: nat, s: int, e: int, clear: int, l: Outcome, h: Outcome, i: nat)
    requires WF(t) && s < e && !Stops(t, off, s, e, clear) && i < Size(t.left)
    requires l == Take(t.left, off, s, e, clear) && h == Take(t.right, off + Size(t.left), s, e, l.clear)
    requires TookChunk(ChunkAt(t.left, i), l, Size(t.left), off, s, i)
    ensures TookChunk(ChunkAt(t, i), Take(t, off, s, e, clear), Size(t), off, s, i)
  {
    TakeParts(t, off, s, e, clear, l, h);
    LeftChunk(t, off, s, e, l, h, Take(t, off, s, e, clear), i);
  }

  lemma TakeRightChunk(t: Tree, off: nat, s: int, e: int, clear: int, l: Outcome, h: Outcome, i: nat)
    requires WF(t) && s < e && !Stops(t, off, s, e, clear) && Size(t.left) <= i < Size(t)
    requires l == Take(t.left, off, s, e, clear) && h == Take(t.right, off + Size(t.left), s, e, l.clear)
    requires TookChunk(ChunkAt(t.right, i - Size(t.left)), h, Size(t.right), off + Size(t.left), s, i - Size(t.left))
    ensures TookChunk(ChunkAt(t, i), Take(t, off, s, e, clear), Size(t), off, s, i)
  {
    TakeParts(t, off, s, e, clear, l, h);
    RightChunk(t, off, s, e, l, h, Take(t, off, s, e, clear), i);
  }

  lemma TakeParts(t: Tree, off: nat, s: int, e: int, clear: int, l: Outcome, h: Outcome)
    requires WF(t) && s < e && !Stops(t, off, s, e, clear)
    requires l == Take(t.left, off, s, e, clear) && h == Take(t.right, off + Size(t.left), s, e, l.clear)
    ensures Take(t, off, s, e, clear) == Both(t, l, h) && Size(l.tree) == Size(t.left)
    ensures TookRange(FreeSize(t.left), Size(t.left), off, s, e, l)
    ensures TookRange(FreeSize(t.right), Size(t.right), off + Size(t.left), s, e, h)
  {
    TakeTiles(t.left, off, s, e, clear);
    TakeTiles(t.right, off + Size(t.left), s, e, l.clear);
    TakeKeeps(t.left, off, s, e, clear);
    TakeInner(t, off, s, e, clear);
  }

  lemma BothTotal(t: Tree, l: Outcome, h: Outcome, a: int, a': int)
    requires t.Inner?() && Tiles(l.tree, l.taken, a) && Tiles(h.tree, h.taken, a')
    ensures var r := Both(t, l, h);
            Total(r.tree, r.taken) == Total(l.tree, l.taken) + if l.ok then Total(h.tree, h.taken) else 0
  {
    var r := Both(t, l, h);
    TilesUnder(r.tree, false, l.taken, a);
    if l.ok {
      TilesUnder(r.tree, true, h.taken, a');
      TotalJoin(r.tree, Under([false], l.taken), Under([true], h.taken));
    }
  }

  /** Where the run lies, told from the runs in the two halves. */
  lemma BothRun(t: Tree, off: nat, s: int, e: int, l: Outcome, h: Outcome, i: nat)
    requires t.Inner?() && s < e && i < Size(t)
    requires TookRange(FreeSize(t.left), Size(t.left), off, s, e, l)
    requires TookRange(FreeSize(t.right), Size(t.right), off + Size(t.left), s, e, h)
    ensures var r := Both(t, l, h);
            In(i, Clamp(s - off, Size(t)), Total(r.tree, r.taken)) <==>
            if i < Size(t.left) then In(i, Clamp(s - off, Size(t.left)), Total(l.tree, l.taken))
            else l.ok && In(i - Size(t.left), Clamp(s - (off + Size(t.left)), Size(t.right)), Total(h.tree, h.taken))
  {
    var m, n := Size(t.left), Size(t.right);
    BothTotal(t, l, h, Clamp(s - off, m), Clamp(s - (off + m), n));
    RunParts(i, off, s, e, m, n, Total(l.tree, l.taken), Total(h.tree, h.taken), l.ok);
  }

  lemma RunParts(i: nat, off: nat, s: int, e: int, m: nat, n: nat, x: nat, y: nat, ok: bool)
    requires s < e && i < m + n && x <= Clamp(e - off, m) - Clamp(s - off, m) &&
             y <= Clamp(e - (off + m), n) - Clamp(s - (off + m), n)
    requires ok ==> x == Clamp(e - off, m) - Clamp(s - off, m)
    ensures In(i, Clamp(s - off, m + n), x + if ok then y else 0) <==>
            if i < m then In(i, Clamp(s - off, m), x) else ok && In(i - m, Clamp(s - (off + m), n), y)
  {
    ClampParts(s, off, m, n);
    if ok {
      RunHalves(i, m, Clamp(s - off, m), Clamp(e - off, m), Clamp(s - (off + m), n), Clamp(e - (off + m), n), x, y);
    }
  }

  lemma LeftChunk(t: Tree, off: nat, s: int, e: int, l: Outcome, h: Outcome, r: Outcome, i: nat)
    requires t.Inner?() && s < e && r == Both(t, l, h) && i < Size(t.left) == Size(l.tree)
    requires TookRange(FreeSize(t.left), Size(t.left), off, s, e, l)
    requires TookRange(FreeSize(t.right), Size(t.right), off + Size(t.left), s, e, h)
    requires TookChunk(ChunkAt(t.left, i), l, Size(t.left), off, s, i)
    ensures TookChunk(ChunkAt(t, i), r, Size(t), off, s, i)
  {
    BothRun(t, off, s, e, l, h, i);
    assert ChunkAt(r.tree, i) == ChunkAt(l.tree, i);
  }

  lemma RightChunk(t: Tree, off: nat, s: int, e: int, l: Outcome, h: Outcome, r: Outcome, i: nat)
    requires t.Inner?() && s < e && r == Both(t, l, h) && Size(t.left) == Size(l.tree) <= i < Size(t)
    requires TookRange(FreeSize(t.left), Size(t.left), off, s, e, l)
    requires TookRange(FreeSize(t.right), Size(t.right), off + Size(t.left), s, e, h)
    requires TookChunk(ChunkAt(t.right, i - Size(t.left)), h, Size(t.right), off + Size(t.left), s, i - Size(t.left))
    ensures TookChunk(ChunkAt(t, i), r, Size(t), off, s, i)
  {
    var m := Size(t.left);
    BothRun(t, off, s, e, l, h, i);
    RightMarked(t, l, h, r, i, In(i - m, Clamp(s - (off + m), Size(t.right)), Total(h.tree, h.taken)),
                In(i, Clamp(s - off, Size(t)), Total(r.tree, r.taken)));
  }

  lemma RightMarked(t: Tree, l: Outcome, h: Outcome, r: Outcome, i: nat, inRight: bool, run: bool)
    requires t.Inner?() && r == Both(t, l, h) && Size(t.left) == Size(l.tree) <= i < Size(t) &&
             (run <==> l.ok && inRight)
    requires i - Size(t.left) < Size(h.tree) &&
             Marked(ChunkAt(t.right, i - Size(t.left)), ChunkAt(h.tree, i - Size(t.left)), inRight)
    ensures i < Size(r.tree) && Marked(ChunkAt(t, i), ChunkAt(r.tree, i), run)
  {
    assert ChunkAt(r.tree, i) == ChunkAt(if l.ok then h.tree else t.right, i - Size(t.left));
  }

  lemma AllUsedUnder(t: Tree, b: bool, ps: seq<Path>)
    requires t.Inner?() && AllUsed(Child(t, b), ps)
    ensures AllUsed(t, Under([b], ps))
  {
    var qs := Under([b], ps);
    forall i | 0 <= i < |qs| ensures UsedBlockAt(t, qs[i]) {
      assert qs[i] == [b] + ps[i] && qs[i][1..] == ps[i];
    }
    forall i, j | 0 <= i < j < |qs| && Pair(i, j) ensures qs[i] != qs[j] {
      assert qs[i][1..] == ps[i] && qs[j][1..] == ps[j];
    }
  }

  lemma AllUsedBoth(t: Tree, ps: seq<Path>, qs: seq<Path>)
    requires t.Inner?() && AllUsed(t.left, ps) && AllUsed(t.right, qs)
    ensures AllUsed(t, Under([false], ps) + Under([true], qs))
  {
    AllUsedUnder(t, false, ps);
    AllUsedUnder(t, true, qs);
    var x, y := Under([false], ps), Under([true], qs);
    forall q | q in x ensures q !in y {
      assert !q[0];
    }
    NoDupJoin(x, y);
  }

  lemma {:induction false} CarveUsed(o: nat, c: bool, off: nat, s: int, e: int)
    ensures AllUsed(Carve(o, c, off, s, e), Useds(Carve(o, c, off, s, e)))
  {
    if Overlaps(s, e, off, off + Pow2(o)) && !Contains(s, e, off, off + Pow2(o)) {
      var l, h := Carve(o - 1, c, off, s, e), Carve(o - 1, c, off + Pow2(o - 1), s, e);
      CarveUsed(o - 1, c, off, s, e);
      CarveUsed(o - 1, c, off + Pow2(o - 1), s, e);
      AllUsedBoth(Split(o, false, l, h), Useds(l), Useds(h));
    }
  }

  lemma BothUsed(t: Tree, l: Outcome, h: Outcome, r: Outcome)
    requires t.Inner?() && AllUsed(l.tree, l.taken) && AllUsed(h.tree, h.taken) && r == Both(t, l, h)
    ensures AllUsed(r.tree, r.taken)
  {
    if l.ok {
      AllUsedBoth(r.tree, l.taken, h.taken);
    } else {
      AllUsedUnder(r.tree, false, l.taken);
    }
  }

  lemma {:induction false} TakeUsed(t: Tree, off: nat, s: int, e: int, clear: int)
    ensures var r := Take(t, off, s, e, clear); AllUsed(r.tree, r.taken)
  {
    if Stops(t, off, s, e, clear) {
      if t.Free? { CarveUsed(t.order, t.clear, off, s, e); }
    } else {
      var l := Take(t.left, off, s, e, clear);
      TakeUsed(t.left, off, s, e, clear);
      TakeUsed(t.right, off + Size(t.left), s, e, l.clear);
      TakeInner(t, off, s, e, clear);
      BothUsed(t, l, Take(t.right, off + Size(t.left), s, e, l.clear), Take(t, off, s, e, clear));
    }
  }

  lemma {:induction false} TilesCover(t: Tree, ps: seq<Path>, a: int, i: nat)
    requires Tiles(t, ps, a) && AllUsed(t, ps)
    ensures Covered(t, ps, i) <==> In(i, a, Total(t, ps))
  {
    if ps != [] {
      var n := Size(At(t, ps[0]));
      NoDupTail(ps);
      assert AllUsed(t, ps[1..]);
      TilesCover(t, ps[1..], a + n, i);
      if Covers(t, ps[0], i) { assert Covered(t, ps, i); }
      if Covered(t, ps[1..], i) {
        var j :| 0 <= j < |ps[1..]| && Covers(t, ps[1..][j], i);
        assert Covers(t, ps[1 + j], i);
      }
      if Covered(t, ps, i) && !Covers(t, ps[0], i) {
        var j :| 0 <= j < |ps| && Covers(t, ps[j], i);
        assert Covers(t, ps[1..][j - 1], i);
      }
    }
  }

  /** Releasing what was taken, whether the traversal succeeded or stopped half way, undoes it all. */
  lemma TakeUndone(t: Tree, s: int, e: int, clear: int)
    requires WF(t) && Maximal(t) && s < e
    ensures var r := Take(t, 0, s, e, clear); AllUsed(r.tree, r.taken) && Released(r.tree, r.taken, Keep) == t
  {
    var r := Take(t, 0, s, e, clear);
    TakeKeeps(t, 0, s, e, clear);
    TakeMaximal(t, 0, s, e, clear);
    TakeUsed(t, 0, s, e, clear);
    TakeTiles(t, 0, s, e, clear);
    forall i: nat | i < Size(t)
      ensures ChunkAt(t, i) == if Covered(r.tree, r.taken, i) then FreeChunk(ChunkAt(r.tree, i).clear)
                               else ChunkAt(r.tree, i)
    {
      TakeChunk(t, 0, s, e, clear, i);
      TilesCover(r.tree, r.taken, Clamp(s, Size(t)), i);
    }
    RollbackRestores(t, r.tree, r.taken);
  }

  // ---------- When it succeeds ----------

  predicate AllFree(t: Tree, off: nat, s: int, e: int) {
    forall i: nat | i < Size(t) && s <= off + i < e :: ChunkAt(t, i).FreeChunk?
  }

  lemma AllFreeHalves(t: Tree, off: nat, s: int, e: int)
    requires t.Inner?()
    ensures AllFree(t, off, s, e) <==>
            AllFree(t.left, off, s, e) && AllFree(t.right, off + Size(t.left), s, e)
  {
    if AllFree(t, off, s, e) {
      forall i: nat | i < Size(t.left) && s <= off + i < e ensures ChunkAt(t.left, i).FreeChunk? {
        assert ChunkAt(t, i).FreeChunk?;
      }
      forall i: nat | i < Size(t.right) && s <= off + Size(t.left) + i < e ensures ChunkAt(t.right, i).FreeChunk? {
        assert ChunkAt(t, Size(t.left) + i).FreeChunk?;
      }
    }
    if AllFree(t.left, off, s, e) && AllFree(t.right, off + Size(t.left), s, e) {
      forall i: nat | i < Size(t) && s <= off + i < e ensures ChunkAt(t, i).FreeChunk? {
        if i < Size(t.left) {
          assert ChunkAt(t.left, i).FreeChunk?;
        } else {
          assert ChunkAt(t.right, i - Size(t.left)).FreeChunk?;
        }
      }
    }
  }

  lemma {:induction false} NoClear(t: Tree, i: nat)
    requires ClearSize(t) == 0 && i < Size(t)
    ensures ChunkAt(t, i) != FreeChunk(true)
  {
    if t.Inner?() {
      if i < Size(t.left) { NoClear(t.left, i); } else { NoClear(t.right, i - Size(t.left)); }
    }
  }

  /**
    An exact range can be taken if and only if all of it is free. In particular giving up on a
    contained split block once no clear chunk is left never rejects a free range: in canonical form
    such a block holds a used chunk.
   */
  lemma {:induction false} TakeSucceeds(t: Tree, off: nat, s: int, e: int, clear: int)
    requires WF(t) && Maximal(t) && s < e && clear >= ClearSize(t)
    ensures Take(t, off, s, e, clear).ok <==> AllFree(t, off, s, e)
  {
    if Stops(t, off, s, e, clear) {
      if t.Block?() {
        SizeOfBlock(t);
        if t.Allocated? && Overlaps(s, e, off, off + Size(t)) {
          var i: nat := if s <= off then 0 else s - off;
          assert ChunkAt(t, i).UsedChunk?;
        }
        if t.Split? && Overlaps(s, e, off, off + Size(t)) { SplitHoldsUsed(t, off, s, e); }
      }
    } else {
      var l := Take(t.left, off, s, e, clear);
      TakeClear(t.left, off, s, e, clear);
      TakeSucceeds(t.left, off, s, e, clear);
      TakeSucceeds(t.right, off + Size(t.left), s, e, l.clear);
      AllFreeHalves(t, off, s, e);
      TakeInner(t, off, s, e, clear);
    }
  }

  lemma SplitHoldsUsed(t: Tree, off: nat, s: int, e: int)
    requires WF(t) && Maximal(t) && t.Split? && ClearSize(t) == 0 && Contains(s, e, off, off + Size(t))
    ensures !AllFree(t, off, s, e)
  {
    if AllFree(t, off, s, e) {
      forall i: nat | i < Size(t) ensures ChunkAt(t, i) == FreeChunk(false) {
        NoClear(t, i);
        assert ChunkAt(t, i).FreeChunk?;
      }
      UniformIsFree(t, false);
    }
  }
}
