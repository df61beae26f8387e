/** Giving back part of an allocated block. */
module BuddyTrim {
  import opened Common
  import opened Powers
  import opened BuddyTree
  import opened BuddyLists
  import opened BuddyCanon
  import opened BuddyRange
  import opened BuddyWork
  import opened BuddyState
  import opened BuddyHeld
  import opened BuddyRoots

  /** The arguments that `drm_buddy_block_trim` refuses; sizes in bytes. */
  predicate TrimRefused(t: Tree, blocks: seq<Path>, start: Option<nat>, newSize: nat, chunk: nat)
    requires chunk > 0
  {
    |blocks| != 1 || !UsedBlockAt(t, blocks[0]) || newSize == 0 || !Multiple(newSize, chunk) ||
    (var from, full := Off(t, blocks[0]) * chunk, Pow2(At(t, blocks[0]).order) * chunk;
     newSize > full ||
     (newSize < full && start.Some? &&
      (!Multiple(start.value, chunk) || start.value < from || start.value + newSize > from + full)))
  }

  /** Aligned sizes in bytes compare like sizes in chunks. */
  lemma InChunks(off: nat, n: nat, start: nat, size: nat, chunk: nat)
    requires chunk > 0 && size > 0 && Multiple(start, chunk) && Multiple(size, chunk)
    requires off * chunk <= start && start + size <= off * chunk + n * chunk
    ensures size / chunk > 0 && off <= start / chunk && start / chunk + size / chunk <= off + n
  {
    var a, b := start / chunk, size / chunk;
    assert start == a * chunk && size == b * chunk;
    Scaled(off, a, chunk);
    assert (a + b) * chunk == a * chunk + b * chunk && (off + n) * chunk == off * chunk + n * chunk;
    Scaled(a + b, off + n, chunk);
  }

  lemma Scaled(a: int, b: int, m: nat)
    requires m > 0
    ensures a * m <= b * m <==> a <= b
  {
    if a <= b { MulOrder(a, b, m); } else { MulOrder(b + 1, a, m); assert (b + 1) * m == b * m + m; }
  }

  /** Blocks found inside `x`, seen from the tree that `x` was put into. */
  lemma {:induction false} TilesPlaced(t: Tree, p: Path, x: Tree, ps: seq<Path>, a: int)
    requires Has(t, p) && Tiles(x, ps, a)
    ensures var u, qs := Put(t, p, x), Under(p, ps); Tiles(u, qs, Off(t, p) + a) && Total(u, qs) == Total(x, ps)
  {
    hide Tiles;
    hide Total;
    UnderUnder([], [], ps);
    if p != [] {
      var u := Put(t, p, x);
      TilesPlaced(Child(t, p[0]), p[1..], x, ps, a);
      TilesUnder(u, p[0], Under(p[1..], ps), Off(Child(t, p[0]), p[1..]) + a);
      UnderUnder([p[0]], p[1..], ps);
      assert p == [p[0]] + p[1..];
    }
  }

  lemma {:induction false} UsedPlaced(t: Tree, p: Path, x: Tree, ps: seq<Path>)
    requires Has(t, p) && AllUsed(x, ps)
    ensures AllUsed(Put(t, p, x), Under(p, ps))
  {
    UnderUnder([], [], ps);
    if p != [] {
      UsedPlaced(Child(t, p[0]), p[1..], x, ps);
      AllUsedUnder(Put(t, p, x), p[0], Under(p[1..], ps));
      UnderUnder([p[0]], p[1..], ps);
      assert p == [p[0]] + p[1..];
    }
  }

  lemma TakeAllSingle(t: Tree, p: Path, x: Tree, s: int, e: int, clear: int)
    requires WF(t) && FreeBlockAt(t, p) && x == Carve(At(t, p).order, At(t, p).clear, Off(t, p), s, e)
    ensures var r := TakeAll(t, [p], s, e, clear);
            r.ok && r.tree == Put(t, p, x) && r.taken == Under(p, Useds(x))
  {
    assert Under(p, Useds(x)) + [] == Under(p, Useds(x));
    assert TakeOne(t, p, s, e, clear).tree == x;
  }

  /** Taking `[s, e)` out of one free block that contains it cannot fail. */
  lemma CarvedOut(t: Tree, p: Path, s: nat, e: nat, clear: int)
    requires WF(t) && FreeBlockAt(t, p) && Off(t, p) <= s < e <= Off(t, p) + Pow2(At(t, p).order)
    ensures var x := Carve(At(t, p).order, At(t, p).clear, Off(t, p), s, e);
            var r := TakeAll(t, [p], s, e, clear);
            r.ok && r.tree == Put(t, p, x) && r.taken == Under(p, Useds(x)) &&
            AllUsed(r.tree, r.taken) && Tiles(r.tree, r.taken, s) && Total(r.tree, r.taken) == e - s
  {
    var x := Carve(At(t, p).order, At(t, p).clear, Off(t, p), s, e);
    TakeAllSingle(t, p, x, s, e, clear);
    CarvedPlaced(t, p, x, s, e);
  }

  lemma CarvedPlaced(t: Tree, p: Path, x: Tree, s: nat, e: nat)
    requires Has(t, p) && At(t, p).Free? && x == Carve(At(t, p).order, At(t, p).clear, Off(t, p), s, e)
    requires Off(t, p) <= s < e <= Off(t, p) + Pow2(At(t, p).order)
    ensures var u, qs := Put(t, p, x), Under(p, Useds(x)); AllUsed(u, qs) && Tiles(u, qs, s) && Total(u, qs) == e - s
  {
    hide Carve;
    hide Useds;
    hide Tiles;
    hide Total;
    var o, c, off := At(t, p).order, At(t, p).clear, Off(t, p);
    CarveTiles(o, c, off, s, e);
    CarveUsed(o, c, off, s, e);
    TilesPlaced(t, p, x, Useds(x), s - off);
    UsedPlaced(t, p, x, Useds(x));
  }

  /** The allocated block `p` was cut down to `[s, e)`, which the blocks `out` make up. */
  predicate Trimmed(t: Tree, p: Path, s: nat, e: nat, u: Tree, out: seq<Path>) {
    UsedBlockAt(t, p) && Off(t, p) <= s < e <= Off(t, p) + Pow2(At(t, p).order) &&
    u == Put(t, p, Carve(At(t, p).order, At(t, p).clear, Off(t, p), s, e)) &&
    AllUsed(u, out) && Tiles(u, out, s) && Total(u, out) == e - s && forall i | 0 <= i < |out| :: Prefix(p, out[i])
  }

  /** The other blocks of the list are where they were. */
  lemma TrimmedOthers(t: Tree, p: Path, s: nat, e: nat, u: Tree, out: seq<Path>, rest: seq<Path>)
    requires WF(t) && Trimmed(t, p, s, e, u, out) && AllUsed(t, rest + [p])
    ensures AllUsed(u, rest + out) && AllUsed(t, rest) && AllUsed(u, rest)
    ensures forall i | 0 <= i < |rest| :: At(u, rest[i]) == At(t, rest[i]) && Off(u, rest[i]) == Off(t, rest[i])
    ensures forall i: nat | Covered(t, rest, i) :: !Covers(t, p, i)
    ensures forall i: nat :: Covered(u, rest, i) <==> Covered(t, rest, i)
  {
    var x := Carve(At(t, p).order, At(t, p).clear, Off(t, p), s, e);
    CarveKeeps(At(t, p).order, At(t, p).clear, Off(t, p), s, e);
    PutKeeps(t, p, x);
    NoDupParts(rest, [p]);
    forall i | 0 <= i < |rest|
      ensures UsedBlockAt(t, rest[i]) && UsedBlockAt(u, rest[i]) && At(u, rest[i]) == At(t, rest[i])
      ensures Off(u, rest[i]) == Off(t, rest[i]) && Apart(p, rest[i])
    {
      assert (rest + [p])[i] == rest[i] && (rest + [p])[|rest|] == p && p in [p];
      LeavesApart(t, p, rest[i]);
      PutApart(t, p, x, rest[i]);
      OffStable(t, u, rest[i]);
    }
    forall q | q in rest ensures q !in out {
      var i :| 0 <= i < |rest| && q == rest[i];
      assert Apart(p, rest[i]);
    }
    NoDupJoin(rest, out);
    forall i: nat | Covered(t, rest, i) ensures !Covers(t, p, i) {
      var j :| 0 <= j < |rest| && Covers(t, rest[j], i);
      ApartDisjoint(t, p, rest[j]);
    }
    forall i: nat ensures Covered(u, rest, i) <==> Covered(t, rest, i) {
      forall j | 0 <= j < |rest| ensures Covers(u, rest[j], i) <==> Covers(t, rest[j], i) {}
    }
  }

  /** The chunks that were cut off are free again, as they were before the block was taken. */
  lemma TrimmedTaken(exact: bool, t0: Tree, t: Tree, p: Path, s: nat, e: nat, u: Tree, out: seq<Path>, rest: seq<Path>)
    requires WF(t) && Trimmed(t, p, s, e, u, out) && Taken(exact, t0, t, rest + [p])
    ensures Taken(exact, t0, u, rest + out)
  {
    TrimmedOthers(t, p, s, e, u, out, rest);
    var o, c, off := At(t, p).order, At(t, p).clear, Off(t, p);
    CarveKeeps(o, c, off, s, e);
    SizeOfBlock(Carve(o, c, off, s, e));
    PutKeeps(t, p, Carve(o, c, off, s, e));
    forall i: nat | i < Size(t) ensures ChunkTaken(exact, ChunkAt(t0, i), ChunkAt(u, i), Covered(u, rest + out, i)) {
      TrimmedChunk(exact, t0, t, p, s, e, u, out, rest, i);
    }
  }

  lemma TrimmedChunk(exact: bool, t0: Tree, t: Tree, p: Path, s: nat, e: nat, u: Tree, out: seq<Path>, rest: seq<Path>,
                     i: nat)
    requires WF(t) && Trimmed(t, p, s, e, u, out) && Taken(exact, t0, t, rest + [p]) && i < Size(t) == Size(u)
    requires AllUsed(u, rest + out) && AllUsed(t, rest) && AllUsed(u, rest)
    requires Covered(t, rest, i) ==> !Covers(t, p, i)
    requires Covered(u, rest, i) <==> Covered(t, rest, i)
    ensures ChunkTaken(exact, ChunkAt(t0, i), ChunkAt(u, i), Covered(u, rest + out, i))
  {
    hide Carve;
    hide Put;
    hide ChunkAt;
    hide Tiles;
    hide Total;
    CoveredJoin(u, rest, out, i);
    CoveredJoin(t, rest, [p], i);
    TilesCover(u, out, s, i);
    assert Covered(t, [p], i) <==> Covers(t, [p][0], i);
    CutChunk(t, p, s, e, i);
    assert ChunkTaken(exact, ChunkAt(t0, i), ChunkAt(t, i), Covered(t, rest + [p], i));
  }

  lemma CutChunk(t: Tree, p: Path, s: nat, e: nat, i: nat)
    requires WF(t) && UsedBlockAt(t, p) && Off(t, p) <= s < e <= Off(t, p) + Pow2(At(t, p).order) && i < Size(t)
    ensures var x := At(t, p); var u := Put(t, p, Carve(x.order, x.clear, Off(t, p), s, e));
            Size(u) == Size(t) &&
            if Covers(t, p, i)
            then ChunkAt(t, i) == UsedChunk(x.order, x.clear) && Marked(FreeChunk(x.clear), ChunkAt(u, i), s <= i < e)
            else ChunkAt(u, i) == ChunkAt(t, i)
  {
    hide Carve;
    var o, c, off := At(t, p).order, At(t, p).clear, Off(t, p);
    var x := Carve(o, c, off, s, e);
    CarveKeeps(o, c, off, s, e);
    SizeOfBlock(x);
    ChunkPut(t, p, x, i);
    if off <= i < off + Pow2(o) {
      CarveChunk(o, c, off, s, e, i - off);
      ChunkWithin(t, p, i - off);
    }
  }

  /** Opening the block and carving `[s, e)` out of it. */
  lemma CutWhole(t: Tree, p: Path, s: nat, e: nat)
    requires WF(t) && Maximal(t) && UsedBlockAt(t, p) && Off(t, p) <= s < e <= Off(t, p) + Pow2(At(t, p).order)
    ensures var b := At(t, p); var x := Carve(b.order, b.clear, Off(t, p), s, e);
            var u := Put(t, p, Free(b.order, b.clear));
            FreeBlockAt(u, p) && At(u, p) == Free(b.order, b.clear) && Off(u, p) == Off(t, p) &&
            Put(u, p, x) == Put(t, p, x) &&
            Maximal(Put(t, p, x)) && FreeSize(Put(t, p, x)) == FreeSize(t) + Pow2(b.order) - (e - s) &&
            forall i | 0 <= i < |Useds(x)| :: Prefix(p, Under(p, Useds(x))[i])
  {
    var o, c := At(t, p).order, At(t, p).clear;
    var x := Carve(o, c, Off(t, p), s, e);
    OffPutSelf(t, p, Free(o, c));
    PutAt(t, p, Free(o, c));
    PutPut(t, p, Free(o, c), x);
    CarveKeeps(o, c, Off(t, p), s, e);
    CarveTiles(o, c, Off(t, p), s, e);
    SizesPut(t, p, x);
    MaximalPut(t, p, x);
  }

  // ---------- Trimming the last block of an allocation ----------

  lemma TrimAccepted(t: Tree, p: Path, m: nat, chunk: nat)
    requires UsedBlockAt(t, p) && 0 < m < Pow2(At(t, p).order) && chunk > 0
    ensures !TrimRefused(t, [p], None, m * chunk, chunk)
    ensures m * chunk / chunk == m && m * chunk != Pow2(At(t, p).order) * chunk
  {
    MultipleIs(m, chunk);
    Scaled(m, Pow2(At(t, p).order), chunk);
    Scaled(Pow2(At(t, p).order), m, chunk);
    Scaled(m, 0, chunk);
  }

  lemma {:induction false} TilesWithin(t: Tree, ps: seq<Path>, a: int, i: nat)
    requires Tiles(t, ps, a) && i < |ps|
    ensures Has(t, ps[i]) && a <= Off(t, ps[i]) && Off(t, ps[i]) + Size(At(t, ps[i])) <= a + Total(t, ps)
  {
    if i > 0 { TilesWithin(t, ps[1..], a + Size(At(t, ps[0])), i - 1); }
  }

  /** The first `tail` blocks are whole; the others are one aligned run, left over from a trimmed block. */
  predicate Placed(t: Tree, got: seq<Path>, tail: nat, min: nat, ranged: bool, lo: nat, hi: nat) {
    tail <= |got| && Fitting(t, got[..tail], min, ranged, lo, hi) && Fitting(t, got[tail..], 0, ranged, lo, hi) &&
    (tail < |got| ==>
     BlockAt(t, got[tail]) && Tiles(t, got[tail..], Off(t, got[tail])) && Multiple(Off(t, got[tail]), Pow2(min)))
  }

  /** Cutting the last block down to its first `m` chunks leaves the allocation placed as it was. */
  lemma TailPlaced(t: Tree, rest: seq<Path>, p: Path, m: nat, u: Tree, out: seq<Path>,
                   min: nat, ranged: bool, lo: nat, hi: nat)
    requires WF(t) && WF(u) && Aligned(t, 0) && AllUsed(t, rest + [p]) && Fitting(t, rest + [p], min, ranged, lo, hi)
    requires m > 0 && UsedBlockAt(t, p) && Trimmed(t, p, Off(t, p), Off(t, p) + m, u, out)
    ensures Placed(u, rest + out, |rest|, min, ranged, lo, hi) &&
            Total(u, rest + out) == Total(t, rest + [p]) - Pow2(At(t, p).order) + m
    ensures rest == [] ==> Tiles(u, rest + out, Off(t, p))
  {
    hide Total;
    hide Put;
    hide Carve;
    var got := rest + out;
    assert got[..|rest|] == rest && got[|rest|..] == out && (rest + [p])[|rest|] == p;
    assert min <= At(t, p).order && (ranged ==> lo <= Off(t, p) && Off(t, p) + Pow2(At(t, p).order) <= hi);
    assert Tiles(u, out, Off(t, p));
    hide Fitting;
    hide Tiles;
    hide Trimmed;
    RestFits(t, rest, p, m, u, out, min, ranged, lo, hi);
    OutFits(t, p, m, u, out, ranged, lo, hi);
    assert Multiple(Off(t, p), Pow2(min)) by {
      NaturalAlignment(t, 0, p);
      MultipleOfSmaller(Off(t, p), min, At(t, p).order);
    }
    assert Total(u, got) == Total(t, rest + [p]) - Pow2(At(t, p).order) + m by {
      TrimmedOthers(t, p, Off(t, p), Off(t, p) + m, u, out, rest);
      TailTotal(t, rest, p, u, out, m);
    }
    if rest == [] { assert got == out; }
  }

  /** The blocks before the last one fit as they did. */
  lemma RestFits(t: Tree, rest: seq<Path>, p: Path, m: nat, u: Tree, out: seq<Path>, min: nat, ranged: bool, lo: nat,
                 hi: nat)
    requires WF(t) && WF(u) && AllUsed(t, rest + [p]) && Fitting(t, rest + [p], min, ranged, lo, hi)
    requires m > 0 && UsedBlockAt(t, p) && Trimmed(t, p, Off(t, p), Off(t, p) + m, u, out)
    ensures Fitting(u, rest, min, ranged, lo, hi)
  {
    TrimmedOthers(t, p, Off(t, p), Off(t, p) + m, u, out, rest);
    forall i | 0 <= i < |rest| ensures (rest + [p])[i] == rest[i] {}
    assert Fitting(t, rest, min, ranged, lo, hi);
    FittingStays(t, u, rest, min, ranged, lo, hi);
  }

  lemma OutFits(t: Tree, p: Path, m: nat, u: Tree, out: seq<Path>, ranged: bool, lo: nat, hi: nat)
    requires WF(t) && WF(u) && m > 0 && UsedBlockAt(t, p) && Trimmed(t, p, Off(t, p), Off(t, p) + m, u, out)
    requires ranged ==> lo <= Off(t, p) && Off(t, p) + Pow2(At(t, p).order) <= hi
    ensures Fitting(u, out, 0, ranged, lo, hi) && out != [] && Off(u, out[0]) == Off(t, p)
  {
    forall i | 0 <= i < |out|
      ensures BlockAt(u, out[i]) &&
              (ranged ==> lo <= Off(u, out[i]) && Off(u, out[i]) + Pow2(At(u, out[i]).order) <= hi)
    {
      TilesWithin(u, out, Off(t, p), i);
    }
  }

  lemma TailTotal(t: Tree, rest: seq<Path>, p: Path, u: Tree, out: seq<Path>, m: nat)
    requires UsedBlockAt(t, p) && Total(u, out) == m
    requires forall i | 0 <= i < |rest| :: Has(t, rest[i]) && Has(u, rest[i]) && At(u, rest[i]) == At(t, rest[i])
    ensures Total(u, rest + out) == Total(t, rest + [p]) - Pow2(At(t, p).order) + m
  {
    TotalJoin(u, rest, out);
    TotalJoin(t, rest, [p]);
    SameTotal(t, u, rest);
    assert Total(t, [p]) == SizeAt(t, p) + Total(t, []);
  }

  lemma WholePlaced(t: Tree, got: seq<Path>, min: nat, ranged: bool, lo: nat, hi: nat)
    requires Fitting(t, got, min, ranged, lo, hi)
    ensures Placed(t, got, |got|, min, ranged, lo, hi)
    ensures |got| == 1 ==> Tiles(t, got, Off(t, got[0]))
  {
    assert got[..|got|] == got && got[|got|..] == [];
    if |got| == 1 { assert got[1..] == [] && Tiles(t, [], Off(t, got[0]) + Size(At(t, got[0]))); }
  }

  lemma PlacedLess(t: Tree, got: seq<Path>, tail: nat, min: nat, ranged: bool, lo: nat, hi: nat)
    requires Placed(t, got, tail, min, ranged, lo, hi)
    ensures Placed(t, got, tail, 0, ranged, lo, hi)
  {}

  lemma UsedFit(t: Tree, got: seq<Path>, lo: nat, hi: nat)
    requires AllUsed(t, got)
    ensures Fitting(t, got, 0, false, lo, hi)
  {}

  // ---------- Requests in bytes and in chunks ----------

  lemma RequestInChunks(start: nat, end: nat, bytes: nat, size: nat, chunk: nat)
    requires chunk > 0 && Multiple(start, chunk) && Multiple(end, chunk) && Multiple(bytes, chunk) && bytes >= chunk
    requires start + bytes <= size * chunk
    ensures bytes / chunk > 0 && start / chunk + bytes / chunk <= size
    ensures start + bytes == end <==> start / chunk + bytes / chunk == end / chunk
  {
    WholeChunks(start, chunk);
    WholeChunks(bytes, chunk);
    WholeChunks(end, chunk);
    ChunkSums(start / chunk, bytes / chunk, end / chunk, size, chunk);
  }

  lemma WholeChunks(x: nat, chunk: nat)
    requires chunk > 0 && Multiple(x, chunk)
    ensures x == x / chunk * chunk
  {}

  lemma ChunkSums(a: nat, b: nat, c: nat, size: nat, chunk: nat)
    requires chunk > 0 && a * chunk + b * chunk <= size * chunk && b * chunk >= chunk
    ensures b > 0 && a + b <= size && (a * chunk + b * chunk == c * chunk <==> a + b == c)
  {
    assert (a + b) * chunk == a * chunk + b * chunk;
    Scaled(a + b, size, chunk);
    Scaled(a + b, c, chunk);
    Scaled(c, a + b, chunk);
    Scaled(1, b, chunk);
  }

  lemma OrdersDiffer(block: nat, chunk: nat)
    requires PowerOfTwo(block) && PowerOfTwo(chunk) && chunk <= block
    ensures Log2(chunk) <= Log2(block) && block == Pow2(Log2(block) - Log2(chunk)) * chunk
  {
    Log2Monotone(chunk, block);
    Pow2Adds(Log2(block) - Log2(chunk), Log2(chunk));
  }
}
