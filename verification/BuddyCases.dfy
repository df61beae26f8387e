/** Requests whose outcome is not what the documentation of the allocator suggests. */
module BuddyCases {
  import opened Powers
  import opened BuddyTree
  import opened BuddyLists
  import opened BuddyCanon
  import opened BuddyRange
  import opened BuddyState
  import opened BuddyBias
  import opened BuddyMerge
  import opened BuddyRoots
  import opened BuddyHeld
  import opened BuddyTrim
  import opened BuddyRoom
  import opened BuddySpare
  import opened BuddyChoice
  import opened BuddyAllocator

  /** A page of 4 KiB. */
  const PAGE: nat := 4096

  lemma PageSize()
    ensures PAGE == Pow2(12) && PowerOfTwo(PAGE) && Log2(PAGE) == 12
  {
    assert Pow2(12) == 4096;
    Log2Unique(4096, 12);
  }

  /** An alignment of 2 to the power of `min` chunks, in bytes. */
  lemma AlignmentInBytes(min: nat)
    ensures PowerOfTwo(Pow2(min) * PAGE) && Log2(Pow2(min) * PAGE) == min + 12 && Pow2(min) * PAGE >= PAGE
  {
    PageSize();
    Pow2Adds(min, 12);
    Log2Unique(Pow2(min + 12), min + 12);
  }

  lemma {:induction false} ClearChunk(t: Tree) returns (i: nat)
    requires ClearSize(t) > 0
    ensures i < Size(t) && ChunkAt(t, i) == FreeChunk(true)
  {
    if t.Free? {
      i := 0;
    } else if ClearSize(t.left) > 0 {
      i := ClearChunk(t.left);
    } else {
      i := ClearChunk(t.right);
      i := Size(t.left) + i;
    }
  }

  lemma {:induction false} NoClearChunk(t: Tree, i: nat)
    requires ClearSize(t) == 0 && i < Size(t)
    ensures ChunkAt(t, i) != FreeChunk(true)
  {
    if t.Inner?() {
      var m := Size(t.left);
      if i < m { NoClearChunk(t.left, i); } else { NoClearChunk(t.right, i - m); }
    }
  }

  /** A canonical device of `d` chunks with the first `k` in use, and no cleared memory. */
  ghost predicate Begun(t: Tree, d: nat, k: nat)
    requires d > 0
  {
    Shaped(t, d, Log2(d)) && Maximal(t) && ClearSize(t) == 0 &&
    forall i: nat | i < d :: ChunkAt(t, i).FreeChunk? <==> k <= i
  }

  lemma FreshBegun(d: nat)
    requires d > 0
    ensures Begun(Fresh(d), d, 0) && AllFree(Fresh(d), 0, 0, d)
  {
    FreshDevice(d);
    FreeSizeFull(Fresh(d));
  }

  lemma TakenBegun(t: Tree, u: Tree, got: seq<Path>, d: nat, k: nat)
    requires 0 < k <= d && Begun(t, d, 0) && Shaped(u, d, Log2(d)) && Maximal(u)
    requires Taken(true, t, u, got) && Tiles(u, got, 0) && Total(u, got) == k
    ensures Begun(u, d, k)
  {
    forall i: nat | i < d ensures (ChunkAt(u, i).FreeChunk? <==> k <= i) && ChunkAt(u, i) != FreeChunk(true) {
      TilesCover(u, got, 0, i);
      NoClearChunk(t, i);
      assert ChunkTaken(true, ChunkAt(t, i), ChunkAt(u, i), Covered(u, got, i));
    }
    if ClearSize(u) > 0 {
      var i := ClearChunk(u);
    }
  }

  /** A new device of `d` chunks of 4 KiB, of which the first `k` are allocated. */
  method Begin(b: Buddy, d: nat, k: nat)
    requires k < d && d * PAGE < Pow2(64)
    modifies b
    ensures b.Valid() && b.chunkSize == PAGE && b.size == d && b.maxOrder == Log2(d) && Begun(b.tree, d, k)
  {
    hide Fresh;
    hide Bits;
    hide Buddy.Served;
    hide Tiles;
    hide Total;
    hide Taken;
    PageSize();
    hide Pow2;
    hide Log2;
    MultipleIs(d, PAGE);
    var err := b.Init(d * PAGE, PAGE);
    FreshBegun(d);
    if k > 0 {
      ghost var t := b.tree;
      MultipleIs(k, PAGE);
      MultipleIs(0, PAGE);
      var got;
      ghost var exact, tail, from;
      err, got, exact, tail, from := b.AllocBlocks(0, k * PAGE, k * PAGE, PAGE,
                                                   Flags(false, false, false, false, false));
      TakenBegun(t, b.tree, got, d, k);
    }
  }

  /** A request for `n` chunks, aligned to 2 to the power of `min` of them, from anywhere on the device. */
  method Ask(b: Buddy, n: nat, min: nat, f: Flags)
    returns (err: Errno, got: seq<Path>, ghost exact: bool, ghost tail: nat, ghost from: nat)
    requires b.Valid() && b.chunkSize == PAGE && 0 < n < b.size
    modifies b`tree, b`freeList, b`avail, b`clearAvail
    ensures b.Took(exact, got) && (!exact ==> old(b.clearAvail) > 0) && (err != Ok ==> got == [])
    ensures b.Served(old(b.tree), err, got, exact, tail, from, 0, b.size, n, min, f)
  {
    hide Buddy.Served;
    hide Pow2;
    hide Log2;
    PageSize();
    AlignmentInBytes(min);
    MultipleIs(n, PAGE);
    MultipleIs(b.size, PAGE);
    MultipleIs(0, PAGE);
    err, got, exact, tail, from := b.AllocBlocks(0, b.size * PAGE, n * PAGE, Pow2(min) * PAGE, f);
  }

  // ---------- Alignment ----------

  /** The free part of the device starts with a free block. */
  lemma BlockBehind(t: Tree, d: nat, k: nat, x: nat, o: nat) returns (q: Path)
    requires d > 0 && Begun(t, d, k) && k <= x && x + Pow2(o) <= d && Multiple(x, Pow2(o))
    ensures FreeBlockAt(t, q) && At(t, q).order >= o && k <= Off(t, q) <= x && Off(t, q) + Pow2(At(t, q).order) <= d
  {
    DirtyIsMerged(t, 0, d, o);
    q := FreeRunBlock(t, x, o, d);
    WFAt(t, q);
    SizeOfBlock(At(t, q));
    ChunkWithin(t, q, 0);
  }

  /** A block that starts behind `k` used chunks, for a power of two, is no larger than that. */
  lemma BlockAtPower(t: Tree, d: nat, o: nat) returns (q: Path)
    requires d > 0 && Begun(t, d, Pow2(o)) && 2 * Pow2(o) <= d
    ensures FreeBlockAt(t, q) && At(t, q).order == o && Off(t, q) == Pow2(o)
  {
    MultipleIs(1, Pow2(o));
    q := BlockBehind(t, d, Pow2(o), Pow2(o), o);
    NaturalAlignment(t, 0, q);
    if At(t, q).order > o {
      Pow2Monotone(o + 1, At(t, q).order);
      MultipleIs(0, Pow2(At(t, q).order));
      MultiplesApart(0, Pow2(o), Pow2(At(t, q).order));
    }
  }

  /** A run that was taken lies behind the chunks that were in use before. */
  lemma RunBehind(t: Tree, u: Tree, got: seq<Path>, from: nat, d: nat, k: nat)
    requires d > 0 && Begun(t, d, k) && WF(u) && Taken(true, t, u, got) && Tiles(u, got, from) && Total(u, got) > 0
    ensures k <= from && from + Total(u, got) <= d && AllUsed(u, got)
  {
    RunInside(u, got, from);
    TilesCover(u, got, from, from);
    assert ChunkTaken(true, ChunkAt(t, from), ChunkAt(u, from), Covered(u, got, from));
  }

  /** Whether 2 to the power of `min` is at most `n`, less than twice as large, or larger still. */
  lemma Bracket(n: nat, min: nat)
    requires n > 0 && n < Pow2(min) < 2 * CeilPow2(n)
    ensures min > 0 && Log2(n) == min - 1 && Pow2(min - 1) < n && CeilPow2(n) == Pow2(min) && Log2(CeilPow2(n)) == min
  {
    Log2Unique(Pow2(min), min);
    var o := Log2(CeilPow2(n));
    if o < min { Pow2Monotone(o + 1, min); }
    Log2Unique(n, min - 1);
  }

  lemma NotSmaller(n: nat, min: nat)
    requires Pow2(min) <= n
    ensures Lesser(min, Log2(n)) == min
  {
    Log2Unique(Pow2(min), min);
    Log2Monotone(Pow2(min), n);
  }

  lemma NotMultiple(x: nat, m: nat)
    requires 0 < x < m
    ensures !Multiple(x, m)
  {
    if Multiple(x, m) {
      MultipleIs(0, m);
      MultiplesApart(0, x, m);
    }
  }

  /** A large block is free, so the request is served in the ordinary way. */
  method AskSpacious(b: Buddy, n: nat, min: nat, k: nat)
    returns (got: seq<Path>, ghost exact: bool, ghost tail: nat, ghost from: nat)
    requires n > 0 && 2 * CeilPow2(n) * PAGE < Pow2(64) && k in {0, CeilPow2(n)}
    modifies b
    ensures b.Valid() && AllUsed(b.tree, got) && Tiles(b.tree, got, from) && Total(b.tree, got) == n
    ensures k <= from && from + n <= 2 * CeilPow2(n) && b.Allotted(got, tail, from, 0, b.size, n, min, CONTIGUOUS)
  {
    hide Tiles;
    hide Total;
    hide Log2;
    hide Pow2;
    var c := CeilPow2(n);
    Begin(b, 2 * c, k);
    ghost var t, o := b.tree, Log2(c);
    MultipleIs(0, c);
    MultipleIs(1, c);
    ghost var q := BlockBehind(t, 2 * c, k, k, o);
    RoomOfBlock(t, 0, q, o, 0, 2 * c);
    Pow2Monotone(o, At(t, q).order);
    var err;
    err, got, exact, tail, from := Ask(b, n, min, CONTIGUOUS);
    Log2Monotone(c, 2 * c);
    RunBehind(t, b.tree, got, from, 2 * c, k);
  }

  const CONTIGUOUS: Flags := Flags(false, true, false, false, false)

  lemma TightOrders(n: nat, o: nat)
    requires Pow2(o) < n < 2 * Pow2(o)
    ensures Log2(3 * Pow2(o)) == o + 1 == Log2(CeilPow2(n)) && n > 1
  {
    Log2Unique(n, o);
    Log2Unique(3 * Pow2(o), o + 1);
    assert n <= Pow2(o + 1);
    Log2Unique(CeilPow2(n), o + 1);
  }

  lemma RunStarts(t: Tree, n: nat, o: nat)
    requires Pow2(o) < n < 2 * Pow2(o) && Begun(t, 3 * Pow2(o), Pow2(o))
    ensures !NoRunFrom(t, n, o + 1)
  {
    var q := BlockAtPower(t, 3 * Pow2(o), o);
    Log2Unique(n, o);
  }

  /** Where a free run starts with a block of the order that is tried, contiguous memory is found. */
  method AskRun(b: Buddy, n: nat, min: nat)
    returns (got: seq<Path>, ghost exact: bool, ghost tail: nat, ghost from: nat)
    requires b.Valid() && b.chunkSize == PAGE && 1 < n < b.size && b.clearAvail == 0
    requires Log2(CeilPow2(n)) <= b.maxOrder && !NoRunFrom(b.tree, n, min)
    modifies b`tree, b`freeList, b`avail, b`clearAvail
    ensures exact && b.Took(true, got) && b.Allotted(got, tail, from, 0, b.size, n, min, CONTIGUOUS)
  {
    hide HasRoom;
    hide HasSpare;
    hide NoRunFrom;
    hide Taken;
    hide Log2;
    hide Buddy.Allotted;
    var err;
    err, got, exact, tail, from := Ask(b, n, min, CONTIGUOUS);
    assert err == Ok;
  }

  /** No block is large enough, so the memory is put together from two blocks. */
  method AskTight(b: Buddy, n: nat, o: nat)
    returns (got: seq<Path>, ghost exact: bool, ghost tail: nat, ghost from: nat)
    requires Pow2(o) < n < 2 * Pow2(o) && 3 * Pow2(o) * PAGE < Pow2(64)
    modifies b
    ensures b.Valid() && AllUsed(b.tree, got) && Tiles(b.tree, got, from) && n <= Total(b.tree, got)
    ensures Pow2(o) <= from < 2 * Pow2(o) && b.Allotted(got, tail, from, 0, b.size, n, o + 1, CONTIGUOUS)
  {
    hide Pow2;
    hide Log2;
    hide Tiles;
    hide Total;
    hide Taken;
    hide NoRunFrom;
    var k := Pow2(o);
    Begin(b, 3 * k, k);
    ghost var t := b.tree;
    TightOrders(n, o);
    RunStarts(t, n, o);
    got, exact, tail, from := AskRun(b, n, o + 1);
    RunBehind(t, b.tree, got, from, 3 * k, k);
  }

  /**
    Whether `min_block_size` is honoured by contiguous requests: for every size and alignment there is a device
    and a state of it in which such a request succeeds, and where it starts is a multiple of the alignment if and
    only if the request is not smaller than the alignment.
   */
  method Alignment(b: Buddy, n: nat, min: nat)
    returns (got: seq<Path>, ghost exact: bool, ghost tail: nat, ghost from: nat)
    requires n > 0 && 2 * CeilPow2(n) * PAGE < Pow2(64)
    modifies b
    ensures b.Valid() && AllUsed(b.tree, got) && Tiles(b.tree, got, from) && n <= Total(b.tree, got)
    ensures b.Allotted(got, tail, from, 0, b.size, n, min, CONTIGUOUS)
    ensures Multiple(from, Pow2(min)) <==> Pow2(min) <= n
  {
    hide Pow2;
    hide Log2;
    hide Tiles;
    hide Total;
    if Pow2(min) <= n {
      got, exact, tail, from := AskSpacious(b, n, min, 0);
      NotSmaller(n, min);
    } else if 2 * CeilPow2(n) <= Pow2(min) {
      got, exact, tail, from := AskSpacious(b, n, min, CeilPow2(n));
      NotMultiple(from, Pow2(min));
    } else {
      Bracket(n, min);
      got, exact, tail, from := AskTight(b, n, min - 1);
      NotMultiple(from, Pow2(min));
    }
  }

  // ---------- Ranges that end at zero ----------

  const RANGE: Flags := Flags(true, false, false, false, false)

  /** A free chunk of the range is room for a chunk. */
  lemma {:induction false} SlotOfChunk(o: nat, off: nat, lo: nat, hi: nat, i: nat)
    requires off <= i < off + Pow2(o) && lo <= i < hi
    ensures SlotRoom(o, off, 0, lo, hi) > 0
  {
    if o > 0 {
      var m := off + Pow2(o - 1);
      SlotOfChunk(o - 1, if i < m then off else m, lo, hi, i);
    }
  }

  lemma {:induction false} RoomOfChunk(t: Tree, off: nat, lo: nat, hi: nat, i: nat)
    requires i < Size(t) && lo <= off + i < hi && ChunkAt(t, i).FreeChunk?
    ensures Room(t, off, 0, lo, hi) > 0
  {
    if t.Inner?() {
      var m := Size(t.left);
      if i < m { RoomOfChunk(t.left, off, lo, hi, i); } else { RoomOfChunk(t.right, off + m, lo, hi, i - m); }
    } else {
      SlotOfChunk(t.order, off, lo, hi, off + i);
    }
  }

  lemma {:induction false} AllPlaced(t: Tree, got: seq<Path>, tail: nat, min: nat, lo: nat, hi: nat, i: nat)
    requires Placed(t, got, tail, min, true, lo, hi) && i < |got|
    ensures BlockAt(t, got[i]) && lo <= Off(t, got[i])
  {
    if i < tail {
      assert got[..tail][i] == got[i];
    } else {
      assert got[tail..][i - tail] == got[i];
    }
  }

  /**
    A request for a chunk in a range that starts at `start` and ends at zero, which has no chunk in it, is
    served from anywhere behind `start`, if any chunk there is free.
   */
  method WrapsAround(b: Buddy, start: nat, ghost i: nat) returns (err: Errno, got: seq<Path>)
    requires b.Valid() && b.chunkSize == PAGE && start <= i < b.size && ChunkAt(b.tree, i).FreeChunk?
    modifies b`tree, b`freeList, b`avail, b`clearAvail
    ensures err == Ok && b.Valid() && AllUsed(b.tree, got) && Total(b.tree, got) == 1
    ensures forall j | 0 <= j < |got| :: start <= Off(b.tree, got[j])
  {
    hide Log2;
    PageSize();
    AlignmentInBytes(0);
    MultipleIs(0, PAGE);
    MultipleIs(1, PAGE);
    MultipleIs(start, PAGE);
    ghost var t := b.tree;
    RoomOfChunk(t, 0, start, b.size, i);
    ghost var exact, tail, from;
    err, got, exact, tail, from := b.AllocBlocks(start * PAGE, 0, PAGE, PAGE, RANGE);
    assert b.Served(t, err, got, exact, tail, from, start, 0, 1, 0, RANGE);
    forall j | 0 <= j < |got| ensures start <= Off(b.tree, got[j]) {
      AllPlaced(b.tree, got, tail, 0, start, b.size, j);
    }
  }

  // ---------- Requests that stop the kernel ----------

  /** A contiguous request for more than the largest power of two of a device that has the memory free. */
  method Stops(b: Buddy, d: nat, n: nat) returns (err: Errno)
    requires d > 0 && d * PAGE < Pow2(64) && Pow2(Log2(d)) < n < d
    modifies b
    ensures err == Bug && b.Valid() && b.avail == b.size == d && Log2(RoundedSize(n, 0, CONTIGUOUS)) > b.maxOrder
  {
    Begin(b, d, 0);
    FreeSizeFull(b.tree);
    TooLarge(d, n);
    var got;
    ghost var exact, tail, from;
    err, got, exact, tail, from := Ask(b, n, 0, CONTIGUOUS);
  }

  lemma TooLarge(d: nat, n: nat)
    requires d > 0 && Pow2(Log2(d)) < n
    ensures Log2(CeilPow2(n)) > Log2(d)
  {
    if Log2(CeilPow2(n)) <= Log2(d) { Pow2Monotone(Log2(CeilPow2(n)), Log2(d)); }
  }

  // ---------- Merging by force in a range ----------

  /** Four chunks, all free: the inner two are cleared, so that no two buddies have been merged. */
  function Marbled(): Tree {
    Roots(Split(2, false, Split(1, false, Free(0, false), Free(0, true)),
                Split(1, false, Free(0, true), Free(0, false))), End)
  }

  /** The same with the upper two merged by force. */
  function HalfMerged(): Tree {
    Roots(Split(2, false, Split(1, false, Free(0, false), Free(0, true)), Free(1, false)), End)
  }

  const THIRD: Path := [false, true, false]

  lemma MarbledPair()
    ensures Pairable(Marbled(), THIRD, 0, 3) && Off(Marbled(), THIRD) == 2 && At(Marbled(), THIRD) == Free(0, true)
    ensures FreeAt(true, Marbled(), THIRD, true) == HalfMerged()
  {
    var t := Marbled();
    assert THIRD[1..] == [true, false] && [true, false][1..] == [false] && [false][1..] == [];
    assert Parent(THIRD) == [false, true] && [false, true][1..] == [true] && [true][1..] == [];
    assert Sibling(THIRD) == [false, true, true] && [false, true, true][1..] == [true, true] &&
           [true, true][1..] == [true];
    assert Pow2(0) == 1 && Pow2(1) == 2;
  }

  /** The only pair of the range that is met merges into a block that is not in it. */
  lemma MarbledMerge()
    ensures TopPair(Marbled(), THIRD, 1, 0, 3) && Room(Marbled(), 0, 1, 0, 3) == 0
    ensures !Helps(Marbled(), THIRD, 0, 3, 1, false)
  {
    MarbledPair();
    forall q | Pairable(Marbled(), q, 0, 3) && At(Marbled(), q).order == 0 ensures Off(Marbled(), q) <= 2 {
      assert Pow2(0) == 1;
    }
    var w := Wish(0, 3, 1, false);
    assert Pow2(0) == 1 && Pow2(1) == 2;
    assert !HasSlot(w, 2, 1);
    assert !Offers(w, HalfMerged(), 0);
    OfferedIff(w, HalfMerged());
  }

  lemma {:induction false} OneRoot(t: Tree)
    requires Shaped(t, 4, 2)
    ensures SameRoots(t, Marbled())
  {
    FallingBounds(t);
    assert Pow2(0) == 1 && Pow2(1) == 2 && Pow2(2) == 4;
    if t.left.order < 2 { Pow2Monotone(t.left.order, 1); }
    if t.left.order > 2 { Pow2Monotone(3, t.left.order); }
    SizeOfBlock(t.left);
    assert WF(t.right);
    if t.right.Roots? { FallingBounds(t.right); }
  }

  lemma MarbledByChunks(t: Tree)
    requires Shaped(t, 4, 2) && Maximal(t) && forall i: nat | i < 4 :: ChunkAt(t, i) == FreeChunk(i in {1, 2})
    ensures t == Marbled()
  {
    OneRoot(t);
    var u := Marbled();
    assert Pow2(0) == 1 && Pow2(1) == 2 && Pow2(2) == 4;
    assert WF(u) && Maximal(u) && Size(u) == 4;
    forall i: nat | i < 4 ensures ChunkAt(t, i) == ChunkAt(u, i) {
      assert ChunkAt(u, 0) == FreeChunk(false) && ChunkAt(u, 1) == FreeChunk(true);
      assert ChunkAt(u, 2) == FreeChunk(true) && ChunkAt(u, 3) == FreeChunk(false);
    }
    Canonical(t, u);
  }

  lemma FourPages()
    ensures 4 * PAGE < Pow2(64) && Log2(4) == 2 && Log2(2) == 1 && Pow2(1) == 2
  {
    PageSize();
    assert Pow2(1) == 2 && Pow2(2) == 4 && Pow2(3) == 8;
    Pow2Adds(3, 12);
    Pow2Monotone(15, 64);
    Log2Unique(4, 2);
    Log2Unique(2, 1);
  }

  /** Two chunks in the middle of a new device of four are allocated, and given back as cleared. */
  method Marble(b: Buddy)
    modifies b
    ensures b.Valid() && b.chunkSize == PAGE && b.size == 4 && b.maxOrder == 2 && b.tree == Marbled()
  {
    hide Tiles;
    hide Total;
    hide Taken;
    hide Released;
    hide Marbled;
    hide Buddy.Served;
    PageSize();
    FourPages();
    hide Pow2;
    hide Log2;
    Begin(b, 4, 0);
    ghost var t := b.tree;
    var err, got;
    ghost var exact, tail, from;
    err, got, exact, tail, from := b.AllocBlocks(PAGE, 3 * PAGE, 2 * PAGE, PAGE,
                                                 Flags(false, false, false, false, false));
    ghost var u := b.tree;
    assert AllUsed(u, got) by { TakenUsed(exact, t, u, got); }
    b.FreeList(got, true);
    MarbledAfter(t, u, got, b.tree);
  }

  lemma MarbledAfter(t: Tree, u: Tree, got: seq<Path>, v: Tree)
    requires Begun(t, 4, 0) && WF(u) && Taken(true, t, u, got) && Tiles(u, got, 1) && Total(u, got) == 2
    requires v == Released(u, got, MarkClear) && Shaped(v, 4, 2) && Maximal(v)
    ensures v == Marbled()
  {
    hide Released;
    ReleasedChunks(u, got, MarkClear);
    forall i: nat | i < 4 ensures ChunkAt(v, i) == FreeChunk(i in {1, 2}) {
      NoClearChunk(t, i);
      TilesCover(u, got, 1, i);
      assert ChunkTaken(true, ChunkAt(t, i), ChunkAt(u, i), Covered(u, got, i));
    }
    MarbledByChunks(v);
  }

  /** A request for a block of order `min` from `[s, e)`. */
  method AskSlot(b: Buddy, s: nat, e: nat, min: nat, f: Flags)
    returns (err: Errno, got: seq<Path>, ghost exact: bool, ghost tail: nat, ghost from: nat)
    requires b.Valid() && b.chunkSize == PAGE && s + Pow2(min) <= b.size && 0 < e <= b.size && s + Pow2(min) != e
    requires min <= b.maxOrder && f.range && !f.contiguous
    modifies b`tree, b`freeList, b`avail, b`clearAvail
    ensures b.Took(exact, got) && err in {Ok, ENOSPC} && (err != Ok ==> got == [])
    ensures b.Served(old(b.tree), err, got, exact, tail, from, s, e, Pow2(min), min, f)
  {
    hide Pow2;
    hide Log2;
    hide Taken;
    hide HasRoom;
    hide HasSpare;
    hide NoRoomIn;
    hide Decided;
    hide Buddy.Allotted;
    hide Buddy.RunsCourse;
    PageSize();
    AlignmentInBytes(min);
    OneSlot(min, f);
    MultipleIs(s, PAGE);
    MultipleIs(e, PAGE);
    MultipleIs(Pow2(min), PAGE);
    err, got, exact, tail, from := b.AllocBlocks(s * PAGE, e * PAGE, Pow2(min) * PAGE, Pow2(min) * PAGE, f);
  }

  /** Without room for it, the first pair decides; with room, the block is selected as it should be. */
  lemma SlotServed(b: Buddy, t: Tree, err: Errno, got: seq<Path>, exact: bool, tail: nat, from: nat, s: nat, e: nat,
                   min: nat, f: Flags)
    requires b.Served(t, err, got, exact, tail, from, s, e, Pow2(min), min, f) && f.range && !f.contiguous && e > 0
    requires err != Bug
    ensures Room(t, 0, min, s, e) == 0 ==> Decided(t, s, e, e, min, f.clear, err == Ok)
    ensures Room(t, 0, min, s, e) >= Pow2(min) ==>
              err == Ok && exact && Course(true, t, b.tree, got, Pow2(min), 0, s, e, f)
  {
    hide Room;
    hide Course;
    hide Decided;
    hide Buddy.Allotted;
    OneSlot(min, f);
  }

  lemma OneSlot(min: nat, f: Flags)
    requires !f.contiguous
    ensures RoundedSize(Pow2(min), min, f) == Pow2(min) && Log2(Pow2(min)) == min
  {
    hide RoundUp;
    var m, r := Pow2(min), RoundedSize(Pow2(min), min, f);
    MultipleIs(1, m);
    if m < r { MultiplesApart(m, r, m); }
    Log2Unique(m, min);
  }

  /**
    Two aligned chunks are asked for from the first three, and the first two are free. Merging by force stops at the
    upper two, one of which is outside the range, and the request fails.
   */
  method PassedOver(b: Buddy) returns (err: Errno, ghost t: Tree, ghost exact: bool, ghost tail: nat, ghost from: nat)
    modifies b
    ensures err == ENOSPC && b.Valid() && b.Served(t, err, [], exact, tail, from, 0, 3, 2, 1, RANGE)
    ensures AllFree(t, 0, 0, 2) && AllFree(b.tree, 0, 0, 2)
  {
    hide Room;
    hide Marbled;
    hide Taken;
    hide Buddy.Served;
    FourPages();
    Marble(b);
    t := b.tree;
    MarbledMerge();
    var got;
    err, got, exact, tail, from := AskSlot(b, 0, 3, 1, RANGE);
    SlotServed(b, t, err, got, exact, tail, from, 0, 3, 1, RANGE);
    AllFreeStays(exact, t, b.tree, got);
  }

  lemma AllFreeStays(exact: bool, t: Tree, u: Tree, got: seq<Path>)
    requires t == Marbled() && Taken(exact, t, u, got) && got == []
    ensures AllFree(t, 0, 0, 2) && AllFree(u, 0, 0, 2)
  {
    forall i: nat | i < Size(t) && 0 <= 0 + i < 2 ensures ChunkAt(t, i).FreeChunk? && ChunkAt(u, i).FreeChunk? {
      assert Pow2(0) == 1;
      assert ChunkAt(t, 0).FreeChunk? && ChunkAt(t, 1).FreeChunk?;
      assert ChunkTaken(exact, ChunkAt(t, i), ChunkAt(u, i), Covered(u, got, i));
    }
  }

  // ---------- Cleared memory in a range ----------

  const CLEARED: Flags := Flags(true, false, false, true, false)

  /** The source of the first block is the tree itself. */
  lemma FirstSource(t: Tree, mid: Tree, held: seq<Path>, want: nat, s: nat, hi: nat, f: Flags)
    requires WF(t) && Maximal(t) && held != [] && Picks(true, t, mid, held, want, s, hi, f)
    ensures BlockAt(mid, held[0])
    ensures Selected(t, s, hi, At(mid, held[0]).order, f, Off(mid, held[0]), At(mid, held[0]).clear)
  {
    hide Selected;
    assert BlockPicked(true, t, mid, held, 0, want, s, hi, f);
    var src :| PickedFrom(true, t, mid, held, 0, src, want, s, hi, f);
    assert held[..0] == [];
    forall i: nat | i < Size(t) ensures ChunkAt(t, i) == ChunkAt(src, i) {
      assert ChunkTaken(true, ChunkAt(t, i), ChunkAt(src, i), Covered(src, [], i));
    }
    Canonical(t, src);
  }

  /** Below a split root no cleared memory is seen, so the first chunk is as good as any. */
  lemma FirstChunk(off: nat, clear: bool)
    requires Ranged(Wish(0, 3, 0, true), Marbled(), off, clear)
    ensures off == 0
  {
    var w, t, q := Wish(0, 3, 0, true), Marbled(), [false, false, false];
    assert q[1..] == [false, false] && [false, false][1..] == [false] && [false][1..] == [];
    assert Pow2(0) == 1 && Slot(w, 0, 0, 0);
    assert Slotted(w, true, t, 0, q, 0);
    forall p, y: nat ensures !Slotted(w, false, t, 0, p, y) {
      if Slotted(w, false, t, 0, p, y) { SplitRoot(p); }
    }
  }

  lemma SplitRoot(p: Path)
    requires Has(Marbled(), p) && At(Marbled(), p).Free?
    ensures !Unsplit(Marbled(), p)
  {}

  /** A single block of one chunk. */
  lemma SingleChunk(t: Tree, held: seq<Path>)
    requires WF(t) && AllUsed(t, held) && Total(t, held) == 1
    ensures |held| == 1 && At(t, held[0]).order == 0
  {
    TotalAtLeast(t, held);
  }

  lemma TotalAtLeast(t: Tree, held: seq<Path>)
    requires WF(t) && AllUsed(t, held) && held != []
    ensures Total(t, held) >= Pow2(At(t, held[0]).order) + if |held| > 1 then 1 else 0
  {
    WFAt(t, held[0]);
    SizeOfBlock(At(t, held[0]));
    if |held| > 1 {
      assert held[1..][0] == held[1];
      WFAt(t, held[1]);
      SizeOfBlock(At(t, held[1]));
    }
  }

  lemma MarbledChunks()
    ensures WF(Marbled()) && Maximal(Marbled()) && Size(Marbled()) == 4
    ensures forall i: nat | i < 4 :: ChunkAt(Marbled(), i) == FreeChunk(i in {1, 2})
  {
    var t := Marbled();
    assert Pow2(0) == 1 && Pow2(1) == 2 && Pow2(2) == 4;
    assert ChunkAt(t, 0) == FreeChunk(false) && ChunkAt(t, 1) == FreeChunk(true);
    assert ChunkAt(t, 2) == FreeChunk(true) && ChunkAt(t, 3) == FreeChunk(false);
  }

  lemma DirtyChunk(t: Tree, u: Tree, got: seq<Path>)
    requires t == Marbled() && WF(u) && Taken(true, t, u, got) && Course(true, t, u, got, 1, 0, 0, 3, CLEARED)
    ensures |got| == 1 && Off(u, got[0]) == 0 && !At(u, got[0]).clear
  {
    hide Marbled;
    MarbledChunks();
    var mid, held :| CourseVia(true, t, mid, held, u, got, 1, 0, 0, 3, CLEARED);
    SingleChunk(u, got);
    FirstSource(t, u, got, 1, 0, 3, CLEARED);
    FirstChunk(Off(u, got[0]), At(u, got[0]).clear);
    WFAt(u, got[0]);
    SizeOfBlock(At(u, got[0]));
    ChunkWithin(u, got[0], 0);
    assert ChunkTaken(true, ChunkAt(t, 0), ChunkAt(u, 0), Covered(u, got, 0));
  }

  /**
    A chunk of cleared memory is asked for from the first three, of which two are cleared. It gets the other one, since
    the search for cleared memory does not go into split blocks.
   */
  method DirtyFirst(b: Buddy)
    returns (err: Errno, got: seq<Path>, ghost t: Tree, ghost exact: bool, ghost tail: nat, ghost from: nat)
    modifies b
    ensures b.Valid() && err == Ok && b.Served(t, err, got, exact, tail, from, 0, 3, 1, 0, CLEARED)
    ensures Size(t) == 4 && ChunkAt(t, 1) == FreeChunk(true) && ChunkAt(t, 2) == FreeChunk(true)
    ensures AllUsed(b.tree, got) && |got| == 1 && Off(b.tree, got[0]) == 0 && !At(b.tree, got[0]).clear
  {
    hide Room;
    hide Taken;
    hide Marbled;
    hide Course;
    hide Buddy.Served;
    Marble(b);
    t := b.tree;
    MarbledChunks();
    RoomOfChunk(t, 0, 0, 3, 0);
    assert Pow2(0) == 1;
    err, got, exact, tail, from := AskSlot(b, 0, 3, 0, CLEARED);
    SlotServed(b, t, err, got, exact, tail, from, 0, 3, 0, CLEARED);
    b.Canon();
    TakenUsed(true, t, b.tree, got);
    DirtyChunk(t, b.tree, got);
  }
}
