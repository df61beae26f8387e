/** Whole runs: a client that allocates, trims and frees in any order, and then tears the allocator down. */
module BuddyRuns {
  import opened Common
  import opened Powers
  import opened BuddyTree
  import opened BuddyLists
  import opened BuddyCanon
  import opened BuddyRange
  import opened BuddyState
  import opened BuddyMerge
  import opened BuddyRoots
  import opened BuddyHeld
  import opened BuddyTrim
  import opened BuddyChoice
  import opened BuddyAllocator

  // ---------- Lists that come and go ----------

  lemma ReorderUsed(t: Tree, a: seq<Path>, b: seq<Path>, c: seq<Path>)
    requires AllUsed(t, a + b + c)
    ensures AllUsed(t, a + c + b) && AllUsed(t, a) && AllUsed(t, b) && AllUsed(t, c) && AllUsed(t, a + b) &&
            AllUsed(t, a + c)
    ensures forall i: nat :: Covered(t, a + c + b, i) <==> Covered(t, a + b + c, i)
  {
    var s := a + b + c;
    forall i | 0 <= i < |a| ensures a[i] == s[i] {}
    forall i | 0 <= i < |b| ensures b[i] == s[|a| + i] {}
    forall i | 0 <= i < |c| ensures c[i] == s[|a| + |b| + i] {}
    NoDupParts(a + b, c);
    NoDupParts(a, b);
    NoDupJoin(a, c);
    NoDupJoin(a + c, b);
    assert AllUsed(t, a) && AllUsed(t, b) && AllUsed(t, c);
    assert AllUsed(t, a + b);
    assert AllUsed(t, a + c);
    assert AllUsed(t, a + c + b);
    forall i: nat ensures Covered(t, a + c + b, i) <==> Covered(t, a + b + c, i) {
      CoveredJoin(t, a, b, i);
      CoveredJoin(t, a + b, c, i);
      CoveredJoin(t, a, c, i);
      CoveredJoin(t, a + c, b, i);
    }
  }

  /** The order in which blocks were taken does not matter. */
  lemma Reorder(t0: Tree, t: Tree, a: seq<Path>, b: seq<Path>, c: seq<Path>)
    requires Taken(false, t0, t, a + b + c)
    ensures Taken(false, t0, t, a + c + b) && Total(t, a + c + b) == Total(t, a + b + c)
  {
    ReorderUsed(t, a, b, c);
    TotalJoin(t, a, b);
    TotalJoin(t, a + b, c);
    TotalJoin(t, a, c);
    TotalJoin(t, a + c, b);
    forall i: nat | i < Size(t) ensures ChunkTaken(false, ChunkAt(t0, i), ChunkAt(t, i), Covered(t, a + c + b, i)) {
      assert ChunkTaken(false, ChunkAt(t0, i), ChunkAt(t, i), Covered(t, a + b + c, i));
    }
  }

  /** Freeing some blocks leaves the other blocks in use alone. */
  lemma {:induction false} ReleaseOthers(t: Tree, rest: seq<Path>, ps: seq<Path>, m: Marking)
    requires WF(t) && AllUsed(t, rest + ps)
    ensures AllUsed(t, ps) && AllUsed(t, rest)
    ensures var u := Released(t, ps, m);
            AllUsed(u, rest) && forall i | 0 <= i < |rest| :: At(u, rest[i]) == At(t, rest[i])
    decreases |ps|
  {
    var s := rest + ps;
    forall i | 0 <= i < |rest| ensures rest[i] == s[i] {}
    forall i | 0 <= i < |ps| ensures ps[i] == s[|rest| + i] {}
    NoDupParts(rest, ps);
    assert AllUsed(t, ps) && AllUsed(t, rest);
    if ps != [] {
      var p, c := ps[0], NewMark(m, At(t, ps[0]).clear);
      var v := FreeAt(false, t, p, c);
      FreeAtKeeps(false, t, p, c);
      forall i | 0 <= i < |rest + ps[1..]|
        ensures UsedBlockAt(v, (rest + ps[1..])[i]) && At(v, (rest + ps[1..])[i]) == At(t, (rest + ps[1..])[i])
      {
        var j := if i < |rest| then i else i + 1;
        assert (rest + ps[1..])[i] == s[j] && p == s[|rest|];
        Differ(s, j, |rest|);
        FreeAtOthers(false, t, p, c, s[j]);
      }
      assert AllUsed(v, rest + ps[1..]) by { DropOne(t, v, rest, ps); }
      ReleaseRest(t, ps, c);
      ReleaseOthers(v, rest, ps[1..], m);
      forall i | 0 <= i < |rest| ensures At(v, rest[i]) == At(t, rest[i]) { assert (rest + ps[1..])[i] == rest[i]; }
    }
  }

  lemma DropOne(t: Tree, v: Tree, rest: seq<Path>, ps: seq<Path>)
    requires AllUsed(t, rest + ps) && ps != []
    requires forall i | 0 <= i < |rest + ps[1..]| :: UsedBlockAt(v, (rest + ps[1..])[i])
    ensures AllUsed(v, rest + ps[1..])
  {
    var s, r := rest + ps, rest + ps[1..];
    forall i, j | 0 <= i < j < |r| && Pair(i, j) ensures r[i] != r[j] {
      assert Pair(if i < |rest| then i else i + 1, if j < |rest| then j else j + 1);
      assert r[i] == s[if i < |rest| then i else i + 1] && r[j] == s[if j < |rest| then j else j + 1];
    }
  }

  /** Blocks that are given back are as if they had never been taken. */
  lemma TakenDrop(t0: Tree, t: Tree, rest: seq<Path>, ps: seq<Path>, m: Marking)
    requires WF(t) && Taken(false, t0, t, rest + ps)
    ensures AllUsed(t, ps)
    ensures var u := Released(t, ps, m);
            Taken(false, t0, u, rest) && Total(u, rest) + Total(t, ps) == Total(t, rest + ps)
  {
    ReleaseOthers(t, rest, ps, m);
    ReleasedChunks(t, ps, m);
    var u := Released(t, ps, m);
    TotalJoin(t, rest, ps);
    SameTotal(t, u, rest);
    forall i: nat | i < Size(t) ensures ChunkTaken(false, ChunkAt(t0, i), ChunkAt(u, i), Covered(u, rest, i)) {
      CoveredJoin(t, rest, ps, i);
      SameCover(t, u, rest, i);
      ApartCover(t, rest, ps, i);
      assert ChunkTaken(false, ChunkAt(t0, i), ChunkAt(t, i), Covered(t, rest + ps, i));
    }
  }

  lemma SameCover(t: Tree, u: Tree, ps: seq<Path>, i: nat)
    requires WF(t) && WF(u) && SameRoots(t, u) && AllUsed(t, ps) && AllUsed(u, ps)
    ensures Covered(t, ps, i) <==> Covered(u, ps, i)
  {
    forall j | 0 <= j < |ps| ensures Covers(u, ps[j], i) <==> Covers(t, ps[j], i) {
      OffStable(t, u, ps[j]);
    }
  }

  lemma ApartCover(t: Tree, a: seq<Path>, b: seq<Path>, i: nat)
    requires WF(t) && AllUsed(t, a) && AllUsed(t, b) && AllUsed(t, a + b)
    ensures !(Covered(t, a, i) && Covered(t, b, i))
  {
    forall j, k | 0 <= j < |a| && 0 <= k < |b| ensures !(Covers(t, a[j], i) && Covers(t, b[k], i)) {
      NoDupParts(a, b);
      assert a[j] in a && b[k] in b;
      LeavesApart(t, a[j], b[k]);
      ApartDisjoint(t, a[j], b[k]);
    }
  }

  // ---------- A client ----------

  /** The allocations that are still held, one list of blocks each. */
  type Live = seq<seq<Path>>

  function Flat(live: Live): seq<Path> {
    if live == [] then [] else live[0] + Flat(live[1..])
  }

  lemma {:induction false} FlatJoin(a: Live, b: Live)
    ensures Flat(a + b) == Flat(a) + Flat(b)
  {
    if a == [] {
      assert a + b == b;
    } else {
      assert (a + b)[1..] == a[1..] + b;
      FlatJoin(a[1..], b);
    }
  }

  lemma FlatSplit(live: Live, k: nat, x: seq<Path>)
    requires k < |live|
    ensures var a, c := Flat(live[..k]), Flat(live[k + 1..]);
            Flat(live) == a + live[k] + c && Flat(live[k := x]) == a + x + c && Flat(live[..k] + live[k + 1..]) == a + c
  {
    var a, c := live[..k], live[k + 1..];
    assert live == a + [live[k]] + c && live[k := x] == a + [x] + c;
    FlatJoin(a, c);
    FlatOne(a, live[k], c);
    FlatOne(a, x, c);
  }

  lemma FlatOne(a: Live, x: seq<Path>, c: Live)
    ensures Flat(a + [x] + c) == Flat(a) + x + Flat(c)
  {
    FlatJoin(a + [x], c);
    FlatJoin(a, [x]);
    assert Flat([x]) == x + Flat([]) == x;
  }

  /** The device is as it was in the beginning, but for the live allocations; every chunk is accounted for. */
  ghost predicate Sound(b: Buddy, live: Live)
    reads b
  {
    b.Valid() && b.size > 0 && PowerOfTwo(b.chunkSize) && SameRoots(Fresh(b.size), b.tree) &&
    Taken(false, Fresh(b.size), b.tree, Flat(live)) && b.avail + Total(b.tree, Flat(live)) == b.size
  }

  /** What a client may ask for. */
  datatype Op =
    | Alloc(start: nat, end: nat, bytes: nat, minBlock: nat, flags: Flags)
    | Trim(which: nat, from: Option<nat>, newSize: nat)
    | Free(which: nat, cleared: bool)

  method DoAlloc(b: Buddy, live: Live, op: Op) returns (live': Live, crashed: bool)
    requires Sound(b, live) && op.Alloc?
    modifies b`tree, b`freeList, b`avail, b`clearAvail
    ensures Sound(b, live')
  {
    ghost var t0, t := Fresh(b.size), b.tree;
    FreshShape(b.size);
    var err, got, exact, tail, from := b.AllocBlocks(op.start, op.end, op.bytes, op.minBlock, op.flags);
    SameRootsTrans(t0, t, b.tree);
    GrabMore(false, t0, t, Flat(live), exact, b.tree, got);
    FlatJoin(live, [got]);
    assert Flat([got]) == got + Flat([]) == got;
    live', crashed := live + [got], err == Bug;
  }

  lemma DropLive(t0: Tree, t: Tree, live: Live, k: nat, m: Marking)
    requires WF(t) && Taken(false, t0, t, Flat(live)) && k < |live|
    ensures AllUsed(t, live[k])
    ensures var u, rest := Released(t, live[k], m), Flat(live[..k] + live[k + 1..]);
            Taken(false, t0, u, rest) && Total(u, rest) + Total(t, live[k]) == Total(t, Flat(live))
  {
    var a, c := Flat(live[..k]), Flat(live[k + 1..]);
    FlatSplit(live, k, []);
    Reorder(t0, t, a, live[k], c);
    TakenDrop(t0, t, a + c, live[k], m);
  }

  method DoFree(b: Buddy, live: Live, k: nat, cleared: bool) returns (live': Live)
    requires Sound(b, live) && k < |live|
    modifies b`tree, b`freeList, b`avail, b`clearAvail
    ensures Sound(b, live') && |live'| == |live| - 1
  {
    ghost var t0, t := Fresh(b.size), b.tree;
    DropLive(t0, t, live, k, if cleared then MarkClear else MarkDirty);
    b.FreeList(live[k], cleared);
    SameRootsTrans(t0, t, b.tree);
    live' := live[..k] + live[k + 1..];
  }

  lemma TrimLive(t0: Tree, t: Tree, live: Live, k: nat, p: Path, s: nat, e: nat, u: Tree, out: seq<Path>)
    requires WF(t) && Taken(false, t0, t, Flat(live)) && k < |live| && live[k] == [p] && Trimmed(t, p, s, e, u, out)
    ensures Taken(false, t0, u, Flat(live[k := out]))
    ensures Total(u, Flat(live[k := out])) == Total(t, Flat(live)) - Pow2(At(t, p).order) + (e - s)
  {
    var a, c := Flat(live[..k]), Flat(live[k + 1..]);
    FlatSplit(live, k, out);
    Reorder(t0, t, a, [p], c);
    TrimmedTaken(false, t0, t, p, s, e, u, out, a + c);
    TrimmedOthers(t, p, s, e, u, out, a + c);
    TailTotal(t, a + c, p, u, out, e - s);
    Reorder(t0, u, a, c, out);
  }

  lemma LiveUsed(t0: Tree, t: Tree, live: Live, k: nat)
    requires Taken(false, t0, t, Flat(live)) && k < |live|
    ensures AllUsed(t, live[k])
  {
    FlatSplit(live, k, []);
    ReorderUsed(t, Flat(live[..k]), live[k], Flat(live[k + 1..]));
  }

  method DoTrim(b: Buddy, live: Live, k: nat, from: Option<nat>, newSize: nat) returns (live': Live)
    requires Sound(b, live) && k < |live|
    modifies b`tree, b`freeList, b`avail, b`clearAvail
    ensures Sound(b, live')
  {
    hide Carve;
    hide Total;
    hide Tiles;
    hide Put;
    hide Fresh;
    ghost var t0, t := Fresh(b.size), b.tree;
    LiveUsed(t0, t, live, k);
    var err, out := b.BlockTrim(live[k], from, newSize);
    SameRootsTrans(t0, t, b.tree);
    live' := live[k := out];
    if err == Ok && newSize != Pow2(At(t, live[k][0]).order) * b.chunkSize {
      ghost var p := live[k][0];
      ghost var s := if from.Some? then from.value / b.chunkSize else Off(t, p);
      assert live[k] == [p];
      TrimLive(t0, t, live, k, p, s, s + newSize / b.chunkSize, b.tree, out);
    } else {
      assert live' == live;
    }
  }

  /**
    Every run of requests on a new device. Whatever the client asks for, the live allocations are disjoint
    blocks in use, the rest of the device is free, and the two add up to the size of the device.
   */
  method Run(b: Buddy, bytes: nat, chunk: nat, ops: seq<Op>) returns (err: Errno, live: Live, crashed: bool)
    requires bytes < Pow2(64)
    modifies b
    ensures err == Ok ==> Sound(b, live)
  {
    live, crashed := [], false;
    err := b.Init(bytes, chunk);
    if err != Ok { return; }
    SameRootsSelf(b.tree);
    SameUseSelf(b.tree);
    NothingTaken(false, b.tree, b.tree);
    var i := 0;
    while i < |ops| && !crashed
      invariant 0 <= i <= |ops| && Sound(b, live)
    {
      var op := ops[i];
      if op.Alloc? {
        live, crashed := DoAlloc(b, live, op);
      } else if op.which < |live| {
        if op.Free? {
          live := DoFree(b, live, op.which, op.cleared);
        } else {
          live := DoTrim(b, live, op.which, op.from, op.newSize);
        }
      }
      i := i + 1;
    }
  }

  /** Once a client has given everything back, tearing the allocator down finds nothing amiss. */
  method Close(b: Buddy, live: Live) returns (stuck: nat, missing: bool)
    requires Sound(b, live)
    modifies b`tree, b`freeList, b`avail, b`clearAvail
    ensures stuck == 0 && !missing
  {
    var rest := live;
    while rest != []
      invariant Sound(b, rest)
      decreases |rest|
    {
      rest := DoFree(b, rest, |rest| - 1, false);
    }
    stuck, missing := b.Fini();
  }
}
