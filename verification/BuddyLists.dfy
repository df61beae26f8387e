/**
  What the free lists and the two byte counters must say about a tree of blocks, and how both
  change when one node is overwritten.
 */
module BuddyLists {
  import opened Powers
  import opened BuddyTree

  /** The pointers `s`, taken relative to `p`. */
  function Under(p: Path, s: seq<Path>): (r: seq<Path>)
    ensures |r| == |s|
    ensures forall i {:trigger r[i]} :: 0 <= i < |s| ==> r[i] == p + s[i]
  {
    if s == [] then [] else [p + s[0]] + Under(p, s[1..])
  }

  /** The free blocks of order `k`, in ascending offset. */
  function Frees(t: Tree, k: nat): seq<Path> {
    match t
    case Free(o, _) => if o == k then [[]] else []
    case Allocated(_, _) => []
    case Split(_, _, l, r) => Under([false], Frees(l, k)) + Under([true], Frees(r, k))
    case Roots(l, r) => Under([false], Frees(l, k)) + Under([true], Frees(r, k))
    case End => []
  }

  /** The part of `Frees` that lies before, and the part that lies behind, the node `p`. */
  function Before(t: Tree, p: Path, k: nat): seq<Path>
    requires Has(t, p)
  {
    if p == [] then []
    else if p[0] then Under([false], Frees(t.left, k)) + Under([true], Before(t.right, p[1..], k))
    else Under([false], Before(t.left, p[1..], k))
  }

  function Behind(t: Tree, p: Path, k: nat): seq<Path>
    requires Has(t, p)
  {
    if p == [] then []
    else if p[0] then Under([true], Behind(t.right, p[1..], k))
    else Under([false], Behind(t.left, p[1..], k)) + Under([true], Frees(t.right, k))
  }

  function FreeSize(t: Tree): nat {
    match t
    case Free(o, _) => Pow2(o)
    case Allocated(_, _) => 0
    case Split(_, _, l, r) => FreeSize(l) + FreeSize(r)
    case Roots(l, r) => FreeSize(l) + FreeSize(r)
    case End => 0
  }

  function ClearSize(t: Tree): nat {
    match t
    case Free(o, c) => if c then Pow2(o) else 0
    case Allocated(_, _) => 0
    case Split(_, _, l, r) => ClearSize(l) + ClearSize(r)
    case Roots(l, r) => ClearSize(l) + ClearSize(r)
    case End => 0
  }

  /** The pointers in the root array. */
  function RootPaths(t: Tree): seq<Path> {
    if t.Roots? then [[false]] + Under([true], RootPaths(t.right)) else []
  }

  /** No block is of a larger order than `m`. */
  predicate Bounded(t: Tree, m: nat) {
    match t
    case Roots(l, r) => Bounded(l, m) && Bounded(r, m)
    case End => true
    case _ => t.order <= m
  }

  // ---------- Lists ----------

  lemma UnderJoin(p: Path, a: seq<Path>, b: seq<Path>)
    ensures Under(p, a + b) == Under(p, a) + Under(p, b)
  {}

  lemma UnderUnder(p: Path, q: Path, a: seq<Path>)
    ensures Under(p, Under(q, a)) == Under(p + q, a)
    ensures Under([], a) == a
  {
    forall i | 0 <= i < |a| ensures Under(p, Under(q, a))[i] == Under(p + q, a)[i] {
      assert p + (q + a[i]) == p + q + a[i];
    }
    forall i | 0 <= i < |a| ensures Under([], a)[i] == a[i] { assert [] + a[i] == a[i]; }
  }

  lemma UnderThree(b: bool, q: Path, x: seq<Path>, m: seq<Path>, y: seq<Path>)
    ensures Under([b], x + Under(q, m) + y) == Under([b], x) + Under([b] + q, m) + Under([b], y)
  {
    UnderUnder([b], q, m);
    UnderJoin([b], x + Under(q, m), y);
    UnderJoin([b], x, Under(q, m));
  }

  lemma Regroup(a: seq<Path>, b: seq<Path>, c: seq<Path>, d: seq<Path>)
    ensures a + (b + c + d) == (a + b) + c + d
    ensures (b + c + d) + a == b + c + (d + a)
  {}

  /** The free list around the node `p`. */
  lemma {:induction false} FreesAround(t: Tree, p: Path, k: nat)
    requires Has(t, p)
    ensures Frees(t, k) == Before(t, p, k) + Under(p, Frees(At(t, p), k)) + Behind(t, p, k)
  {
    if p == [] {
      UnderUnder([], [], Frees(t, k));
    } else {
      var u, q := Child(t, p[0]), p[1..];
      assert p == [p[0]] + q;
      FreesAround(u, q, k);
      var m := Frees(At(u, q), k);
      UnderThree(p[0], q, Before(u, q, k), m, Behind(u, q, k));
      var other := Under([!p[0]], Frees(Child(t, !p[0]), k));
      Regroup(other, Under([p[0]], Before(u, q, k)), Under(p, m), Under([p[0]], Behind(u, q, k)));
    }
  }

  /** Overwriting a node leaves the rest of every free list as it was. */
  lemma {:induction false} AroundPut(t: Tree, p: Path, x: Tree, k: nat)
    requires Has(t, p)
    ensures Has(Put(t, p, x), p)
    ensures Before(Put(t, p, x), p, k) == Before(t, p, k) && Behind(Put(t, p, x), p, k) == Behind(t, p, k)
  {
    if p != [] { AroundPut(Child(t, p[0]), p[1..], x, k); }
  }

  lemma FreesPut(t: Tree, p: Path, x: Tree, k: nat)
    requires Has(t, p)
    ensures Frees(Put(t, p, x), k) == Before(t, p, k) + Under(p, Frees(x, k)) + Behind(t, p, k)
  {
    AroundPut(t, p, x, k);
    PutAt(t, p, x);
    FreesAround(Put(t, p, x), p, k);
  }

  /** A free list holds exactly the free blocks of its order. */
  lemma {:induction false} InFrees(t: Tree, k: nat, q: Path)
    ensures q in Frees(t, k) <==> FreeBlockAt(t, q) && At(t, q).order == k
  {
    if t.Inner?() {
      var a, b := Under([false], Frees(t.left, k)), Under([true], Frees(t.right, k));
      if q != [] {
        assert q == [q[0]] + q[1..];
        InFrees(Child(t, q[0]), k, q[1..]);
        if q[1..] in Frees(t.left, k) {
          var i :| 0 <= i < |Frees(t.left, k)| && Frees(t.left, k)[i] == q[1..];
          assert a[i] == [false] + q[1..];
        }
        if q[1..] in Frees(t.right, k) {
          var i :| 0 <= i < |Frees(t.right, k)| && Frees(t.right, k)[i] == q[1..];
          assert b[i] == [true] + q[1..];
        }
      }
      if q in a {
        var i :| 0 <= i < |a| && a[i] == q;
        assert q[0] == false && q[1..] == Frees(t.left, k)[i];
      }
      if q in b {
        var i :| 0 <= i < |b| && b[i] == q;
        assert q[0] == true && q[1..] == Frees(t.right, k)[i];
      }
    }
  }

  predicate AllBelow(t: Tree, s: seq<Path>, x: int) {
    forall q | q in s :: Has(t, q) && Off(t, q) < x
  }

  predicate AllAbove(t: Tree, s: seq<Path>, x: int) {
    forall q | q in s :: Has(t, q) && Off(t, q) > x
  }

  lemma UnderOff(t: Tree, b: bool, s: seq<Path>, q: Path) returns (r: Path)
    requires t.Inner?() && q in Under([b], s)
    ensures r in s && q == [b] + r
    ensures Has(t, q) <==> Has(Child(t, b), r)
    ensures Has(t, q) ==> Off(t, q) == Off(Child(t, b), r) + (if b then Size(t.left) else 0)
  {
    var i :| 0 <= i < |s| && Under([b], s)[i] == q;
    r := s[i];
    assert q[1..] == r;
  }

  /** The lists are sorted: what precedes a node lies at lower, what follows at higher offsets. */
  lemma {:induction false} AroundSorted(t: Tree, p: Path, k: nat)
    requires WF(t) && Has(t, p) && Size(At(t, p)) > 0
    ensures AllBelow(t, Before(t, p, k), Off(t, p))
    ensures AllAbove(t, Behind(t, p, k), Off(t, p) + Size(At(t, p)) - 1)
  {
    if p != [] {
      AroundSorted(Child(t, p[0]), p[1..], k);
      WFAt(t.left, if p[0] then [] else p[1..]);
      forall q | q in Before(t, p, k) ensures Has(t, q) && Off(t, q) < Off(t, p) {
        if p[0] && q in Under([false], Frees(t.left, k)) {
          var r := UnderOff(t, false, Frees(t.left, k), q);
          InFrees(t.left, k, r);
          WFAt(t.left, r);
        } else {
          var r := UnderOff(t, p[0], Before(Child(t, p[0]), p[1..], k), q);
        }
      }
      forall q | q in Behind(t, p, k) ensures Has(t, q) && Off(t, q) > Off(t, p) + Size(At(t, p)) - 1 {
        if !p[0] && q in Under([true], Frees(t.right, k)) {
          var r := UnderOff(t, true, Frees(t.right, k), q);
          InFrees(t.right, k, r);
        } else {
          var r := UnderOff(t, p[0], Behind(Child(t, p[0]), p[1..], k), q);
        }
      }
    }
  }

  /** The free list of an order is strictly ascending in offset. */
  lemma FreesAscend(t: Tree, k: nat, i: nat, j: nat)
    requires WF(t) && i < j < |Frees(t, k)|
    ensures Has(t, Frees(t, k)[i]) && Has(t, Frees(t, k)[j])
    ensures Off(t, Frees(t, k)[i]) < Off(t, Frees(t, k)[j])
  {
    var s := Frees(t, k);
    InFrees(t, k, s[j]);
    InFrees(t, k, s[i]);
    FreesAround(t, s[j], k);
    WFAt(t, s[j]);
    AroundSorted(t, s[j], k);
    var a, b := Before(t, s[j], k), Behind(t, s[j], k);
    assert Under(s[j], [[]]) == [s[j]] by { assert s[j] + [] == s[j]; }
    assert s == a + [s[j]] + b;
    assert s[j] !in b;
    assert s[j] !in a;
    assert |a| == j;
    assert s[i] in a;
  }

  /** A free block in the list of its order. */
  lemma FreesHere(t: Tree, p: Path)
    requires FreeBlockAt(t, p)
    ensures var k := At(t, p).order; Frees(t, k) == Before(t, p, k) + [p] + Behind(t, p, k)
  {
    var k := At(t, p).order;
    FreesAround(t, p, k);
    assert Under(p, [[]]) == [p] by { assert p + [] == p; }
  }

  /** The list of an order that the node at `p` contributes nothing to. */
  lemma FreesGap(t: Tree, p: Path, k: nat)
    requires Has(t, p) && Frees(At(t, p), k) == []
    ensures Frees(t, k) == Before(t, p, k) + Behind(t, p, k)
  {
    FreesAround(t, p, k);
  }

  lemma FreesSame(t: Tree, p: Path, x: Tree, k: nat)
    requires Has(t, p) && Frees(At(t, p), k) == Frees(x, k)
    ensures Frees(Put(t, p, x), k) == Frees(t, k)
  {
    FreesAround(t, p, k);
    FreesPut(t, p, x, k);
  }

  /** The lists change only where the old or the new node has free blocks. */
  lemma PutGap(t: Tree, p: Path, x: Tree, k: nat)
    requires Has(t, p)
    ensures Frees(x, k) == [] ==> Frees(Put(t, p, x), k) == Before(t, p, k) + Behind(t, p, k)
    ensures x == Free(k, x.Free? && x.clear) ==> Frees(Put(t, p, x), k) == Before(t, p, k) + [p] + Behind(t, p, k)
  {
    PutAt(t, p, x);
    AroundPut(t, p, x, k);
    if Frees(x, k) == [] { FreesGap(Put(t, p, x), p, k); }
    if x == Free(k, x.Free? && x.clear) { FreesHere(Put(t, p, x), p); }
  }

  // ---------- Counters ----------

  lemma {:induction false} SizesPut(t: Tree, p: Path, x: Tree)
    requires Has(t, p)
    ensures FreeSize(Put(t, p, x)) == FreeSize(t) - FreeSize(At(t, p)) + FreeSize(x)
    ensures ClearSize(Put(t, p, x)) == ClearSize(t) - ClearSize(At(t, p)) + ClearSize(x)
    ensures FreeSize(t) >= FreeSize(At(t, p)) && ClearSize(t) >= ClearSize(At(t, p))
  {
    if p != [] { SizesPut(Child(t, p[0]), p[1..], x); }
  }

  // ---------- Roots ----------

  lemma {:induction false} RootsStable(t: Tree, u: Tree, m: nat)
    requires SameRoots(t, u)
    ensures RootPaths(t) == RootPaths(u)
    ensures Bounded(t, m) <==> Bounded(u, m)
  {
    if t.Roots? { RootsStable(t.left, u.left, m); RootsStable(t.right, u.right, m); }
  }

  lemma {:induction false} BoundedAt(t: Tree, p: Path, m: nat)
    requires WF(t) && Bounded(t, m) && BlockAt(t, p)
    ensures At(t, p).order <= m
  {
    if p != [] { BoundedAt(Child(t, p[0]), p[1..], m); }
  }
}
