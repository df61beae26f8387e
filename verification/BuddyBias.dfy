/**
  Searching a range for one block of a given order: what `__alloc_range_bias` computes, as a
  recursion over the tree, and the proof that the search is sound and complete.
 */
module BuddyBias {
  import opened Powers
  import opened BuddyTree
  import opened BuddyLists
  import opened BuddyCanon
  import opened BuddyRange
  import opened BuddyWork

  /** The request: a block of the given order inside `[start, end)`, with a preferred mark. */
  datatype Wish = Wish(start: nat, end: nat, order: nat, clear: bool)

  datatype Picked = Picked(found: bool, tree: Tree, path: Path)

  /** The block of order `o` at `off` is large enough, and not ruled out by the rounding test. */
  predicate Fit(w: Wish, off: nat, o: nat) {
    var req := Pow2(w.order);
    w.order <= o && Overlaps(w.start, w.end, off, off + Pow2(o)) &&
    (Contains(w.start, w.end, off, off + Pow2(o)) ||
     RoundDown(if off + Pow2(o) < w.end then off + Pow2(o) else w.end, req) >
     RoundUp(if off > w.start then off else w.start, req))
  }

  predicate Inside(w: Wish, off: nat, o: nat) { Contains(w.start, w.end, off, off + Pow2(o)) }

  function PickFree(w: Wish, o: nat, c: bool, off: nat): Picked {
    if !Fit(w, off, o) then Picked(false, Free(o, c), [])
    else if o == w.order then Picked(Inside(w, off, o), Free(o, c), [])
    else PickBoth(Halved(o, c), PickFree(w, o - 1, c, off), PickFree(w, o - 1, c, off + Pow2(o - 1)))
  }

  function PickBoth(t: Tree, l: Picked, h: Picked): Picked
    requires t.Inner?()
  {
    if l.found then Picked(true, t.(left := l.tree), [false] + l.path)
    else Picked(h.found, t.(left := l.tree, right := h.tree), if h.found then [true] + h.path else [])
  }

  /** Without `fallback` nodes carrying the other mark are passed over, split nodes counting as dirty. */
  predicate Passes(w: Wish, fallback: bool, t: Tree, off: nat)
    requires t.Split?
  {
    !Fit(w, off, t.order) || (!fallback && t.clear != w.clear) || (Inside(w, off, t.order) && t.order == w.order)
  }

  function Pick(w: Wish, fallback: bool, t: Tree, off: nat): Picked {
    match t
    case Free(o, c) => if fallback || c == w.clear then PickFree(w, o, c, off) else Picked(false, t, [])
    case Split(_, _, l, r) =>
      if Passes(w, fallback, t, off) then Picked(false, t, [])
      else PickBoth(t, Pick(w, fallback, l, off), Pick(w, fallback, r, off + Size(l)))
    case Roots(l, r) => PickBoth(t, Pick(w, fallback, l, off), Pick(w, fallback, r, off + Size(l)))
    case _ => Picked(false, t, [])
  }

  // ---------- The rounding test ----------

  predicate Slot(w: Wish, off: nat, o: nat, x: nat) {
    Multiple(x, Pow2(w.order)) && off <= x && x + Pow2(w.order) <= off + Pow2(o) &&
    w.start <= x && x + Pow2(w.order) <= w.end
  }

  /** The block holds an aligned sub-block of the wanted order that lies in the range. */
  ghost predicate HasSlot(w: Wish, off: nat, o: nat) { exists x: nat :: Slot(w, off, o, x) }

  lemma SlotPassesTest(w: Wish, off: nat, o: nat, x: nat)
    requires Slot(w, off, o, x) && w.order <= o
    ensures Fit(w, off, o)
  {
    var req := Pow2(w.order);
    var lo := if off > w.start then off else w.start;
    var hi := if off + Pow2(o) < w.end then off + Pow2(o) else w.end;
    if x < RoundUp(lo, req) { MultiplesApart(x, RoundUp(lo, req), req); }
    MultipleIs(1, req);
    MultipleSum(x, req, req);
    if RoundDown(hi, req) < x + req { MultiplesApart(RoundDown(hi, req), x + req, req); }
  }

  lemma TestFindsSlot(w: Wish, off: nat, o: nat)
    requires Fit(w, off, o) && Multiple(off, Pow2(o))
    ensures HasSlot(w, off, o)
  {
    var req := Pow2(w.order);
    Pow2Monotone(w.order, o);
    if Inside(w, off, o) {
      MultipleOfSmaller(off, w.order, o);
      assert Slot(w, off, o, off);
    } else {
      var lo := if off > w.start then off else w.start;
      var hi := if off + Pow2(o) < w.end then off + Pow2(o) else w.end;
      MultiplesApart(RoundUp(lo, req), RoundDown(hi, req), req);
      assert Slot(w, off, o, RoundUp(lo, req));
    }
  }

  /** At the wanted order the only aligned sub-block is the block itself. */
  lemma SlotIsBlock(w: Wish, off: nat)
    requires HasSlot(w, off, w.order)
    ensures Inside(w, off, w.order)
  {}

  lemma SlotInHalf(w: Wish, off: nat, o: nat)
    requires w.order < o && Multiple(off, Pow2(o)) && HasSlot(w, off, o)
    ensures HasSlot(w, off, o - 1) || HasSlot(w, off + Pow2(o - 1), o - 1)
  {
    var x: nat :| Slot(w, off, o, x);
    var mid := off + Pow2(o - 1);
    HalvesAligned(off, o);
    MultipleOfSmaller(mid, w.order, o - 1);
    if x < mid {
      MultiplesApart(x, mid, Pow2(w.order));
      assert Slot(w, off, o - 1, x);
    } else {
      assert Slot(w, mid, o - 1, x);
    }
  }

  lemma SlotFits(w: Wish, off: nat, o: nat)
    requires Multiple(off, Pow2(o)) && w.order <= o
    ensures Fit(w, off, o) <==> HasSlot(w, off, o)
  {
    if Fit(w, off, o) { TestFindsSlot(w, off, o); }
    if HasSlot(w, off, o) {
      var x: nat :| Slot(w, off, o, x);
      SlotPassesTest(w, off, o, x);
    }
  }

  // ---------- Soundness and completeness ----------

  /** A free block of the wanted order, inside the range, and the tree is still canonical once it is used. */
  predicate Good(w: Wish, r: Picked, off: nat) {
    FreeBlockAt(r.tree, r.path) && At(r.tree, r.path).order == w.order &&
    Inside(w, off + Off(r.tree, r.path), w.order) &&
    Maximal(Put(r.tree, r.path, Allocated(w.order, At(r.tree, r.path).clear)))
  }

  /** Inside a free block the search succeeds exactly when there is room, and else leaves it whole. */
  lemma {:induction false} PickFreeLaw(w: Wish, o: nat, c: bool, off: nat)
    requires Multiple(off, Pow2(o))
    ensures var r := PickFree(w, o, c, off);
            r.found == Fit(w, off, o) && (!r.found ==> r.tree == Free(o, c)) &&
            WF(r.tree) && r.tree.Block?() && r.tree.order == o &&
            (r.found ==> Good(w, r, off) && At(r.tree, r.path).clear == c)
  {
    hide PickFree;
    PickFreeIs(w, o, c, off);
    if Fit(w, off, o) {
      TestFindsSlot(w, off, o);
      if o == w.order {
        SlotIsBlock(w, off);
      } else {
        var m := Pow2(o - 1);
        HalvesAligned(off, o);
        PickFreeLaw(w, o - 1, c, off);
        PickFreeLaw(w, o - 1, c, off + m);
        SlotInHalf(w, off, o);
        SlotFits(w, off, o - 1);
        SlotFits(w, off + m, o - 1);
        PickHalves(w, o, c, off, PickFree(w, o - 1, c, off), PickFree(w, o - 1, c, off + m));
      }
    }
  }

  lemma PickFreeIs(w: Wish, o: nat, c: bool, off: nat)
    ensures PickFree(w, o, c, off) ==
            if !Fit(w, off, o) then Picked(false, Free(o, c), [])
            else if o == w.order then Picked(Inside(w, off, o), Free(o, c), [])
            else PickBoth(Halved(o, c), PickFree(w, o - 1, c, off), PickFree(w, o - 1, c, off + Pow2(o - 1)))
  {}

  lemma PickHalves(w: Wish, o: nat, c: bool, off: nat, l: Picked, h: Picked)
    requires o > 0
    requires WF(l.tree) && l.tree.Block?() && l.tree.order == o - 1 && (!l.found ==> l.tree == Free(o - 1, c))
    requires WF(h.tree) && h.tree.Block?() && h.tree.order == o - 1
    requires l.found ==> Good(w, l, off) && At(l.tree, l.path).clear == c
    requires h.found ==> Good(w, h, off + Pow2(o - 1)) && At(h.tree, h.path).clear == c
    requires l.found || h.found
    ensures var r := PickBoth(Halved(o, c), l, h);
            WF(r.tree) && Good(w, r, off) && At(r.tree, r.path).clear == c
  {
    var r := PickBoth(Halved(o, c), l, h);
    if l.found { assert r.path[1..] == l.path; } else { assert r.path[1..] == h.path; }
  }

  /** Some free block of the tree has room for the wish. */
  ghost predicate Offers(w: Wish, t: Tree, off: nat) {
    match t
    case Free(o, _) => w.order <= o && HasSlot(w, off, o)
    case Split(_, _, l, r) => Offers(w, l, off) || Offers(w, r, off + Size(l))
    case Roots(l, r) => Offers(w, l, off) || Offers(w, r, off + Size(l))
    case _ => false
  }

  ghost predicate OfferedBy(w: Wish, t: Tree, off: nat, q: Path) {
    FreeBlockAt(t, q) && w.order <= At(t, q).order && HasSlot(w, off + Off(t, q), At(t, q).order)
  }

  lemma {:induction false} OfferingBlock(w: Wish, t: Tree, off: nat) returns (q: Path)
    requires Offers(w, t, off)
    ensures OfferedBy(w, t, off, q)
  {
    if t.Free? {
      q := [];
    } else if Offers(w, t.left, off) {
      var q' := OfferingBlock(w, t.left, off);
      q := [false] + q';
      assert q[1..] == q';
    } else {
      var q' := OfferingBlock(w, t.right, off + Size(t.left));
      q := [true] + q';
      assert q[1..] == q';
    }
  }

  lemma {:induction false} BlockOffers(w: Wish, t: Tree, off: nat, q: Path)
    requires OfferedBy(w, t, off, q)
    ensures Offers(w, t, off)
  {
    if q != [] { BlockOffers(w, Child(t, q[0]), off + (if q[0] then Size(t.left) else 0), q[1..]); }
  }

  lemma OfferedIff(w: Wish, t: Tree)
    ensures Offers(w, t, 0) <==> exists q :: OfferedBy(w, t, 0, q)
  {
    if Offers(w, t, 0) {
      var q := OfferingBlock(w, t, 0);
    }
    if q :| OfferedBy(w, t, 0, q) {
      BlockOffers(w, t, 0, q);
    }
  }

  lemma {:induction false} OffersFits(w: Wish, t: Tree, off: nat)
    requires WF(t) && t.Block?() && Multiple(off, Pow2(t.order)) && Offers(w, t, off)
    ensures w.order <= t.order && HasSlot(w, off, t.order) && (t.Split? ==> w.order < t.order)
  {
    if t.Split? {
      var m := Pow2(t.order - 1);
      HalvesAligned(off, t.order);
      SizeOfBlock(t.left);
      var a: nat := if Offers(w, t.left, off) then off else off + m;
      OffersFits(w, if Offers(w, t.left, off) then t.left else t.right, a);
      var x: nat :| Slot(w, a, t.order - 1, x);
      assert Slot(w, off, t.order, x);
    }
  }

  /** What the search promises: `t` itself if it fails, else `t` with some free blocks split. */
  ghost predicate Law(w: Wish, fallback: bool, t: Tree, off: nat, r: Picked) {
    WF(r.tree) && SameRoots(t, r.tree) &&
    (fallback ==> (r.found <==> Offers(w, t, off))) &&
    (r.found ==> Good(w, r, off)) && (!r.found ==> r.tree == t) &&
    (r.found && !fallback ==> At(r.tree, r.path).clear == w.clear)
  }

  lemma {:induction false} PickLaw(w: Wish, fallback: bool, t: Tree, off: nat)
    requires WF(t) && Maximal(t) && Aligned(t, off)
    ensures Law(w, fallback, t, off, Pick(w, fallback, t, off))
  {
    SameRootsSelf(t);
    if t.Free? {
      if w.order <= t.order { SlotFits(w, off, t.order); }
      PickFreeLaw(w, t.order, t.clear, off);
    } else if t.Inner?() {
      if t.Split? {
        HalvesAligned(off, t.order);
        SizeOfBlock(t.left);
      }
      var l, h := Pick(w, fallback, t.left, off), Pick(w, fallback, t.right, off + Size(t.left));
      PickLaw(w, fallback, t.left, off);
      PickLaw(w, fallback, t.right, off + Size(t.left));
      if t.Split? && Passes(w, fallback, t, off) {
        if Offers(w, t, off) {
          OffersFits(w, t, off);
          SlotFits(w, off, t.order);
        }
      } else {
        PickInner(w, fallback, t, off, l, h);
      }
    }
  }

  lemma PickInner(w: Wish, fallback: bool, t: Tree, off: nat, l: Picked, h: Picked)
    requires WF(t) && Maximal(t) && t.Inner?()
    requires Law(w, fallback, t.left, off, l) && Law(w, fallback, t.right, off + Size(t.left), h)
    ensures Law(w, fallback, t, off, PickBoth(t, l, h))
  {
    if l.found { PickLeft(w, t, off, l, h); } else { PickRight(w, t, off, l, h); }
  }

  lemma PickLeft(w: Wish, t: Tree, off: nat, l: Picked, h: Picked)
    requires WF(t) && Maximal(t) && t.Inner?() && l.found
    requires WF(l.tree) && SameRoots(t.left, l.tree) && Good(w, l, off)
    ensures var r := PickBoth(t, l, h);
            WF(r.tree) && SameRoots(t, r.tree) && Good(w, r, off) && At(r.tree, r.path) == At(l.tree, l.path)
  {
    var r := PickBoth(t, l, h);
    SameRootsSelf(t.right);
    NodeKeeps(t, l.tree, t.right);
    assert r.path[1..] == l.path;
  }

  lemma PickRight(w: Wish, t: Tree, off: nat, l: Picked, h: Picked)
    requires WF(t) && Maximal(t) && t.Inner?() && !l.found && l.tree == t.left
    requires WF(h.tree) && SameRoots(t.right, h.tree) && (h.found ==> Good(w, h, off + Size(t.left)))
    ensures var r := PickBoth(t, l, h);
            WF(r.tree) && SameRoots(t, r.tree) &&
            (h.found ==> Good(w, r, off) && At(r.tree, r.path) == At(h.tree, h.path))
  {
    var r := PickBoth(t, l, h);
    SameRootsSelf(t.left);
    NodeKeeps(t, t.left, h.tree);
    assert h.found ==> r.path[1..] == h.path;
  }

  // ---------- The loop over the pending nodes ----------

  lemma {:induction false} PickFreeKeeps(w: Wish, o: nat, c: bool, off: nat)
    ensures var r := PickFree(w, o, c, off); WF(r.tree) && r.tree.Block?() && r.tree.order == o
  {
    if Fit(w, off, o) && o != w.order {
      PickFreeKeeps(w, o - 1, c, off);
      PickFreeKeeps(w, o - 1, c, off + Pow2(o - 1));
    }
  }

  lemma {:induction false} PickKeeps(w: Wish, fallback: bool, t: Tree, off: nat)
    requires WF(t)
    ensures var r := Pick(w, fallback, t, off); WF(r.tree) && SameRoots(t, r.tree) && Size(r.tree) == Size(t)
  {
    SameRootsSelf(t);
    if t.Free? {
      PickFreeKeeps(w, t.order, t.clear, off);
      SizeOfBlock(PickFree(w, t.order, t.clear, off).tree);
    } else if t.Inner?() {
      var l, h := Pick(w, fallback, t.left, off), Pick(w, fallback, t.right, off + Size(t.left));
      PickKeeps(w, fallback, t.left, off);
      PickKeeps(w, fallback, t.right, off + Size(t.left));
      SameRootsSelf(t.right);
      NodeKeeps(t, l.tree, t.right);
      NodeKeeps(t, l.tree, h.tree);
    }
  }

  function PickOne(w: Wish, fallback: bool, t: Tree, p: Path): Picked
    requires Has(t, p)
  {
    Pick(w, fallback, At(t, p), Off(t, p))
  }

  /** The outcome at node `p`, told from the top of the tree. */
  function Lifted(t: Tree, p: Path, r: Picked): Picked
    requires Has(t, p)
  {
    Picked(r.found, Put(t, p, r.tree), if r.found then p + r.path else [])
  }

  function PickAll(w: Wish, fallback: bool, t: Tree, work: seq<Path>): Picked
    requires Worklist(t, work)
    decreases |work|
  {
    if work == [] then Picked(false, t, [])
    else
      var r := PickOne(w, fallback, t, work[0]);
      WorklistRest(t, work, r.tree);
      if r.found then Lifted(t, work[0], r) else PickAll(w, fallback, Put(t, work[0], r.tree), work[1..])
  }

  lemma PutPicked(w: Wish, fallback: bool, t: Tree, p: Path)
    requires WF(t) && BlockAt(t, p)
    ensures var u := Put(t, p, PickOne(w, fallback, t, p).tree); WF(u) && SameRoots(t, u) && Size(u) == Size(t)
  {
    WFAt(t, p);
    PickKeeps(w, fallback, At(t, p), Off(t, p));
    PutKeeps(t, p, PickOne(w, fallback, t, p).tree);
  }

  /** What the loop does at a node it descends into: replace the node by its two children. */
  predicate PickOpens(w: Wish, fallback: bool, t: Tree, u: Tree, off: nat) {
    u.Split? &&
    Pick(w, fallback, t, off) ==
    PickBoth(u, Pick(w, fallback, u.left, off), Pick(w, fallback, u.right, off + Size(u.left)))
  }

  lemma PickOpensFree(w: Wish, fallback: bool, o: nat, c: bool, off: nat)
    requires Fit(w, off, o) && o != w.order && (fallback || c == w.clear)
    ensures o > 0 && PickOpens(w, fallback, Free(o, c), Halved(o, c), off)
  {}

  lemma LiftedHalves(t: Tree, p: Path, u: Tree, l: Picked, h: Picked)
    requires Has(t, p) && u.Inner?()
    ensures var v := Put(t, p, u); var pl, ph := p + [false], p + [true];
            Has(v, pl) && Has(Put(v, pl, l.tree), ph) &&
            Lifted(t, p, PickBoth(u, l, h)) == if l.found then Lifted(v, pl, l) else Lifted(Put(v, pl, l.tree), ph, h)
  {
    PutTwo(t, p, u, l.tree, h.tree);
    assert p + ([false] + l.path) == p + [false] + l.path;
    assert p + ([true] + h.path) == p + [true] + h.path;
  }

  lemma PickAllOpens(w: Wish, fallback: bool, t: Tree, work: seq<Path>, u: Tree)
    requires WF(t) && Worklist(t, work) && work != []
    requires WF(u) && u.Split? && u.order == At(t, work[0]).order
    requires PickOpens(w, fallback, At(t, work[0]), u, Off(t, work[0]))
    ensures var p := work[0]; var v := Put(t, p, u); var rest := [p + [false], p + [true]] + work[1..];
            WF(v) && Worklist(v, rest) && PickAll(w, fallback, t, work) == PickAll(w, fallback, v, rest)
  {
    hide Pick;
    hide PickAll;
    var p := work[0];
    var pl, ph := p + [false], p + [true];
    var v := Put(t, p, u);
    var rest := [pl, ph] + work[1..];
    PutKeeps(t, p, u);
    WorklistPush(t, work, u);
    HalvesPicked(w, fallback, t, p, u);
    var l := PickOne(w, fallback, v, pl);
    var t' := Put(v, pl, l.tree);
    var h := PickOne(w, fallback, t', ph);
    LiftedHalves(t, p, u, l, h);
    PutTwo(t, p, u, l.tree, h.tree);
    PickAllStep(w, fallback, t, work);
    PickAllStep(w, fallback, v, rest);
    assert rest[1..] == [ph] + work[1..];
    if !l.found {
      PickAllStep(w, fallback, t', rest[1..]);
      assert rest[1..][1..] == work[1..];
    }
  }

  lemma HalvesPicked(w: Wish, fallback: bool, t: Tree, p: Path, u: Tree)
    requires WF(t) && BlockAt(t, p) && WF(u) && u.Split? && PickOpens(w, fallback, At(t, p), u, Off(t, p))
    ensures var v := Put(t, p, u); var pl, ph := p + [false], p + [true];
            Has(v, pl) &&
            (var l := PickOne(w, fallback, v, pl); var t' := Put(v, pl, l.tree);
             Has(t', ph) && PickOne(w, fallback, t, p) == PickBoth(u, l, PickOne(w, fallback, t', ph)))
  {
    hide Pick;
    var x := Pick(w, fallback, u.left, Off(t, p)).tree;
    assert Size(x) == Size(u.left) by { PickKeeps(w, fallback, u.left, Off(t, p)); }
    HalvesPlaced(t, p, u, x);
    var v, pl, ph := Put(t, p, u), p + [false], p + [true];
    PickedAt(w, fallback, At(t, p), Off(t, p), u, At(v, pl), Off(v, pl), At(Put(v, pl, x), ph), Off(Put(v, pl, x), ph));
  }

  /** `PickOpens`, in terms of the two halves wherever they are found. */
  lemma PickedAt(w: Wish, fallback: bool, x: Tree, off: nat, u: Tree, l: Tree, lo: nat, h: Tree, ho: nat)
    requires PickOpens(w, fallback, x, u, off) && l == u.left && lo == off && h == u.right && ho == off + Size(u.left)
    ensures var r := Pick(w, fallback, l, lo);
            r == Pick(w, fallback, u.left, off) && Pick(w, fallback, x, off) == PickBoth(u, r, Pick(w, fallback, h, ho))
  {
    hide Pick;
  }

  lemma PickAllStep(w: Wish, fallback: bool, t: Tree, work: seq<Path>)
    requires Worklist(t, work) && work != []
    ensures var r := PickOne(w, fallback, t, work[0]); var t' := Put(t, work[0], r.tree);
            Worklist(t', work[1..]) &&
            PickAll(w, fallback, t, work) ==
            if r.found then Lifted(t, work[0], r) else PickAll(w, fallback, t', work[1..])
  {
    WorklistRest(t, work, PickOne(w, fallback, t, work[0]).tree);
  }

  lemma PickNothing(w: Wish, fallback: bool, t: Tree, off: nat)
    ensures Pick(w, fallback, End, off) == Picked(false, End, []) && PickAll(w, fallback, t, []) == Picked(false, t, [])
  {}

  lemma PickRow(w: Wish, fallback: bool, t: Tree, off: nat)
    requires t.Roots?
    ensures Pick(w, fallback, t, off) ==
              PickBoth(t, Pick(w, fallback, t.left, off), Pick(w, fallback, t.right, off + Size(t.left)))
  {}

  /** Working through the root array is searching the whole forest. */
  lemma {:induction false} PickAllRoots(w: Wish, fallback: bool, t: Tree, p: Path)
    requires WF(t) && Has(t, p) && (At(t, p).Roots? || At(t, p).End?)
    ensures Worklist(t, Under(p, RootPaths(At(t, p))))
    ensures PickAll(w, fallback, t, Under(p, RootPaths(At(t, p)))) == Lifted(t, p, PickOne(w, fallback, t, p))
    decreases At(t, p)
  {
    hide Pick;
    hide PickAll;
    var row := At(t, p);
    var work := Under(p, RootPaths(row));
    RootWorklist(t, p);
    PutPut(t, p, row, row);
    PickNothing(w, fallback, t, Off(t, p));
    if row.Roots? {
      PickRow(w, fallback, row, Off(t, p));
      var pl, ph := p + [false], p + [true];
      WFAt(t, p);
      PickKeeps(w, fallback, row.left, Off(t, p));
      var l := Pick(w, fallback, row.left, Off(t, p));
      HalvesPlaced(t, p, row, l.tree);
      assert work[0] == pl;
      UnderUnder(p, [true], RootPaths(row.right));
      assert work[1..] == Under(ph, RootPaths(row.right));
      PickAllStep(w, fallback, t, work);
      var t' := Put(t, pl, l.tree);
      LiftedHalves(t, p, row, l, Pick(w, fallback, row.right, Off(t, p) + Size(row.left)));
      if !l.found {
        PutPicked(w, fallback, t, pl);
        PickAllRoots(w, fallback, t', ph);
      }
    }
  }

  // ---------- What one visit of the loop does ----------

  /** The tests that make the loop pass over a block. */
  predicate Skipped(w: Wish, fallback: bool, b: Tree, off: nat)
    requires b.Block?()
  {
    !Fit(w, off, b.order) || b.Allocated? || (!fallback && b.clear != w.clear) ||
    (Inside(w, off, b.order) && b.order == w.order && b.Split?)
  }

  lemma PickSkipped(w: Wish, fallback: bool, b: Tree, off: nat)
    requires b.Block?() && Skipped(w, fallback, b, off)
    ensures Pick(w, fallback, b, off) == Picked(false, b, [])
  {}

  lemma BiasSkips(w: Wish, fallback: bool, t: Tree, dfs: seq<Path>)
    requires WF(t) && Worklist(t, dfs) && dfs != [] && Skipped(w, fallback, At(t, dfs[0]), Off(t, dfs[0]))
    ensures Worklist(t, dfs[1..]) && PickAll(w, fallback, t, dfs) == PickAll(w, fallback, t, dfs[1..])
    ensures Effort(t, dfs[1..]) < Effort(t, dfs)
  {
    var p := dfs[0];
    PickSkipped(w, fallback, At(t, p), Off(t, p));
    PutPut(t, p, At(t, p), At(t, p));
    PickAllStep(w, fallback, t, dfs);
    SameRootsSelf(t);
    EffortSkip(t, t, dfs);
  }

  lemma BiasFinds(w: Wish, fallback: bool, t: Tree, dfs: seq<Path>)
    requires Worklist(t, dfs) && dfs != []
    requires var b, off := At(t, dfs[0]), Off(t, dfs[0]);
             !Skipped(w, fallback, b, off) && b.Free? && b.order == w.order && Inside(w, off, b.order)
    ensures PickAll(w, fallback, t, dfs) == Picked(true, t, dfs[0])
  {
    var p := dfs[0];
    assert Pick(w, fallback, At(t, p), Off(t, p)) == Picked(true, At(t, p), []);
    PutPut(t, p, At(t, p), At(t, p));
    assert p + [] == p;
    PickAllStep(w, fallback, t, dfs);
  }

  /** Anything else is opened; a free block that is opened is larger than what is wanted. */
  lemma BiasOpens(w: Wish, fallback: bool, t: Tree, dfs: seq<Path>)
    requires WF(t) && Aligned(t, 0) && Worklist(t, dfs) && dfs != []
    requires var b, off := At(t, dfs[0]), Off(t, dfs[0]);
             !Skipped(w, fallback, b, off) && !(b.order == w.order && Inside(w, off, b.order))
    ensures At(t, dfs[0]).Free? ==> At(t, dfs[0]).order > 0
    ensures var b, p := At(t, dfs[0]), dfs[0];
            var u := if b.Free? then Halved(b.order, b.clear) else b;
            var rest := [p + [false], p + [true]] + dfs[1..];
            WF(Put(t, p, u)) && Worklist(Put(t, p, u), rest) && SameRoots(t, Put(t, p, u)) &&
            PickAll(w, fallback, t, dfs) == PickAll(w, fallback, Put(t, p, u), rest) &&
            Effort(Put(t, p, u), rest) < Effort(t, dfs)
  {
    var p := dfs[0];
    var b, off := At(t, p), Off(t, p);
    WFAt(t, p);
    NaturalAlignment(t, 0, p);
    if b.order == w.order {
      TestFindsSlot(w, off, b.order);
      SlotIsBlock(w, off);
    }
    if b.Free? { PickOpensFree(w, fallback, b.order, b.clear, off); }
    var u := if b.Free? then Halved(b.order, b.clear) else b;
    PickAllOpens(w, fallback, t, dfs, u);
    PutKeeps(t, p, u);
    EffortPush(t, Put(t, p, u), dfs);
  }

  /** A block found with the preferred mark was on offer too. */
  lemma {:induction false} FoundIsOffered(w: Wish, fallback: bool, t: Tree, off: nat)
    requires WF(t) && Aligned(t, off) && Pick(w, fallback, t, off).found
    ensures Offers(w, t, off)
  {
    if t.Free? {
      PickFreeLaw(w, t.order, t.clear, off);
      SlotFits(w, off, t.order);
    } else {
      if t.Split? {
        HalvesAligned(off, t.order);
        SizeOfBlock(t.left);
      }
      if Pick(w, fallback, t.left, off).found {
        FoundIsOffered(w, fallback, t.left, off);
      } else {
        FoundIsOffered(w, fallback, t.right, off + Size(t.left));
      }
    }
  }
}
