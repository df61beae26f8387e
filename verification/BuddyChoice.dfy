/** Which free block a request gets: its mark, its size and its place. */
module BuddyChoice {
  import opened Powers
  import opened BuddyTree
  import opened BuddyLists
  import opened BuddyCanon
  import opened BuddyRange
  import opened BuddyWork
  import opened BuddyBias
  import opened BuddyState
  import opened BuddyMerge
  import opened BuddyHeld
  import opened BuddyTrim
  import opened BuddySpare

  /** The `DRM_BUDDY_*` flags of an allocation. */
  datatype Flags = Flags(range: bool, contiguous: bool, topDown: bool, clear: bool, noTrim: bool)

  // ---------- Searching a range ----------

  /** No block above `q` is split, so that `q` is a root. */
  predicate Unsplit(t: Tree, q: Path)
    requires Has(t, q)
  {
    q == [] || (!t.Split? && Unsplit(Child(t, q[0]), q[1..]))
  }

  /**
    The free block `q` has a slot for the wish at `y`. Without `fallback` it also has to have the wanted mark, and
    since split blocks count as dirty, only roots can count as cleared.
   */
  predicate Slotted(w: Wish, fallback: bool, t: Tree, off: nat, q: Path, y: nat) {
    FreeBlockAt(t, q) && w.order <= At(t, q).order && Slot(w, off + Off(t, q), At(t, q).order, y) &&
    (fallback || (At(t, q).clear == w.clear && (w.clear ==> Unsplit(t, q))))
  }

  /** The search can end at `x`, and nowhere below it. */
  ghost predicate Lowest(w: Wish, fallback: bool, t: Tree, x: nat) {
    (exists q :: Slotted(w, fallback, t, 0, q, x)) && forall q, y: nat | Slotted(w, fallback, t, 0, q, y) :: x <= y
  }

  /** The same as a recursion over the tree. */
  predicate SlotIn(w: Wish, fallback: bool, t: Tree, off: nat, y: nat) {
    match t
    case Free(o, c) => (fallback || c == w.clear) && w.order <= o && Slot(w, off, o, y)
    case Split(_, c, l, r) =>
      (fallback || c == w.clear) && (SlotIn(w, fallback, l, off, y) || SlotIn(w, fallback, r, off + Size(l), y))
    case Roots(l, r) => SlotIn(w, fallback, l, off, y) || SlotIn(w, fallback, r, off + Size(l), y)
    case _ => false
  }

  lemma {:induction false} SlotInPath(w: Wish, fallback: bool, t: Tree, off: nat, y: nat) returns (q: Path)
    requires WF(t) && SlotIn(w, fallback, t, off, y)
    ensures Slotted(w, fallback, t, off, q, y)
  {
    if t.Free? {
      q := [];
    } else {
      var right := !SlotIn(w, fallback, t.left, off, y);
      var r := SlotInPath(w, fallback, Child(t, right), if right then off + Size(t.left) else off, y);
      q := [right] + r;
      assert q[1..] == r;
    }
  }

  lemma {:induction false} PathSlotIn(w: Wish, fallback: bool, t: Tree, off: nat, q: Path, y: nat)
    requires WF(t) && Slotted(w, fallback, t, off, q, y)
    ensures SlotIn(w, fallback, t, off, y)
  {
    if q != [] { PathSlotIn(w, fallback, Child(t, q[0]), if q[0] then off + Size(t.left) else off, q[1..], y); }
  }

  /** A slot below a block is a slot of the block. */
  lemma {:induction false} SlotInFits(w: Wish, fallback: bool, t: Tree, off: nat, y: nat)
    requires WF(t) && t.Block?() && SlotIn(w, fallback, t, off, y)
    ensures w.order <= t.order && Slot(w, off, t.order, y) && (t.Split? ==> w.order < t.order)
  {
    if t.Split? {
      SizeOfBlock(t.left);
      if SlotIn(w, fallback, t.left, off, y) {
        SlotInFits(w, fallback, t.left, off, y);
      } else {
        SlotInFits(w, fallback, t.right, off + Size(t.left), y);
      }
    }
  }

  /** A slot lies in one of the halves. */
  lemma SlotHalf(w: Wish, off: nat, o: nat, y: nat)
    requires w.order < o && Multiple(off, Pow2(o)) && Slot(w, off, o, y)
    ensures if y < off + Pow2(o - 1) then Slot(w, off, o - 1, y) else Slot(w, off + Pow2(o - 1), o - 1, y)
  {
    var mid := off + Pow2(o - 1);
    HalvesAligned(off, o);
    MultipleOfSmaller(mid, w.order, o - 1);
    if y < mid { MultiplesApart(y, mid, Pow2(w.order)); }
  }

  /** What was found is the lowest slot of the block of order `o` at `off`. */
  ghost predicate LowSlot(w: Wish, o: nat, off: nat, r: Picked)
    requires r.found
  {
    Has(r.tree, r.path) && Slot(w, off, o, off + Off(r.tree, r.path)) &&
    forall y: nat | Slot(w, off, o, y) :: off + Off(r.tree, r.path) <= y
  }

  lemma {:induction false} PickFreeLow(w: Wish, o: nat, c: bool, off: nat)
    requires Multiple(off, Pow2(o)) && PickFree(w, o, c, off).found
    ensures LowSlot(w, o, off, PickFree(w, o, c, off))
  {
    hide PickFree;
    hide LowSlot;
    hide Good;
    hide Slot;
    PickFreeIs(w, o, c, off);
    FoundFits(w, o, c, off);
    if o == w.order {
      LowWhole(w, c, off);
    } else {
      var mid := off + Pow2(o - 1);
      HalvesAligned(off, o);
      var l, h := PickFree(w, o - 1, c, off), PickFree(w, o - 1, c, mid);
      FoundFits(w, o - 1, c, off);
      if l.found { PickFreeLow(w, o - 1, c, off); } else { PickFreeLow(w, o - 1, c, mid); }
      LowHalves(w, o, c, off, l, h);
    }
  }

  lemma FoundFits(w: Wish, o: nat, c: bool, off: nat)
    requires Multiple(off, Pow2(o))
    ensures var r := PickFree(w, o, c, off);
            Size(r.tree) == Pow2(o) && (r.found <==> Fit(w, off, o)) &&
            (r.found <==> w.order <= o && HasSlot(w, off, o))
  {
    PickFreeLaw(w, o, c, off);
    SizeOfBlock(PickFree(w, o, c, off).tree);
    if w.order <= o { SlotFits(w, off, o); }
  }

  lemma LowWhole(w: Wish, c: bool, off: nat)
    requires Multiple(off, Pow2(w.order)) && HasSlot(w, off, w.order)
    ensures LowSlot(w, w.order, off, Picked(true, Free(w.order, c), []))
  {}

  lemma LowHalves(w: Wish, o: nat, c: bool, off: nat, l: Picked, h: Picked)
    requires o > w.order && Multiple(off, Pow2(o)) && Size(l.tree) == Pow2(o - 1) && (l.found || h.found)
    requires !l.found ==> !HasSlot(w, off, o - 1)
    requires if l.found then LowSlot(w, o - 1, off, l) else LowSlot(w, o - 1, off + Pow2(o - 1), h)
    ensures LowSlot(w, o, off, PickBoth(Halved(o, c), l, h))
  {
    var r := PickBoth(Halved(o, c), l, h);
    assert r.path[1..] == if l.found then l.path else h.path;
    forall y: nat | Slot(w, off, o, y) ensures off + Off(r.tree, r.path) <= y { SlotHalf(w, off, o, y); }
  }

  /** What a search promises about the place: the lowest slot there is, or that there is none. */
  ghost predicate LowIn(w: Wish, fallback: bool, t: Tree, off: nat, r: Picked) {
    (r.found ==> Has(r.tree, r.path) && SlotIn(w, fallback, t, off, off + Off(r.tree, r.path))) &&
    forall y: nat | SlotIn(w, fallback, t, off, y) :: r.found && Has(r.tree, r.path) && off + Off(r.tree, r.path) <= y
  }

  lemma {:induction false} PickLow(w: Wish, fallback: bool, t: Tree, off: nat)
    requires WF(t) && Maximal(t) && Aligned(t, off)
    ensures LowIn(w, fallback, t, off, Pick(w, fallback, t, off))
  {
    if t.Free? {
      PickFreeLaw(w, t.order, t.clear, off);
      if w.order <= t.order { SlotFits(w, off, t.order); }
      if PickFree(w, t.order, t.clear, off).found { PickFreeLow(w, t.order, t.clear, off); }
    } else if t.Inner?() {
      if t.Split? {
        HalvesAligned(off, t.order);
        SizeOfBlock(t.left);
      }
      if t.Split? && Passes(w, fallback, t, off) {
        forall y: nat | SlotIn(w, fallback, t, off, y) ensures false {
          SlotInFits(w, fallback, t, off, y);
          SlotPassesTest(w, off, t.order, y);
        }
      } else {
        PickLow(w, fallback, t.left, off);
        PickLow(w, fallback, t.right, off + Size(t.left));
        PickLaw(w, fallback, t.left, off);
        LowBoth(w, fallback, t, off, Pick(w, fallback, t.left, off), Pick(w, fallback, t.right, off + Size(t.left)));
      }
    }
  }

  lemma LowBoth(w: Wish, fallback: bool, t: Tree, off: nat, l: Picked, h: Picked)
    requires WF(t) && t.Inner?() && (t.Split? ==> fallback || t.clear == w.clear)
    requires LowIn(w, fallback, t.left, off, l) && LowIn(w, fallback, t.right, off + Size(t.left), h)
    requires !l.found ==> l.tree == t.left
    ensures LowIn(w, fallback, t, off, PickBoth(t, l, h))
  {
    hide SlotIn;
    var r, mid := PickBoth(t, l, h), off + Size(t.left);
    assert r.found ==> r.path[1..] == if l.found then l.path else h.path;
    forall y: nat
      ensures SlotIn(w, fallback, t, off, y) <==>
                SlotIn(w, fallback, t.left, off, y) || SlotIn(w, fallback, t.right, mid, y)
    {
      SlotInInner(w, fallback, t, off, y);
    }
    if l.found {
      SlotBelow(w, fallback, t.left, off, off + Off(l.tree, l.path));
      forall y: nat | SlotIn(w, fallback, t.right, mid, y) ensures mid <= y { SlotBelow(w, fallback, t.right, mid, y); }
    }
  }

  lemma SlotInInner(w: Wish, fallback: bool, t: Tree, off: nat, y: nat)
    requires t.Inner?() && (t.Split? ==> fallback || t.clear == w.clear)
    ensures SlotIn(w, fallback, t, off, y) <==>
            SlotIn(w, fallback, t.left, off, y) || SlotIn(w, fallback, t.right, off + Size(t.left), y)
  {}

  lemma {:induction false} SlotBelow(w: Wish, fallback: bool, t: Tree, off: nat, y: nat)
    requires SlotIn(w, fallback, t, off, y)
    ensures off <= y < off + Size(t)
  {
    if t.Inner?() {
      if SlotIn(w, fallback, t.left, off, y) {
        SlotBelow(w, fallback, t.left, off, y);
      } else {
        SlotBelow(w, fallback, t.right, off + Size(t.left), y);
      }
    }
  }

  /** The search finds the lowest slot, if and only if there is one. */
  lemma PickLowest(w: Wish, fallback: bool, t: Tree)
    requires WF(t) && Maximal(t) && Aligned(t, 0)
    ensures var r := Pick(w, fallback, t, 0);
            (r.found <==> exists q, y: nat :: Slotted(w, fallback, t, 0, q, y)) &&
            (r.found ==> Has(r.tree, r.path) && Lowest(w, fallback, t, Off(r.tree, r.path)))
  {
    var r := Pick(w, fallback, t, 0);
    PickLow(w, fallback, t, 0);
    forall q, y: nat | Slotted(w, fallback, t, 0, q, y) ensures SlotIn(w, fallback, t, 0, y) {
      PathSlotIn(w, fallback, t, 0, q, y);
    }
    if r.found {
      var q := SlotInPath(w, fallback, t, 0, Off(r.tree, r.path));
    }
  }

  // ---------- One block ----------

  /** No free block can hold a block of the order where the flags want it. */
  ghost predicate NoRoomIn(t: Tree, s: nat, hi: nat, order: nat, f: Flags) {
    if f.range then forall q :: !OfferedBy(Wish(s, hi, order, f.clear), t, 0, q)
    else forall q | FreeBlockAt(t, q) :: At(t, q).order < order
  }

  /**
    A block of the order is taken from `t` at `off`. In a range it is the lowest one with the wanted mark, as far as
    the search without falling back sees it, or else the lowest one. Without a range it is the upper end of the block
    that is chosen from the free lists, with its mark.
   */
  ghost predicate Selected(t: Tree, s: nat, hi: nat, order: nat, f: Flags, off: nat, clear: bool) {
    if f.range then Ranged(Wish(s, hi, order, f.clear), t, off, clear)
    else exists b :: UpperEnd(t, b, order, f, off, clear)
  }

  ghost predicate Ranged(w: Wish, t: Tree, off: nat, clear: bool) {
    if exists q, y: nat :: Slotted(w, false, t, 0, q, y) then clear == w.clear && Lowest(w, false, t, off)
    else Lowest(w, true, t, off)
  }

  ghost predicate UpperEnd(t: Tree, b: Path, order: nat, f: Flags, off: nat, clear: bool) {
    Chosen(t, b, order, f.clear, f.topDown) && clear == At(t, b).clear &&
    off + Pow2(order) == Off(t, b) + Pow2(At(t, b).order)
  }

  /** What the search of `__drm_buddy_alloc_range_bias` comes to, with falling back if need be. */
  lemma SearchRanged(w: Wish, t: Tree)
    requires WF(t) && Maximal(t) && Aligned(t, 0)
    ensures var r := Pick(w, false, t, 0);
            r.found ==> Has(r.tree, r.path) && At(r.tree, r.path).Free? &&
                        Ranged(w, t, Off(r.tree, r.path), At(r.tree, r.path).clear)
    ensures var r := Pick(w, true, t, 0);
            r.found && !Pick(w, false, t, 0).found ==>
              Has(r.tree, r.path) && At(r.tree, r.path).Free? &&
              Ranged(w, t, Off(r.tree, r.path), At(r.tree, r.path).clear)
  {
    PickLowest(w, false, t);
    PickLowest(w, true, t);
    PickLaw(w, false, t, 0);
    PickLaw(w, true, t, 0);
  }

  /** There is no room for blocks of the orders above `order` and up to `top`. */
  ghost predicate NoneLarger(t: Tree, s: nat, hi: nat, order: int, top: nat, f: Flags) {
    forall k: nat | order < k <= top :: NoRoomIn(t, s, hi, k, f)
  }

  /** The block was selected from `src`: `t` itself, without room for a larger one, or `t` after merging by force. */
  ghost predicate Source(exact: bool, t: Tree, src: Tree, s: nat, hi: nat, order: nat, top: nat, f: Flags, off: nat,
                         clear: bool)
  {
    WF(src) && Maximal(src) && SameRoots(t, src) && SameUse(t, src) && Selected(src, s, hi, order, f, off, clear) &&
    (exact ==> src == t && NoneLarger(t, s, hi, order, top, f))
  }

  ghost predicate SelectedBy(exact: bool, t: Tree, s: nat, hi: nat, order: nat, top: nat, f: Flags, off: nat,
                             clear: bool)
  {
    exists src :: Source(exact, t, src, s, hi, order, top, f, off, clear)
  }

  /** After merging by force nothing is promised about larger blocks. */
  lemma AnyTop(t: Tree, s: nat, hi: nat, order: nat, top: nat, top': nat, f: Flags, off: nat, clear: bool)
    requires SelectedBy(false, t, s, hi, order, top, f, off, clear)
    ensures SelectedBy(false, t, s, hi, order, top', f, off, clear)
  {
    var src :| Source(false, t, src, s, hi, order, top, f, off, clear);
    assert Source(false, t, src, s, hi, order, top', f, off, clear);
  }

  lemma NoOrders(t: Tree, s: nat, hi: nat, order: nat, f: Flags)
    ensures NoneLarger(t, s, hi, order, order, f)
  {}

  // ---------- Room does not come back ----------

  /** What is free after blocks were taken is in a free block of before. */
  lemma FreeBefore(t: Tree, u: Tree, held: seq<Path>, q: Path) returns (p: Path)
    requires WF(t) && Maximal(t) && (t.Roots? || t.End?) && Aligned(t, 0) && WF(u) && Aligned(u, 0)
    requires Taken(true, t, u, held) && FreeBlockAt(u, q)
    ensures FreeBlockAt(t, p) && At(t, p).order >= At(u, q).order
    ensures Off(t, p) <= Off(u, q) && Off(u, q) + Pow2(At(u, q).order) <= Off(t, p) + Pow2(At(t, p).order)
  {
    var o, c, x := At(u, q).order, At(u, q).clear, Off(u, q);
    WFAt(u, q);
    SizeOfBlock(At(u, q));
    NaturalAlignment(u, 0, q);
    forall i: nat | x <= i < x + Pow2(o) ensures i < Size(t) && ChunkAt(t, i) == FreeChunk(c) {
      ChunkWithin(u, q, i - x);
      assert ChunkTaken(true, ChunkAt(t, i), ChunkAt(u, i), Covered(u, held, i));
    }
    ChunkWithin(u, q, Pow2(o) - 1);
    p := RunBlock(t, 0, x, o);
    WFAt(t, p);
    SizeOfBlock(At(t, p));
    if At(t, p).order == o {
      forall i: nat | i < Pow2(o) ensures ChunkAt(At(t, p), i) == FreeChunk(c) { ChunkWithin(t, p, i); }
      MaximalAt(t, p);
      UniformIsFree(At(t, p), c);
    } else {
      ChunkWithin(t, p, x - Off(t, p));
    }
  }

  lemma NoRoomStays(t: Tree, u: Tree, held: seq<Path>, s: nat, hi: nat, k: nat, f: Flags)
    requires WF(t) && Maximal(t) && (t.Roots? || t.End?) && Aligned(t, 0) && WF(u) && Aligned(u, 0)
    requires Taken(true, t, u, held) && NoRoomIn(t, s, hi, k, f)
    ensures NoRoomIn(u, s, hi, k, f)
  {
    if f.range {
      var w := Wish(s, hi, k, f.clear);
      forall q ensures !OfferedBy(w, u, 0, q) {
        if OfferedBy(w, u, 0, q) {
          var p := FreeBefore(t, u, held, q);
          var y: nat :| Slot(w, Off(u, q), At(u, q).order, y);
          assert Slot(w, Off(t, p), At(t, p).order, y);
          assert OfferedBy(w, t, 0, p);
        }
      }
    } else {
      forall q | FreeBlockAt(u, q) ensures At(u, q).order < k {
        var p := FreeBefore(t, u, held, q);
      }
    }
  }

  // ---------- All blocks of a request ----------

  /**
    Block `i` of those that make up `want` chunks was selected from `src`, which is the device with the blocks before
    it taken. Unless memory was merged by force, no larger block could have been used for what was left to find.
   */
  ghost predicate PickedFrom(exact: bool, t0: Tree, t: Tree, held: seq<Path>, i: nat, src: Tree, want: nat, s: nat,
                             hi: nat, f: Flags)
  {
    i < |held| && UsedBlockAt(t, held[i]) && WF(src) && Maximal(src) && SameRoots(t0, src) &&
    Taken(exact, t0, src, held[..i]) && Total(src, held[..i]) < want &&
    var b := At(t, held[i]);
    Selected(src, s, hi, b.order, f, Off(t, held[i]), b.clear) &&
    (exact ==> NoneLarger(src, s, hi, b.order, Log2(want - Total(src, held[..i])), f))
  }

  ghost predicate BlockPicked(exact: bool, t0: Tree, t: Tree, held: seq<Path>, i: nat, want: nat, s: nat, hi: nat,
                              f: Flags)
  {
    exists src :: PickedFrom(exact, t0, t, held, i, src, want, s, hi, f)
  }

  ghost predicate Picks(exact: bool, t0: Tree, t: Tree, held: seq<Path>, want: nat, s: nat, hi: nat, f: Flags) {
    forall i | 0 <= i < |held| :: BlockPicked(exact, t0, t, held, i, want, s, hi, f)
  }

  /** The blocks of the list are the same. */
  predicate SameBlocks(t: Tree, u: Tree, held: seq<Path>) {
    forall i | 0 <= i < |held| ::
      BlockAt(t, held[i]) && BlockAt(u, held[i]) && At(u, held[i]) == At(t, held[i]) &&
      Off(u, held[i]) == Off(t, held[i])
  }

  /** They stay what they are while more are found, and when memory is merged by force. */
  lemma PicksStay(exact: bool, t0: Tree, t: Tree, held: seq<Path>, exact': bool, u: Tree, more: seq<Path>, want: nat,
                  s: nat, hi: nat, f: Flags, i: nat)
    requires BlockPicked(exact, t0, t, held, i, want, s, hi, f) && (exact' ==> exact) && SameBlocks(t, u, held)
    requires i < |held| <= |more| && more[..|held|] == held
    ensures BlockPicked(exact', t0, u, more, i, want, s, hi, f)
  {
    hide Selected;
    hide NoneLarger;
    hide Taken;
    hide Maximal;
    var src :| PickedFrom(exact, t0, t, held, i, src, want, s, hi, f);
    assert more[..i] == held[..i] && more[i] == held[i];
    if exact && !exact' { TakenLoosely(t0, src, held[..i]); }
    assert PickedFrom(exact', t0, u, more, i, src, want, s, hi, f);
  }

  lemma SourceTaken(exact: bool, t0: Tree, t: Tree, held: seq<Path>, ex: bool, src: Tree)
    requires WF(t) && SameRoots(t0, t) && Taken(exact, t0, t, held) && WF(src) && SameRoots(t, src) && SameUse(t, src)
    requires ex ==> src == t
    ensures AllUsed(src, held) && Taken(exact && ex, t0, src, held) && Total(src, held) == Total(t, held)
    ensures SameRoots(t0, src)
  {
    if !ex {
      NothingTaken(false, t, src);
      GrabMore(exact, t0, t, held, false, src, []);
      assert held + [] == held;
    }
    SameRootsTrans(t0, t, src);
  }

  lemma NoneLargerJoin(t: Tree, s: nat, hi: nat, a: nat, b: nat, c: nat, f: Flags)
    requires NoneLarger(t, s, hi, a, b, f) && NoneLarger(t, s, hi, b, c, f)
    ensures NoneLarger(t, s, hi, a, c, f)
  {}

  /** One more block. */
  lemma PicksMore(exact: bool, t0: Tree, t: Tree, held: seq<Path>, ex: bool, u: Tree, p: Path, top: nat, want: nat,
                  s: nat, hi: nat, f: Flags)
    requires WF(t) && SameRoots(t0, t) && Taken(exact, t0, t, held) && Total(t, held) < want
    requires Picks(exact, t0, t, held, want, s, hi, f) && SameBlocks(t, u, held) && UsedBlockAt(u, p)
    requires SelectedBy(ex, t, s, hi, At(u, p).order, top, f, Off(u, p), At(u, p).clear)
    requires exact ==> NoneLarger(t, s, hi, top, Log2(want - Total(t, held)), f)
    ensures Picks(exact && ex, t0, u, held + [p], want, s, hi, f)
    ensures exact && ex ==> NoneLarger(t, s, hi, At(u, p).order, Log2(want - Total(t, held)), f)
  {
    hide NoneLarger;
    hide Total;
    hide Selected;
    hide Taken;
    hide Maximal;
    hide SameUse;
    hide NoRoomIn;
    hide WF;
    hide SameRoots;
    hide Log2;
    var more, both, b := held + [p], exact && ex, At(u, p);
    var src :| Source(ex, t, src, s, hi, b.order, top, f, Off(u, p), b.clear);
    assert more[..|held|] == held;
    SourceTaken(exact, t0, t, held, ex, src);
    if both { NoneLargerJoin(t, s, hi, b.order, top, Log2(want - Total(t, held)), f); }
    assert PickedFrom(both, t0, u, more, |held|, src, want, s, hi, f);
    forall i | 0 <= i < |more| ensures BlockPicked(both, t0, u, more, i, want, s, hi, f) {
      if i < |held| { PicksStay(exact, t0, t, held, both, u, more, want, s, hi, f, i); }
    }
  }

  /** One more block, and what that leaves room for. */
  lemma PicksAdded(exact: bool, t0: Tree, t: Tree, held: seq<Path>, ex: bool, u: Tree, p: Path, top: nat, want: nat,
                   s: nat, hi: nat, f: Flags)
    requires WF(t) && Maximal(t) && (t.Roots? || t.End?) && Aligned(t, 0) && WF(u) && Aligned(u, 0) && SameRoots(t, u)
    requires SameRoots(t0, t) && Taken(exact, t0, t, held) && Total(t, held) < want && Taken(ex, t, u, [p])
    requires Picks(exact, t0, t, held, want, s, hi, f) && UsedBlockAt(u, p)
    requires SelectedBy(ex, t, s, hi, At(u, p).order, top, f, Off(u, p), At(u, p).clear)
    requires exact ==> NoneLarger(t, s, hi, top, Log2(want - Total(t, held)), f)
    ensures Picks(exact && ex, t0, u, held + [p], want, s, hi, f) && AllUsed(u, held + [p])
    ensures exact && ex && Total(u, held + [p]) < want ==>
              NoneLarger(u, s, hi, At(u, p).order, Log2(want - Total(u, held + [p])), f)
  {
    hide Picks;
    hide NoneLarger;
    hide SelectedBy;
    hide Total;
    hide Log2;
    GrabMore(exact, t0, t, held, ex, u, [p]);
    assert SameBlocks(t, u, held) && AllUsed(u, held + [p]) by { TakenUsed(exact, t0, t, held); }
    PicksMore(exact, t0, t, held, ex, u, p, top, want, s, hi, f);
    if exact && ex && Total(u, held + [p]) < want {
      Log2Monotone(want - Total(u, held + [p]), want - Total(t, held));
      NoneLargerStays(t, u, [p], s, hi, At(u, p).order, Log2(want - Total(t, held)), Log2(want - Total(u, held + [p])),
                      f);
    }
  }

  lemma NoTotal(t: Tree)
    ensures Total(t, []) == 0
  {}

  lemma OneTotal(t: Tree, p: Path)
    requires WF(t) && UsedBlockAt(t, p)
    ensures Total(t, [p]) == Pow2(At(t, p).order)
  {
    SizeOfBlock(At(t, p));
    assert Total(t, [p]) == SizeAt(t, p) + Total(t, []);
  }

  /** Room that was not there does not come back when a block is taken. */
  lemma NoneLargerStays(t: Tree, u: Tree, held: seq<Path>, s: nat, hi: nat, order: nat, top: nat, top': nat, f: Flags)
    requires WF(t) && Maximal(t) && (t.Roots? || t.End?) && Aligned(t, 0) && WF(u) && Aligned(u, 0)
    requires Taken(true, t, u, held) && NoneLarger(t, s, hi, order, top, f) && top' <= top
    ensures NoneLarger(u, s, hi, order, top', f)
  {
    forall k | order < k <= top' ensures NoRoomIn(u, s, hi, k, f) { NoRoomStays(t, u, held, s, hi, k, f); }
  }

  /** The last block was cut down by `extra` chunks at its end, if there are any. */
  ghost predicate CutTo(mid: Tree, held: seq<Path>, extra: nat, u: Tree, got: seq<Path>) {
    if extra == 0 then u == mid && got == held
    else
      held != [] &&
      var last := |held| - 1;
      UsedBlockAt(mid, held[last]) && |got| >= last && got[..last] == held[..last] &&
      var off, n := Off(mid, held[last]), Pow2(At(mid, held[last]).order);
      extra < n && Trimmed(mid, held[last], off, off + n - extra, u, got[last..])
  }

  /**
    The blocks `held`, which make up `want` chunks, were selected one by one from `t0`, and handed out less `extra`.
   */
  ghost predicate CourseVia(exact: bool, t0: Tree, mid: Tree, held: seq<Path>, u: Tree, got: seq<Path>, want: nat,
                            extra: nat, s: nat, hi: nat, f: Flags)
  {
    Taken(exact, t0, mid, held) && Total(mid, held) == want && Picks(exact, t0, mid, held, want, s, hi, f) &&
    CutTo(mid, held, extra, u, got)
  }

  ghost predicate Course(exact: bool, t0: Tree, u: Tree, got: seq<Path>, want: nat, extra: nat, s: nat, hi: nat,
                         f: Flags)
  {
    exists mid, held :: CourseVia(exact, t0, mid, held, u, got, want, extra, s, hi, f)
  }
}
