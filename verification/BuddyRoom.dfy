/** How much memory of a range is in free blocks of at least some order. */
module BuddyRoom {
  import opened Powers
  import opened BuddyTree
  import opened BuddyRange
  import opened BuddyBias

  /** The aligned blocks of order `k` that lie in the block of order `o` at `off` and in `[lo, hi)`, in chunks. */
  function SlotRoom(o: nat, off: nat, k: nat, lo: nat, hi: nat): nat {
    if o < k then 0
    else if o == k then if lo <= off && off + Pow2(o) <= hi then Pow2(o) else 0
    else SlotRoom(o - 1, off, k, lo, hi) + SlotRoom(o - 1, off + Pow2(o - 1), k, lo, hi)
  }

  function Room(t: Tree, off: nat, k: nat, lo: nat, hi: nat): nat {
    match t
    case Free(o, _) => SlotRoom(o, off, k, lo, hi)
    case Split(_, _, l, r) => Room(l, off, k, lo, hi) + Room(r, off + Size(l), k, lo, hi)
    case Roots(l, r) => Room(l, off, k, lo, hi) + Room(r, off + Size(l), k, lo, hi)
    case _ => 0
  }

  /** The same room for blocks up to some order, whatever the range. */
  ghost predicate SameRoom(t: Tree, u: Tree, order: nat) {
    forall k, lo, hi | 0 <= k <= order :: Room(t, 0, k, lo, hi) == Room(u, 0, k, lo, hi)
  }

  // ---------- One block ----------

  /** A block inside the range is room as a whole. */
  lemma {:induction false} SlotInside(o: nat, off: nat, k: nat, lo: nat, hi: nat)
    requires k <= o && lo <= off && off + Pow2(o) <= hi
    ensures SlotRoom(o, off, k, lo, hi) == Pow2(o)
  {
    if k < o {
      SlotInside(o - 1, off, k, lo, hi);
      SlotInside(o - 1, off + Pow2(o - 1), k, lo, hi);
    }
  }

  lemma {:induction false} RoomySlot(o: nat, off: nat, k: nat, lo: nat, hi: nat, clear: bool)
    requires Multiple(off, Pow2(o)) && SlotRoom(o, off, k, lo, hi) > 0
    ensures k <= o && HasSlot(Wish(lo, hi, k, clear), off, o)
  {
    var w := Wish(lo, hi, k, clear);
    if o == k {
      assert Slot(w, off, o, off);
    } else {
      HalvesAligned(off, o);
      var a := if SlotRoom(o - 1, off, k, lo, hi) > 0 then off else off + Pow2(o - 1);
      RoomySlot(o - 1, a, k, lo, hi, clear);
      var x: nat :| Slot(w, a, o - 1, x);
      assert Slot(w, off, o, x);
    }
  }

  // ---------- A tree ----------

  lemma RoomInner(t: Tree, off: nat, k: nat, lo: nat, hi: nat)
    requires t.Inner?()
    ensures Room(t, off, k, lo, hi) == Room(t.left, off, k, lo, hi) + Room(t.right, off + Size(t.left), k, lo, hi)
  {
    hide SlotRoom;
  }

  lemma {:induction false} RoomPut(t: Tree, off: nat, p: Path, x: Tree, k: nat, lo: nat, hi: nat)
    requires Has(t, p) && Size(x) == Size(At(t, p))
    ensures Size(Put(t, p, x)) == Size(t)
    ensures var a := off + Off(t, p);
            Room(Put(t, p, x), off, k, lo, hi) ==
              Room(t, off, k, lo, hi) - Room(At(t, p), a, k, lo, hi) + Room(x, a, k, lo, hi)
  {
    hide Room;
    if p != [] {
      RoomInner(t, off, k, lo, hi);
      RoomInner(Put(t, p, x), off, k, lo, hi);
      RoomPut(Child(t, p[0]), off + (if p[0] then Size(t.left) else 0), p[1..], x, k, lo, hi);
    }
  }

  /** Splitting a block that is larger than `order` takes no room. */
  lemma RoomSplit(t: Tree, p: Path, order: nat)
    requires FreeBlockAt(t, p) && order < At(t, p).order
    ensures SameRoom(t, Put(t, p, Halved(At(t, p).order, At(t, p).clear)), order)
  {
    var x := Halved(At(t, p).order, At(t, p).clear);
    forall k, lo, hi | 0 <= k <= order ensures Room(t, 0, k, lo, hi) == Room(Put(t, p, x), 0, k, lo, hi) {
      RoomPut(t, 0, p, x, k, lo, hi);
    }
  }

  lemma RoomTaken(t: Tree, p: Path, k: nat, lo: nat, hi: nat)
    requires FreeBlockAt(t, p) && k <= At(t, p).order && lo <= Off(t, p) && Off(t, p) + Pow2(At(t, p).order) <= hi
    ensures Room(Put(t, p, Allocated(At(t, p).order, At(t, p).clear)), 0, k, lo, hi) ==
            Room(t, 0, k, lo, hi) - Pow2(At(t, p).order)
  {
    RoomPut(t, 0, p, Allocated(At(t, p).order, At(t, p).clear), k, lo, hi);
    SlotInside(At(t, p).order, Off(t, p), k, lo, hi);
  }

  lemma {:induction false} RoomyBlock(t: Tree, off: nat, k: nat, lo: nat, hi: nat) returns (q: Path)
    requires Room(t, off, k, lo, hi) > 0
    ensures FreeBlockAt(t, q) && SlotRoom(At(t, q).order, off + Off(t, q), k, lo, hi) > 0
  {
    if t.Free? {
      q := [];
    } else {
      var right := Room(t.left, off, k, lo, hi) == 0;
      var r := RoomyBlock(Child(t, right), off + (if right then Size(t.left) else 0), k, lo, hi);
      q := [right] + r;
      assert q[1..] == r;
    }
  }

  /** No free block has room for one of order `k` in the range, so there is none in sum. */
  lemma NoRoomLeft(t: Tree, k: nat, lo: nat, hi: nat, clear: bool)
    requires WF(t) && Aligned(t, 0) && forall q :: !OfferedBy(Wish(lo, hi, k, clear), t, 0, q)
    ensures Room(t, 0, k, lo, hi) == 0
  {
    if Room(t, 0, k, lo, hi) > 0 {
      var q := RoomyBlock(t, 0, k, lo, hi);
      NaturalAlignment(t, 0, q);
      RoomySlot(At(t, q).order, Off(t, q), k, lo, hi, clear);
      assert OfferedBy(Wish(lo, hi, k, clear), t, 0, q);
    }
  }

  /** A free block of order `k` or above that lies in the range is room. */
  lemma {:induction false} RoomOfBlock(t: Tree, off: nat, q: Path, k: nat, lo: nat, hi: nat)
    requires FreeBlockAt(t, q) && k <= At(t, q).order && lo <= off + Off(t, q)
    requires off + Off(t, q) + Pow2(At(t, q).order) <= hi
    ensures Room(t, off, k, lo, hi) >= Pow2(At(t, q).order)
  {
    if q == [] {
      SlotInside(t.order, off, k, lo, hi);
    } else {
      RoomOfBlock(Child(t, q[0]), off + (if q[0] then Size(t.left) else 0), q[1..], k, lo, hi);
    }
  }

  // ---------- The search ----------

  lemma RoomFree(o: nat, c: bool, off: nat, k: nat, lo: nat, hi: nat)
    ensures Room(Free(o, c), off, k, lo, hi) == SlotRoom(o, off, k, lo, hi)
  {}

  lemma FitOrder(w: Wish, off: nat, o: nat)
    requires Fit(w, off, o)
    ensures w.order <= o
  {}

  /** The search in a range splits only blocks that are larger than the wanted order. */
  lemma {:induction false} PickFreeRoom(w: Wish, o: nat, c: bool, off: nat, k: nat, lo: nat, hi: nat)
    requires k <= w.order
    ensures var r := PickFree(w, o, c, off).tree;
            Size(r) == Pow2(o) && Room(r, off, k, lo, hi) == SlotRoom(o, off, k, lo, hi)
  {
    hide PickFree;
    hide Room;
    hide Fit;
    hide Inside;
    PickFreeIs(w, o, c, off);
    RoomFree(o, c, off, k, lo, hi);
    if Fit(w, off, o) && o != w.order {
      assert o > w.order by { FitOrder(w, off, o); }
      RoomInner(PickFree(w, o, c, off).tree, off, k, lo, hi);
      RoomFree(o - 1, c, off + Pow2(o - 1), k, lo, hi);
      PickFreeRoom(w, o - 1, c, off, k, lo, hi);
      PickFreeRoom(w, o - 1, c, off + Pow2(o - 1), k, lo, hi);
    }
  }

  lemma {:induction false} PickRoom(w: Wish, fallback: bool, t: Tree, off: nat, k: nat, lo: nat, hi: nat)
    requires k <= w.order
    ensures var r := Pick(w, fallback, t, off).tree;
            Size(r) == Size(t) && Room(r, off, k, lo, hi) == Room(t, off, k, lo, hi)
  {
    hide Room;
    hide PickFree;
    hide Passes;
    if t.Free? {
      PickFreeRoom(w, t.order, t.clear, off, k, lo, hi);
      RoomFree(t.order, t.clear, off, k, lo, hi);
    } else if t.Inner?() {
      RoomInner(t, off, k, lo, hi);
      RoomInner(Pick(w, fallback, t, off).tree, off, k, lo, hi);
      PickRoom(w, fallback, t.left, off, k, lo, hi);
      PickRoom(w, fallback, t.right, off + Size(t.left), k, lo, hi);
    }
  }

  lemma PickSameRoom(w: Wish, fallback: bool, t: Tree)
    ensures SameRoom(t, Pick(w, fallback, t, 0).tree, w.order)
  {
    forall k, lo, hi | 0 <= k <= w.order
      ensures Room(t, 0, k, lo, hi) == Room(Pick(w, fallback, t, 0).tree, 0, k, lo, hi)
    {
      PickRoom(w, fallback, t, 0, k, lo, hi);
    }
  }
}
