/**
  The block nodes of the allocator and the pointers between them.

  Every `drm_buddy_block` is a node of a tree; `Roots` strings the root array together and is
  not a block itself. A block pointer is the path from the top to the block: the parent pointer
  drops the last step, `left` and `right` append one, the buddy flips the last one.
  Sizes and offsets count chunks.
 */
module BuddyTree {
  import opened Powers

  type Path = seq<bool>

  datatype Tree =
    | Free(order: nat, clear: bool)
    | Allocated(order: nat, clear: bool)
    | Split(order: nat, clear: bool, left: Tree, right: Tree)
    | Roots(left: Tree, right: Tree)
    | End
  {
    predicate Block?() { Free? || Allocated? || Split? }
    predicate Inner?() { Split? || Roots? }
  }

  function Size(t: Tree): nat {
    match t
    case Free(o, _) => Pow2(o)
    case Allocated(o, _) => Pow2(o)
    case Split(_, _, l, r) => Size(l) + Size(r)
    case Roots(l, r) => Size(l) + Size(r)
    case End => 0
  }

  /** Split blocks are dirty and exactly halved by their children; roots come in falling order. */
  predicate WF(t: Tree) {
    match t
    case Free(_, _) => true
    case Allocated(_, _) => true
    case Split(o, c, l, r) =>
      o > 0 && !c && WF(l) && WF(r) && l.Block?() && r.Block?() && l.order == o - 1 && r.order == o - 1
    case Roots(l, r) =>
      WF(l) && WF(r) && l.Block?() && (r.Roots? || r.End?) && (r.Roots? ==> r.left.order < l.order)
    case End => true
  }

  /** The two forests have the same root blocks, whatever became of them since. */
  predicate SameRoots(t: Tree, u: Tree) {
    match t
    case Roots(l, r) => u.Roots? && SameRoots(l, u.left) && SameRoots(r, u.right)
    case End => u.End?
    case _ => u.Block?() && u.order == t.order
  }

  function Child(t: Tree, b: bool): Tree
    requires t.Inner?()
  {
    if b then t.right else t.left
  }

  function WithChild(t: Tree, b: bool, x: Tree): Tree
    requires t.Inner?()
  {
    if b then t.(right := x) else t.(left := x)
  }

  predicate Has(t: Tree, p: Path) {
    p == [] || (t.Inner?() && Has(Child(t, p[0]), p[1..]))
  }

  /** Following the pointer `p`. */
  function At(t: Tree, p: Path): Tree
    requires Has(t, p)
  {
    if p == [] then t else At(Child(t, p[0]), p[1..])
  }

  /** Overwriting the node `p` points to. */
  function Put(t: Tree, p: Path, x: Tree): Tree
    requires Has(t, p)
  {
    if p == [] then x else WithChild(t, p[0], Put(Child(t, p[0]), p[1..], x))
  }

  /** The first chunk of the node, counted from the first chunk of `t`. */
  function Off(t: Tree, p: Path): nat
    requires Has(t, p)
  {
    if p == [] then 0 else (if p[0] then Size(t.left) else 0) + Off(Child(t, p[0]), p[1..])
  }

  function Parent(p: Path): Path
    requires p != []
  {
    p[..|p| - 1]
  }

  function Last(p: Path): bool
    requires p != []
  {
    p[|p| - 1]
  }

  /** `__get_buddy` */
  function Sibling(p: Path): Path
    requires p != []
  {
    Parent(p) + [!Last(p)]
  }

  predicate Prefix(p: Path, q: Path) { |p| <= |q| && q[..|p|] == p }

  predicate Apart(p: Path, q: Path) { !Prefix(p, q) && !Prefix(q, p) }

  predicate BlockAt(t: Tree, p: Path) { Has(t, p) && At(t, p).Block?() }
  predicate FreeBlockAt(t: Tree, p: Path) { Has(t, p) && At(t, p).Free? }
  predicate UsedBlockAt(t: Tree, p: Path) { Has(t, p) && At(t, p).Allocated? }
  predicate HasParent(t: Tree, p: Path) { p != [] && Has(t, Parent(p)) && At(t, Parent(p)).Split? }

  // ---------- Reading and writing through pointers ----------

  lemma {:induction false} SizeOfBlock(t: Tree)
    requires WF(t) && t.Block?()
    ensures Size(t) == Pow2(t.order)
  {
    if t.Split? { SizeOfBlock(t.left); SizeOfBlock(t.right); }
  }

  lemma {:induction false} AppendPath(t: Tree, p: Path, q: Path)
    requires Has(t, p)
    ensures Has(t, p + q) <==> Has(At(t, p), q)
    ensures Has(t, p + q) ==> At(t, p + q) == At(At(t, p), q) && Off(t, p + q) == Off(t, p) + Off(At(t, p), q)
  {
    if p == [] {
      assert p + q == q;
    } else {
      assert (p + q)[1..] == p[1..] + q;
      AppendPath(Child(t, p[0]), p[1..], q);
    }
  }

  lemma {:induction false} PrefixHas(t: Tree, p: Path, q: Path)
    requires Has(t, q) && Prefix(p, q)
    ensures Has(t, p)
  {
    if p != [] {
      assert Prefix(p[1..], q[1..]) by { assert q[1..][..|p| - 1] == q[..|p|][1..]; }
      PrefixHas(Child(t, p[0]), p[1..], q[1..]);
    }
  }

  lemma {:induction false} PutAt(t: Tree, p: Path, x: Tree)
    requires Has(t, p)
    ensures Has(Put(t, p, x), p) && At(Put(t, p, x), p) == x
  {
    if p != [] { PutAt(Child(t, p[0]), p[1..], x); }
  }

  lemma {:induction false} PutPut(t: Tree, p: Path, x: Tree, y: Tree)
    requires Has(t, p)
    ensures Has(Put(t, p, x), p)
    ensures Put(Put(t, p, x), p, y) == Put(t, p, y)
    ensures Put(t, p, At(t, p)) == t
  {
    if p != [] { PutPut(Child(t, p[0]), p[1..], x, y); }
  }

  lemma {:induction false} PutBelow(t: Tree, p: Path, q: Path, x: Tree)
    requires Has(t, p + q) && Has(t, p)
    ensures Has(At(t, p), q)
    ensures Put(t, p + q, x) == Put(t, p, Put(At(t, p), q, x))
  {
    if p == [] {
      assert p + q == q;
    } else {
      assert (p + q)[1..] == p[1..] + q;
      PutBelow(Child(t, p[0]), p[1..], q, x);
    }
  }

  /** A write is invisible through a pointer to somewhere else. */
  lemma {:induction false} PutApart(t: Tree, p: Path, x: Tree, q: Path)
    requires Has(t, p) && Apart(p, q)
    ensures Has(Put(t, p, x), q) <==> Has(t, q)
    ensures Has(t, q) ==> At(Put(t, p, x), q) == At(t, q)
  {
    if p != [] && q != [] && p[0] == q[0] {
      ApartTail(p, q);
      PutApart(Child(t, p[0]), p[1..], x, q[1..]);
    }
  }

  lemma PrefixCons(p: Path, q: Path)
    requires p != [] && q != [] && p[0] == q[0]
    ensures Prefix(p[1..], q[1..]) <==> Prefix(p, q)
  {
    if |p| <= |q| {
      assert q[1..][..|p| - 1] == q[..|p|][1..];
      assert q[..|p|] == [q[0]] + q[..|p|][1..];
      assert p == [p[0]] + p[1..];
    }
  }

  lemma ApartTail(p: Path, q: Path)
    requires Apart(p, q) && p[0] == q[0]
    ensures Apart(p[1..], q[1..])
  {
    PrefixCons(p, q);
    PrefixCons(q, p);
  }

  lemma {:induction false} PutKeeps(t: Tree, p: Path, x: Tree)
    requires WF(t) && WF(x) && BlockAt(t, p) && x.Block?() && x.order == At(t, p).order
    ensures WF(Put(t, p, x)) && SameRoots(t, Put(t, p, x)) && Size(Put(t, p, x)) == Size(t)
  {
    if p != [] {
      PutKeeps(Child(t, p[0]), p[1..], x);
      SameRootsSelf(t);
    } else {
      SizeOfBlock(t);
      SizeOfBlock(x);
    }
  }

  lemma {:induction false} SameRootsSelf(t: Tree)
    ensures SameRoots(t, t)
  {
    if t.Roots? { SameRootsSelf(t.left); SameRootsSelf(t.right); }
  }

  lemma {:induction false} SameRootsTrans(t: Tree, u: Tree, v: Tree)
    requires SameRoots(t, u) && SameRoots(u, v)
    ensures SameRoots(t, v) && SameRoots(u, t)
  {
    if t.Roots? {
      SameRootsTrans(t.left, u.left, v.left);
      SameRootsTrans(t.right, u.right, v.right);
    }
  }

  lemma {:induction false} SameRootsSize(t: Tree, u: Tree)
    requires SameRoots(t, u) && WF(t) && WF(u)
    ensures Size(t) == Size(u)
  {
    if t.Roots? {
      SameRootsSize(t.left, u.left);
      SameRootsSize(t.right, u.right);
    } else if !t.End? {
      SizeOfBlock(t);
      SizeOfBlock(u);
    }
  }

  /** A block keeps its offset and order for as long as it exists. */
  lemma {:induction false} OffStable(t: Tree, u: Tree, p: Path)
    requires SameRoots(t, u) && WF(t) && WF(u) && Has(t, p) && Has(u, p)
    ensures Off(t, p) == Off(u, p) && SameRoots(At(t, p), At(u, p))
  {
    if p != [] {
      SameRootsSize(t.left, u.left);
      OffStable(Child(t, p[0]), Child(u, p[0]), p[1..]);
    }
  }

  lemma {:induction false} WFAt(t: Tree, p: Path)
    requires WF(t) && Has(t, p)
    ensures WF(At(t, p)) && Off(t, p) + Size(At(t, p)) <= Size(t)
  {
    if p != [] { WFAt(Child(t, p[0]), p[1..]); }
  }

  /** Blocks neither of which lies inside the other occupy disjoint chunks. */
  lemma {:induction false} ApartDisjoint(t: Tree, p: Path, q: Path)
    requires WF(t) && Has(t, p) && Has(t, q) && Apart(p, q)
    ensures Off(t, p) + Size(At(t, p)) <= Off(t, q) || Off(t, q) + Size(At(t, q)) <= Off(t, p)
  {
    if p[0] == q[0] {
      ApartTail(p, q);
      ApartDisjoint(Child(t, p[0]), p[1..], q[1..]);
    } else if p[0] {
      WFAt(t.left, q[1..]);
    } else {
      WFAt(t.left, p[1..]);
    }
  }

  lemma {:induction false} LeavesApart(t: Tree, p: Path, q: Path)
    requires Has(t, p) && Has(t, q) && p != q && !At(t, p).Inner?() && !At(t, q).Inner?()
    ensures Apart(p, q)
  {
    if Prefix(p, q) {
      assert q == p + q[|p|..];
      AppendPath(t, p, q[|p|..]);
    }
    if Prefix(q, p) {
      assert p == q + p[|q|..];
      AppendPath(t, q, p[|q|..]);
    }
  }

  // ---------- Parents, buddies and natural alignment ----------

  lemma ParentFacts(t: Tree, p: Path)
    requires Has(t, p) && p != []
    ensures Has(t, Parent(p)) && At(t, Parent(p)).Inner?()
    ensures At(t, p) == Child(At(t, Parent(p)), Last(p))
    ensures Has(t, Sibling(p)) && At(t, Sibling(p)) == Child(At(t, Parent(p)), !Last(p))
    ensures Apart(p, Sibling(p))
    ensures Off(t, p) == Off(t, Parent(p)) + (if Last(p) then Size(At(t, Parent(p)).left) else 0)
    ensures Off(t, Sibling(p)) == Off(t, Parent(p)) + (if Last(p) then 0 else Size(At(t, Parent(p)).left))
  {
    var a := Parent(p);
    assert p == a + [Last(p)];
    PrefixHas(t, a, p);
    AppendPath(t, a, [Last(p)]);
    OneStep(At(t, a), Last(p));
    OneStep(At(t, a), !Last(p));
    AppendPath(t, a, [!Last(p)]);
    assert p[|p| - 1] != Sibling(p)[|p| - 1];
  }

  lemma OneStep(t: Tree, b: bool)
    ensures Has(t, [b]) <==> t.Inner?()
    ensures t.Inner?() ==> At(t, [b]) == Child(t, b) && Off(t, [b]) == (if b then Size(t.left) else 0)
  {
    assert [b][1..] == [];
  }

  predicate Aligned(t: Tree, base: nat) {
    match t
    case Roots(l, r) => Aligned(l, base) && Aligned(r, base + Size(l))
    case End => true
    case _ => Multiple(base, Pow2(t.order))
  }

  lemma HalvesAligned(base: nat, order: nat)
    requires order > 0 && Multiple(base, Pow2(order))
    ensures Multiple(base, Pow2(order - 1)) && Multiple(base + Pow2(order - 1), Pow2(order - 1))
  {
    MultipleOfSmaller(base, order - 1, order);
    MultipleIs(1, Pow2(order - 1));
    MultipleSum(base, Pow2(order - 1), Pow2(order - 1));
  }

  /** Falling root orders alone make every root naturally aligned. */
  lemma {:induction false} RootsAligned(t: Tree, base: nat)
    requires WF(t) && (t.Roots? || t.End?)
    requires t.Roots? ==> Multiple(base, Pow2(t.left.order))
    ensures Aligned(t, base)
  {
    if t.Roots? && t.right.Roots? {
      SizeOfBlock(t.left);
      var o := t.right.left.order;
      MultipleIs(1, Pow2(t.left.order));
      MultipleSum(base, Size(t.left), Pow2(t.left.order));
      MultipleOfSmaller(base + Size(t.left), o, t.left.order);
      RootsAligned(t.right, base + Size(t.left));
    }
  }

  /** Every block of the tree starts at a multiple of its own size. */
  lemma {:induction false} NaturalAlignment(t: Tree, base: nat, p: Path)
    requires WF(t) && Aligned(t, base) && BlockAt(t, p)
    ensures Multiple(base + Off(t, p), Pow2(At(t, p).order))
  {
    if p != [] {
      if t.Split? {
        HalvesAligned(base, t.order);
        SizeOfBlock(t.left);
      }
      NaturalAlignment(Child(t, p[0]), base + (if p[0] then Size(t.left) else 0), p[1..]);
    }
  }
}
