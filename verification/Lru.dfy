/**
  The LRU lists of a `ttm_resource_manager`, one for each priority: the resources and the cursors ("hitches")
  on them, and the ranges that bulk moves keep of them.
 */
module Lru {
  import opened Common

  /** A `ttm_resource`, with the priority of the buffer object it belongs to. */
  datatype Resource = Resource(id: nat, priority: nat)

  type Cursor = nat
  type Bulk = nat

  datatype Item = Res(res: Resource) | Hitch(cursor: Cursor)

  /** `ttm_lru_bulk_move_pos` */
  datatype Range = Empty | Range(first: Resource, last: Resource)

  // ---------- Lists ----------

  /** Where an item is. */
  ghost function Pos(s: seq<Item>, x: Item): (i: nat)
    requires x in s
    ensures i < |s| && s[i] == x
  {
    var i :| 0 <= i < |s| && s[i] == x;
    i
  }

  /** `list_del` */
  ghost function Without(s: seq<Item>, x: Item): seq<Item>
    requires x in s
  {
    s[..Pos(s, x)] + s[Pos(s, x) + 1..]
  }

  ghost function PutAt(s: seq<Item>, i: nat, x: Item): seq<Item>
    requires i <= |s|
  {
    s[..i] + [x] + s[i..]
  }

  lemma PosIs(s: seq<Item>, i: nat)
    requires NoDup(s) && i < |s|
    ensures Pos(s, s[i]) == i
  {
    assert Pair(i, Pos(s, s[i])) || Pair(Pos(s, s[i]), i) || i == Pos(s, s[i]);
  }

  lemma SamePos(s: seq<Item>, x: Item, y: Item)
    ensures x in s && y in s && Pos(s, x) == Pos(s, y) ==> x == y
  {}

  lemma WithoutPos(s: seq<Item>, x: Item)
    requires NoDup(s) && x in s
    ensures var r := Without(s, x);
            NoDup(r) && (forall a :: a in r <==> a in s && a != x) && |r| == |s| - 1 &&
            (forall a | a in r :: Pos(r, a) == if Pos(s, a) < Pos(s, x) then Pos(s, a) else Pos(s, a) - 1)
  {
    var p, r := Pos(s, x), Without(s, x);
    forall i | 0 <= i < |r| ensures r[i] == s[if i < p then i else i + 1] {}
    forall i, j | 0 <= i < j < |r| && Pair(i, j) ensures r[i] != r[j] {
      assert Pair(if i < p then i else i + 1, if j < p then j else j + 1);
    }
    forall i | 0 <= i < |r| ensures r[i] != x && r[i] in s {
      assert Pair(i, p) || Pair(p, i + 1);
    }
    forall a | a in s && a != x ensures a in r {
      assert r[if Pos(s, a) < p then Pos(s, a) else Pos(s, a) - 1] == a;
    }
    forall a | a in r ensures Pos(r, a) == if Pos(s, a) < p then Pos(s, a) else Pos(s, a) - 1 {
      PosIs(r, if Pos(s, a) < p then Pos(s, a) else Pos(s, a) - 1);
    }
  }

  lemma PutAtPos(s: seq<Item>, i: nat, x: Item)
    requires NoDup(s) && x !in s && i <= |s|
    ensures var r := PutAt(s, i, x);
            NoDup(r) && (forall a :: a in r <==> a in s || a == x) && Pos(r, x) == i &&
            (forall a | a in s :: Pos(r, a) == if Pos(s, a) < i then Pos(s, a) else Pos(s, a) + 1)
  {
    var r := PutAt(s, i, x);
    forall k | 0 <= k < |r| ensures r[k] == if k < i then s[k] else if k == i then x else s[k - 1] {}
    forall k, l | 0 <= k < l < |r| && Pair(k, l) ensures r[k] != r[l] {
      assert k != i && l != i ==> Pair(if k < i then k else k - 1, if l < i then l else l - 1);
    }
    PosIs(r, i);
    forall a | a in s ensures a in r && Pos(r, a) == if Pos(s, a) < i then Pos(s, a) else Pos(s, a) + 1 {
      assert r[if Pos(s, a) < i then Pos(s, a) else Pos(s, a) + 1] == a;
      PosIs(r, if Pos(s, a) < i then Pos(s, a) else Pos(s, a) + 1);
    }
  }

  lemma PutPos(s: seq<Item>, i: nat, x: Item, a: Item)
    requires NoDup(s) && x !in s && i <= |s| && a in s
    ensures var r := PutAt(s, i, x); a in r && Pos(r, a) == if Pos(s, a) < i then Pos(s, a) else Pos(s, a) + 1
  {
    PutAtPos(s, i, x);
  }

  /** Where an item is moved to: `list_move` to the list head, `list_move_tail`, `list_move` behind an item. */
  datatype Place = Front | Back | Behind(item: Item)

  ghost function Rest(s: seq<Item>, x: Item): seq<Item> { if x in s then Without(s, x) else s }

  /** `x` is taken off the list, if it is on it, and put in its new place. */
  ghost function Move(s: seq<Item>, x: Item, to: Place): seq<Item>
    requires to.Behind? ==> to.item in Rest(s, x)
  {
    PutAt(Rest(s, x), PlaceIn(Rest(s, x), to), x)
  }

  /** What a move does to the order of the list. */
  ghost predicate Moved(s: seq<Item>, t: seq<Item>, x: Item, to: Place) {
    NoDup(t) && (to.Behind? ==> to.item in s && to.item != x) && (forall a :: a in t <==> a in s || a == x) &&
    (forall a, b | a in s && b in s && a != x && b != x :: Pos(t, a) < Pos(t, b) <==> Pos(s, a) < Pos(s, b)) &&
    (forall a | a in s && a != x ::
       Pos(t, a) < Pos(t, x) <==> to.Back? || (to.Behind? && Pos(s, a) <= Pos(s, to.item)))
  }

  ghost function PlaceIn(r: seq<Item>, to: Place): (i: nat)
    requires to.Behind? ==> to.item in r
    ensures i <= |r|
  {
    if to.Front? then 0 else if to.Back? then |r| else Pos(r, to.item) + 1
  }

  lemma RestPos(s: seq<Item>, x: Item, a: Item)
    requires NoDup(s) && a in s && a != x
    ensures a in Rest(s, x) && Pos(Rest(s, x), a) == if x in s &&
            Pos(s, x) < Pos(s, a) then Pos(s, a) - 1 else Pos(s, a)
  {
    if x in s { WithoutPos(s, x); }
  }

  lemma RestOk(s: seq<Item>, x: Item)
    requires NoDup(s)
    ensures NoDup(Rest(s, x)) && forall a :: a in Rest(s, x) <==> a in s && a != x
  {
    if x in s { WithoutPos(s, x); }
  }

  lemma MoveLaw(s: seq<Item>, x: Item, to: Place)
    requires NoDup(s) && (to.Behind? ==> to.item in s && to.item != x)
    ensures (to.Behind? ==> to.item in Rest(s, x)) && Moved(s, Move(s, x, to), x, to)
  {
    RestOk(s, x);
    var r, t := Rest(s, x), Move(s, x, to);
    var i := PlaceIn(r, to);
    PutAtPos(r, i, x);
    forall a, b | a in s && b in s && a != x && b != x ensures Pos(t, a) < Pos(t, b) <==> Pos(s, a) < Pos(s, b) {
      MoveOrder(s, x, to, a, b);
    }
    forall a | a in s && a != x
      ensures Pos(t, a) < Pos(t, x) <==> to.Back? || (to.Behind? && Pos(s, a) <= Pos(s, to.item))
    {
      MovePlace(s, x, to, a);
    }
  }

  lemma MoveOrder(s: seq<Item>, x: Item, to: Place, a: Item, b: Item)
    requires NoDup(s) && (to.Behind? ==> to.item in s && to.item != x) && a in s && b in s && a != x && b != x
    requires to.Behind? ==> to.item in Rest(s, x)
    ensures var t := Move(s, x, to); a in t && b in t && (Pos(t, a) < Pos(t, b) <==> Pos(s, a) < Pos(s, b))
  {
    RestOk(s, x);
    RestPos(s, x, a);
    RestPos(s, x, b);
    PutPos(Rest(s, x), PlaceIn(Rest(s, x), to), x, a);
    PutPos(Rest(s, x), PlaceIn(Rest(s, x), to), x, b);
  }

  lemma MovePlace(s: seq<Item>, x: Item, to: Place, a: Item)
    requires NoDup(s) && (to.Behind? ==> to.item in s && to.item != x) && a in s && a != x
    requires to.Behind? ==> to.item in Rest(s, x)
    ensures var t := Move(s, x, to);
            a in t && x in t && (Pos(t, a) < Pos(t, x) <==> to.Back? || (to.Behind? && Pos(s, a) <= Pos(s, to.item)))
  {
    RestOk(s, x);
    PlaceOf(s, x, to, a);
    PutAtPos(Rest(s, x), PlaceIn(Rest(s, x), to), x);
  }

  lemma PlaceOf(s: seq<Item>, x: Item, to: Place, a: Item)
    requires NoDup(s) && (to.Behind? ==> to.item in s && to.item != x) && a in s && a != x
    requires to.Behind? ==> to.item in Rest(s, x)
    ensures a in Rest(s, x)
    ensures Pos(Rest(s, x), a) < PlaceIn(Rest(s, x), to) <==> to.Back? || (to.Behind? && Pos(s, a) <= Pos(s, to.item))
  {
    RestPos(s, x, a);
    if to.Behind? {
      RestPos(s, x, to.item);
      SamePos(s, a, x);
      SamePos(s, to.item, x);
    }
  }

  // ---------- Ranges ----------

  /**
    The resources of bulk move `b` are those from the first to the last of its range, and a cursor strictly
    inside the range is attached to `b`.
   */
  ghost predicate RangeOk(s: seq<Item>, b: Bulk, range: Range, member: map<Resource, Bulk>, attached: map<Cursor, Bulk>)
  {
    match range
    case Empty => forall r | r in member :: member[r] != b
    case Range(f, l) =>
      Res(f) in s && Res(l) in s && Pos(s, Res(f)) <= Pos(s, Res(l)) &&
      (forall r | r in member && member[r] == b :: Res(r) in s) &&
      (forall r | Res(r) in s ::
         r in member && member[r] == b <==> Pos(s, Res(f)) <= Pos(s, Res(r)) <= Pos(s, Res(l))) &&
      (forall c | Hitch(c) in s && Pos(s, Res(f)) < Pos(s, Hitch(c)) < Pos(s, Res(l)) ::
       c in attached && attached[c] == b)
  }

  ghost predicate RangesOk(s: seq<Item>, ranges: map<Bulk, Range>, member: map<Resource, Bulk>,
                           attached: map<Cursor, Bulk>)
  {
    NoDup(s) && (forall b | b in ranges :: RangeOk(s, b, ranges[b], member, attached)) &&
    (forall r | r in member :: member[r] in ranges && Res(r) in s) &&
    (forall c | c in attached :: attached[c] in ranges && Hitch(c) in s)
  }

  /** A resource that belongs to no bulk move, or a cursor, goes to either end of the list. */
  lemma EndMove(s: seq<Item>, t: seq<Item>, x: Item, to: Place, b: Bulk, range: Range, member: map<Resource, Bulk>,
                attached: map<Cursor, Bulk>)
    requires RangeOk(s, b, range, member, attached) && NoDup(s) && Moved(s, t, x, to) && !to.Behind?
    requires x.Res? ==> x.res !in member
    ensures RangeOk(t, b, range, member, attached)
  {}

  /** A cursor goes behind a resource that it is attached to the bulk move of, if that has one. */
  lemma CursorMove(s: seq<Item>, t: seq<Item>, c: Cursor, r: Resource, b: Bulk, range: Range,
                   member: map<Resource, Bulk>,
                   attached: map<Cursor, Bulk>, attached': map<Cursor, Bulk>)
    requires RangeOk(s, b, range, member, attached) && NoDup(s) && Res(r) in s && Moved(s, t, Hitch(c), Behind(Res(r)))
    requires forall d | d != c :: d in attached <==> d in attached'
    requires forall d | d in attached && d != c :: attached'[d] == attached[d]
    requires r in member ==> c in attached' && attached'[c] == member[r]
    ensures RangeOk(t, b, range, member, attached')
  {}

  /** A resource of the range, or a new one, goes behind the last one of the range and becomes the last one. */
  lemma TailMove(s: seq<Item>, t: seq<Item>, r: Resource, b: Bulk, range: Range, range': Range,
                 member: map<Resource, Bulk>, attached: map<Cursor, Bulk>)
    requires RangeOk(s, b, range, member, attached) && NoDup(s) && range.Range? && range.last != r
    requires Moved(s, t, Res(r), Behind(Res(range.last))) && range'.Range? && range'.last == r
    requires r in member ==> member[r] == b
    requires if range.first == r then Res(range'.first) in s && Successor(s, r, range'.first)
             else range'.first == range.first
    ensures RangeOk(t, b, range', member[r := b], attached)
  {}

  /** `n` is the next resource behind `r`. */
  ghost predicate Successor(s: seq<Item>, r: Resource, n: Resource) {
    Res(r) in s && Res(n) in s && Pos(s, Res(r)) < Pos(s, Res(n)) &&
    forall q | Res(q) in s :: Pos(s, Res(q)) <= Pos(s, Res(r)) || Pos(s, Res(n)) <= Pos(s, Res(q))
  }

  /** Other ranges do not notice. */
  lemma OtherMove(s: seq<Item>, t: seq<Item>, r: Resource, l: Resource, b: Bulk, range: Range,
                  member: map<Resource, Bulk>, member': map<Resource, Bulk>, attached: map<Cursor, Bulk>)
    requires RangeOk(s, b, range, member, attached) && NoDup(s) && Res(l) in s && Moved(s, t, Res(r), Behind(Res(l)))
    requires r in member ==> member[r] != b
    requires l in member ==> member[l] != b
    requires r in member' ==> member'[r] != b
    requires forall q | q != r :: (q in member <==> q in member') && (q in member ==> member'[q] == member[q])
    ensures RangeOk(t, b, range, member', attached)
  {
    hide NoDup;
  }

  /** `p` is the resource before `r`. */
  ghost predicate Predecessor(s: seq<Item>, r: Resource, p: Resource) { Successor(s, p, r) }

  /** The first or the last resource of a range leaves it where it is. */
  lemma EdgeLeaves(s: seq<Item>, r: Resource, b: Bulk, range: Range, range': Range, member: map<Resource, Bulk>,
                   attached: map<Cursor, Bulk>)
    requires RangeOk(s, b, range, member, attached) && NoDup(s) && r in member && member[r] == b && range.Range?
    requires
      if range.first == r == range.last then range' == Empty
      else if range.first == r then range'.Range? && range'.last == range.last && Successor(s, r, range'.first)
      else range.last == r && range'.Range? && range'.first == range.first && Predecessor(s, r, range'.last)
    ensures RangeOk(s, b, range', member - {r}, attached)
  {
    if range.first == r == range.last {
      forall q | q in member - {r} ensures member[q] != b { SamePos(s, Res(q), Res(r)); }
    }
  }

  /** A resource inside a range leaves it and goes behind it. */
  lemma MiddleLeaves(s: seq<Item>, t: seq<Item>, r: Resource, b: Bulk, range: Range, member: map<Resource, Bulk>,
                     attached: map<Cursor, Bulk>)
    requires RangeOk(s, b, range, member, attached) && NoDup(s) && r in member && member[r] == b && range.Range?
    requires r != range.first && r != range.last && Moved(s, t, Res(r), Behind(Res(range.last)))
    ensures RangeOk(t, b, range, member - {r}, attached)
  {}

  lemma OtherLeaves(s: seq<Item>, r: Resource, b: Bulk, range: Range, member: map<Resource, Bulk>,
                    attached: map<Cursor, Bulk>)
    requires RangeOk(s, b, range, member, attached) && r in member && member[r] != b
    ensures RangeOk(s, b, range, member - {r}, attached)
  {}

  /** The order of a list from which `x` has been removed. */
  ghost predicate Removed(s: seq<Item>, t: seq<Item>, x: Item) {
    NoDup(t) && (forall a :: a in t <==> a in s && a != x) &&
    (forall a, b | a in t && b in t :: Pos(t, a) < Pos(t, b) <==> Pos(s, a) < Pos(s, b))
  }

  lemma RemoveLaw(s: seq<Item>, x: Item)
    requires NoDup(s)
    ensures Removed(s, Rest(s, x), x)
  {
    RestOk(s, x);
    forall a, b | a in Rest(s, x) && b in Rest(s, x)
      ensures Pos(Rest(s, x), a) < Pos(Rest(s, x), b) <==> Pos(s, a) < Pos(s, b)
    {
      RemoveOrder(s, x, a, b);
    }
  }

  lemma RemoveOrder(s: seq<Item>, x: Item, a: Item, b: Item)
    requires NoDup(s) && a in s && b in s && a != x && b != x
    ensures a in Rest(s, x) && b in Rest(s, x) && (Pos(Rest(s, x), a) < Pos(Rest(s, x), b) <==> Pos(s, a) < Pos(s, b))
  {
    RestPos(s, x, a);
    RestPos(s, x, b);
  }

  lemma CursorLeaves(s: seq<Item>, t: seq<Item>, c: Cursor, b: Bulk, range: Range, member: map<Resource, Bulk>,
                     attached: map<Cursor, Bulk>)
    requires RangeOk(s, b, range, member, attached) && NoDup(s) && Removed(s, t, Hitch(c))
    ensures RangeOk(t, b, range, member, attached - {c})
  {}

  lemma MoveKeeps(s: seq<Item>, x: Item, to: Place)
    requires NoDup(s) && (to.Behind? ==> to.item in s && to.item != x)
    ensures (to.Behind? ==> to.item in Rest(s, x)) && NoDup(Move(s, x, to)) &&
            forall a :: a in Move(s, x, to) <==> a in s || a == x
  {
    MoveLaw(s, x, to);
  }

  lemma TailOne(s: seq<Item>, b: Bulk, range: Range, member: map<Resource, Bulk>, attached: map<Cursor, Bulk>,
                r: Resource, first: Resource)
    requires NoDup(s) && RangeOk(s, b, range, member, attached) && range.Range? && range.last != r &&
             (r in member ==> member[r] == b)
    requires if range.first == r then Successor(s, r, first) else first == range.first
    ensures Res(range.last) in Rest(s, Res(r))
    ensures RangeOk(Move(s, Res(r), Behind(Res(range.last))), b, Range(first, r), member[r := b], attached)
  {
    MoveLaw(s, Res(r), Behind(Res(range.last)));
    TailMove(s, Move(s, Res(r), Behind(Res(range.last))), r, b, range, Range(first, r), member, attached);
  }

  lemma OtherOne(s: seq<Item>, d: Bulk, range: Range, member: map<Resource, Bulk>, attached: map<Cursor, Bulk>,
                 r: Resource, l: Resource, b: Bulk)
    requires NoDup(s) && RangeOk(s, d, range, member, attached) && b != d && Res(l) in s && l != r && l in member &&
             member[l] == b
    requires r in member ==> member[r] == b
    ensures Res(l) in Rest(s, Res(r)) && RangeOk(Move(s, Res(r), Behind(Res(l))), d, range, member[r := b], attached)
  {
    MoveLaw(s, Res(r), Behind(Res(l)));
    OtherMove(s, Move(s, Res(r), Behind(Res(l))), r, l, d, range, member, member[r := b], attached);
  }

  lemma TailAll(s: seq<Item>, ranges: map<Bulk, Range>, member: map<Resource, Bulk>, attached: map<Cursor, Bulk>,
                b: Bulk, r: Resource, first: Resource)
    requires RangesOk(s, ranges, member, attached) && b in ranges && ranges[b].Range? && ranges[b].last != r &&
             (r in member ==> member[r] == b)
    requires if ranges[b].first == r then Successor(s, r, first) else first == ranges[b].first
    ensures Res(ranges[b].last) in Rest(s, Res(r))
    ensures RangesOk(Move(s, Res(r), Behind(Res(ranges[b].last))), ranges[b := Range(first, r)], member[r := b],
                     attached)
  {
    var l := ranges[b].last;
    LastIsMember(s, ranges, member, attached, b);
    MoveKeeps(s, Res(r), Behind(Res(l)));
    var t, rs, m := Move(s, Res(r), Behind(Res(l))), ranges[b := Range(first, r)], member[r := b];
    forall d | d in rs ensures RangeOk(t, d, rs[d], m, attached) {
      if d == b {
        TailOne(s, b, ranges[b], member, attached, r, first);
      } else {
        OtherOne(s, d, ranges[d], member, attached, r, l, b);
      }
    }
  }

  lemma LastIsMember(s: seq<Item>, ranges: map<Bulk, Range>, member: map<Resource, Bulk>, attached: map<Cursor, Bulk>,
                     b: Bulk)
    requires RangesOk(s, ranges, member, attached) && b in ranges && ranges[b].Range?
    ensures Res(ranges[b].last) in s && ranges[b].last in member && member[ranges[b].last] == b
    ensures Res(ranges[b].first) in s && ranges[b].first in member && member[ranges[b].first] == b
  {
    assert RangeOk(s, b, ranges[b], member, attached);
  }

  lemma AddFirst(s: seq<Item>, ranges: map<Bulk, Range>, member: map<Resource, Bulk>, attached: map<Cursor, Bulk>,
                 b: Bulk, r: Resource)
    requires RangesOk(s, ranges, member, attached) && b in ranges && ranges[b].Empty? && r !in member && Res(r) in s
    ensures RangesOk(s, ranges[b := Range(r, r)], member[r := b], attached)
  {
    var m := member[r := b];
    forall d | d in ranges ensures RangeOk(s, d, ranges[b := Range(r, r)][d], m, attached) {
      assert RangeOk(s, d, ranges[d], member, attached);
      if d == b {
        forall q | Res(q) in s && Pos(s, Res(q)) == Pos(s, Res(r))
          ensures q == r
        {
          assert s[Pos(s, Res(q))] == Res(q);
        }
      }
    }
  }

  /** What becomes of the range of `b` when `r` leaves it. */
  ghost predicate Shrinks(s: seq<Item>, r: Resource, range: Range, range': Range) {
    range.Range? &&
    if range.first == r == range.last then range' == Empty
    else if range.first == r then range'.Range? && range'.last == range.last && Successor(s, r, range'.first)
    else if range.last == r then range'.Range? && range'.first == range.first && Predecessor(s, r, range'.last)
    else range' == range
  }

  lemma EdgeAll(s: seq<Item>, ranges: map<Bulk, Range>, member: map<Resource, Bulk>, attached: map<Cursor, Bulk>,
                b: Bulk, r: Resource, range': Range)
    requires RangesOk(s, ranges, member, attached) && b in ranges && r in member && member[r] == b
    requires Shrinks(s, r, ranges[b], range') && (ranges[b].first == r || ranges[b].last == r)
    ensures RangesOk(s, ranges[b := range'], member - {r}, attached)
  {
    var rs, m := ranges[b := range'], member - {r};
    forall d | d in rs ensures RangeOk(s, d, rs[d], m, attached) {
      EdgeOne(s, d, ranges[d], member, attached, b, r, if d == b then range' else ranges[d]);
    }
  }

  lemma EdgeOne(s: seq<Item>, d: Bulk, range: Range, member: map<Resource, Bulk>, attached: map<Cursor, Bulk>, b: Bulk,
                r: Resource, range': Range)
    requires NoDup(s) && RangeOk(s, d, range, member, attached) && r in member && member[r] == b
    requires if d == b then Shrinks(s, r, range, range') && (range.first == r || range.last == r) else range' == range
    ensures RangeOk(s, d, range', member - {r}, attached)
  {
    if d == b {
      EdgeLeaves(s, r, b, range, range', member, attached);
    } else {
      OtherLeaves(s, r, d, range, member, attached);
    }
  }

  lemma MiddleAll(s: seq<Item>, ranges: map<Bulk, Range>, member: map<Resource, Bulk>, attached: map<Cursor, Bulk>,
                  b: Bulk, r: Resource)
    requires RangesOk(s, ranges, member, attached) && b in ranges && r in member && member[r] == b
    requires ranges[b].Range? && r != ranges[b].first && r != ranges[b].last
    ensures Res(ranges[b].last) in Rest(s, Res(r))
    ensures RangesOk(Move(s, Res(r), Behind(Res(ranges[b].last))), ranges, member - {r}, attached)
  {
    var l := ranges[b].last;
    LastIsMember(s, ranges, member, attached, b);
    MoveKeeps(s, Res(r), Behind(Res(l)));
    forall d | d in ranges ensures RangeOk(Move(s, Res(r), Behind(Res(l))), d, ranges[d], member - {r}, attached) {
      MiddleOne(s, d, ranges[d], member, attached, r, l, b);
    }
  }

  lemma MiddleOne(s: seq<Item>, d: Bulk, range: Range, member: map<Resource, Bulk>, attached: map<Cursor, Bulk>,
                  r: Resource, l: Resource, b: Bulk)
    requires NoDup(s) && RangeOk(s, d, range, member, attached) && Res(l) in s && l != r && l in member &&
             member[l] == b && r in member && member[r] == b
    requires d == b ==> range.Range? && range.last == l && r != range.first
    ensures Res(l) in Rest(s, Res(r)) && RangeOk(Move(s, Res(r), Behind(Res(l))), d, range, member - {r}, attached)
  {
    MoveLaw(s, Res(r), Behind(Res(l)));
    var t := Move(s, Res(r), Behind(Res(l)));
    if d == b {
      MiddleLeaves(s, t, r, b, range, member, attached);
    } else {
      OtherMove(s, t, r, l, d, range, member, member - {r}, attached);
    }
  }

  /** A cursor goes behind resource `r`, attached to its bulk move if it has one. */
  lemma CursorAll(s: seq<Item>, ranges: map<Bulk, Range>, member: map<Resource, Bulk>, attached: map<Cursor, Bulk>,
                  c: Cursor, r: Resource, attached': map<Cursor, Bulk>)
    requires RangesOk(s, ranges, member, attached) && Res(r) in s
    requires attached' == if r in member then attached[c := member[r]] else attached - {c}
    ensures RangesOk(Move(s, Hitch(c), Behind(Res(r))), ranges, member, attached')
  {
    MoveKeeps(s, Hitch(c), Behind(Res(r)));
    forall d | d in ranges ensures RangeOk(Move(s, Hitch(c), Behind(Res(r))), d, ranges[d], member, attached') {
      CursorOne(s, d, ranges[d], member, attached, c, r, attached');
    }
  }

  lemma CursorOne(s: seq<Item>, d: Bulk, range: Range, member: map<Resource, Bulk>, attached: map<Cursor, Bulk>,
                  c: Cursor, r: Resource, attached': map<Cursor, Bulk>)
    requires NoDup(s) && RangeOk(s, d, range, member, attached) && Res(r) in s
    requires attached' == if r in member then attached[c := member[r]] else attached - {c}
    ensures RangeOk(Move(s, Hitch(c), Behind(Res(r))), d, range, member, attached')
  {
    MoveLaw(s, Hitch(c), Behind(Res(r)));
    CursorMove(s, Move(s, Hitch(c), Behind(Res(r))), c, r, d, range, member, attached, attached');
  }

  lemma EndAll(s: seq<Item>, ranges: map<Bulk, Range>, member: map<Resource, Bulk>, attached: map<Cursor, Bulk>,
               x: Item, to: Place)
    requires RangesOk(s, ranges, member, attached) && !to.Behind? && (x.Res? ==> x.res !in member)
    ensures RangesOk(Move(s, x, to), ranges, member, attached)
  {
    MoveKeeps(s, x, to);
    forall d | d in ranges ensures RangeOk(Move(s, x, to), d, ranges[d], member, attached) {
      MoveLaw(s, x, to);
      EndMove(s, Move(s, x, to), x, to, d, ranges[d], member, attached);
    }
  }

  lemma LeaveAll(s: seq<Item>, ranges: map<Bulk, Range>, member: map<Resource, Bulk>, attached: map<Cursor, Bulk>,
                 c: Cursor)
    requires RangesOk(s, ranges, member, attached)
    ensures RangesOk(Rest(s, Hitch(c)), ranges, member, attached - {c})
  {
    RestOk(s, Hitch(c));
    forall d | d in ranges ensures RangeOk(Rest(s, Hitch(c)), d, ranges[d], member, attached - {c}) {
      RemoveLaw(s, Hitch(c));
      CursorLeaves(s, Rest(s, Hitch(c)), c, d, ranges[d], member, attached);
    }
  }

  lemma HasRange(s: seq<Item>, ranges: map<Bulk, Range>, member: map<Resource, Bulk>, attached: map<Cursor, Bulk>,
                 r: Resource)
    requires RangesOk(s, ranges, member, attached) && r in member
    ensures Res(r) in s && member[r] in ranges && ranges[member[r]].Range?
    ensures var range := ranges[member[r]];
            Res(range.first) in s && Res(range.last) in s &&
            Pos(s, Res(range.first)) <= Pos(s, Res(r)) <= Pos(s, Res(range.last)) &&
            (range.first != r ==> Pos(s, Res(range.first)) < Pos(s, Res(r))) &&
            (range.last != r ==> Pos(s, Res(r)) < Pos(s, Res(range.last)))
  {
    var b := member[r];
    assert RangeOk(s, b, ranges[b], member, attached);
    SamePos(s, Res(ranges[b].first), Res(r));
    SamePos(s, Res(ranges[b].last), Res(r));
  }

  // ---------- Moving a whole range ----------

  /** `list_bulk_move_tail`: the items from `i` to `j` go to the end of the list. */
  function Segment(s: seq<Item>, i: nat, j: nat): seq<Item>
    requires i <= j < |s|
  {
    s[..i] + s[j + 1..] + s[i..j + 1]
  }

  lemma SegmentPos(s: seq<Item>, i: nat, j: nat)
    requires NoDup(s) && i <= j < |s|
    ensures var t := Segment(s, i, j);
            NoDup(t) && (forall a :: a in t <==> a in s) &&
            (forall a | a in s ::
               Pos(t, a) == if Pos(s, a) < i then Pos(s, a) else if Pos(s, a) <= j then Pos(s, a) + |s| - 1 - j
               else Pos(s, a) - (j + 1 - i))
  {
    var t := Segment(s, i, j);
    var m := |s| - (j + 1 - i);
    forall k | 0 <= k < |t|
      ensures t[k] == s[if k < i then k else if k < m then k + (j + 1 - i) else k - (|s| - 1 - j)]
    {}
    forall k, l | 0 <= k < l < |t| && Pair(k, l) ensures t[k] != t[l] {
      var k', l' := if k < i then k else if k < m then k + (j + 1 - i) else k - (|s| - 1 - j),
                    if l < i then l else if l < m then l + (j + 1 - i) else l - (|s| - 1 - j);
      assert Pair(k', l') || Pair(l', k');
    }
    forall a | a in s
      ensures a in t &&
              Pos(t, a) == if Pos(s, a) < i then Pos(s, a) else if Pos(s, a) <= j then Pos(s, a) + |s| - 1 - j
              else Pos(s, a) - (j + 1 - i)
    {
      var p := Pos(s, a);
      var k := if p < i then p else if p <= j then p + |s| - 1 - j else p - (j + 1 - i);
      assert t[k] == a;
      PosIs(t, k);
    }
  }

  /** Without a cursor inside the range, moving it moves the resources of `b` and nothing else. */
  lemma SegmentOne(s: seq<Item>, d: Bulk, range: Range, b: Bulk, moved: Range, member: map<Resource, Bulk>,
                   attached: map<Cursor, Bulk>)
    requires NoDup(s) && RangeOk(s, d, range, member, attached) && RangeOk(s, b, moved, member, attached) &&
             moved.Range? && (d == b ==> range == moved)
    requires forall c | c in attached :: attached[c] != b
    ensures RangeOk(Segment(s, Pos(s, Res(moved.first)), Pos(s, Res(moved.last))), d, range, member, attached)
  {
    SegmentPos(s, Pos(s, Res(moved.first)), Pos(s, Res(moved.last)));
  }

  lemma SegmentAll(s: seq<Item>, ranges: map<Bulk, Range>, member: map<Resource, Bulk>, attached: map<Cursor, Bulk>,
                   b: Bulk)
    requires RangesOk(s, ranges, member, attached) && b in ranges && ranges[b].Range? &&
             forall c | c in attached :: attached[c] != b
    ensures Res(ranges[b].first) in s && Res(ranges[b].last) in s &&
            Pos(s, Res(ranges[b].first)) <= Pos(s, Res(ranges[b].last))
    ensures RangesOk(Segment(s, Pos(s, Res(ranges[b].first)), Pos(s, Res(ranges[b].last))), ranges, member, attached)
  {
    assert RangeOk(s, b, ranges[b], member, attached);
    SegmentPos(s, Pos(s, Res(ranges[b].first)), Pos(s, Res(ranges[b].last)));
    forall d | d in ranges
      ensures RangeOk(Segment(s, Pos(s, Res(ranges[b].first)), Pos(s, Res(ranges[b].last))), d, ranges[d], member,
                      attached)
    {
      SegmentOne(s, d, ranges[d], b, ranges[b], member, attached);
    }
  }

  predicate Mine(x: Item, b: Bulk, member: map<Resource, Bulk>) { x.Res? && x.res in member && member[x.res] == b }

  predicate Follows(x: Item, b: Bulk, attached: map<Cursor, Bulk>) {
    x.Hitch? && x.cursor in attached && attached[x.cursor] == b
  }

  /** Everything but the cursors of `b` keeps its order, only that the resources of `b` come last. */
  ghost predicate SentBack(s: seq<Item>, t: seq<Item>, b: Bulk, member: map<Resource, Bulk>,
                           attached: map<Cursor, Bulk>)
  {
    (forall x :: x in t <==> x in s) &&
    (forall x, y | x in s && y in s && Mine(x, b, member) && !Mine(y, b, member) :: Pos(t, y) < Pos(t, x)) &&
    (forall x, y | x in s && y in s && Mine(x, b, member) == Mine(y, b, member) && !Follows(x, b, attached) &&
     !Follows(y, b, attached) ::
       Pos(t, x) < Pos(t, y) <==> Pos(s, x) < Pos(s, y))
  }

  lemma PinAll(s: seq<Item>, ranges: map<Bulk, Range>, member: map<Resource, Bulk>, attached: map<Cursor, Bulk>,
               r: Resource)
    requires RangesOk(s, ranges, member, attached) && r !in member
    ensures RangesOk(Rest(s, Res(r)), ranges, member, attached)
  {
    RestOk(s, Res(r));
    RemoveLaw(s, Res(r));
    forall d | d in ranges ensures RangeOk(Rest(s, Res(r)), d, ranges[d], member, attached) {
      PinOne(s, Rest(s, Res(r)), r, d, ranges[d], member, attached);
    }
  }

  lemma PinOne(s: seq<Item>, t: seq<Item>, r: Resource, b: Bulk, range: Range, member: map<Resource, Bulk>,
               attached: map<Cursor, Bulk>)
    requires RangeOk(s, b, range, member, attached) && NoDup(s) && Removed(s, t, Res(r)) && r !in member
    ensures RangeOk(t, b, range, member, attached)
  {}

  /** A cursor of `b` goes behind the range and is detached. */
  lemma BehindRange(s: seq<Item>, ranges: map<Bulk, Range>, member: map<Resource, Bulk>, attached: map<Cursor, Bulk>,
                    b: Bulk, c: Cursor)
    requires RangesOk(s, ranges, member, attached) && b in ranges && ranges[b].Range? && c in attached &&
             Res(ranges[b].last) in s
    ensures RangesOk(Move(s, Hitch(c), Behind(Res(ranges[b].last))), ranges, member, attached - {c})
  {
    var l := ranges[b].last;
    LastIsMember(s, ranges, member, attached, b);
    MoveKeeps(s, Hitch(c), Behind(Res(l)));
    forall d | d in ranges ensures RangeOk(Move(s, Hitch(c), Behind(Res(l))), d, ranges[d], member, attached - {c}) {
      BehindOne(s, d, ranges[d], member, attached, c, l, b);
    }
  }

  lemma BehindOne(s: seq<Item>, d: Bulk, range: Range, member: map<Resource, Bulk>, attached: map<Cursor, Bulk>,
                  c: Cursor, l: Resource, b: Bulk)
    requires NoDup(s) && RangeOk(s, d, range, member, attached) && Res(l) in s && l in member && member[l] == b
    requires d == b ==> range.Range? && range.last == l
    ensures RangeOk(Move(s, Hitch(c), Behind(Res(l))), d, range, member, attached - {c})
  {
    MoveLaw(s, Hitch(c), Behind(Res(l)));
  }

  lemma DetachEmpty(s: seq<Item>, ranges: map<Bulk, Range>, member: map<Resource, Bulk>, attached: map<Cursor, Bulk>,
                    b: Bulk, c: Cursor)
    requires RangesOk(s, ranges, member, attached) && b in ranges && ranges[b].Empty? && c in attached &&
             attached[c] == b
    ensures RangesOk(s, ranges, member, attached - {c})
  {
    forall d | d in ranges ensures RangeOk(s, d, ranges[d], member, attached - {c}) {
      assert RangeOk(s, d, ranges[d], member, attached);
    }
  }

  lemma SegmentSent(s: seq<Item>, ranges: map<Bulk, Range>, member: map<Resource, Bulk>, attached: map<Cursor, Bulk>,
                    b: Bulk)
    requires RangesOk(s, ranges, member, attached) && b in ranges && ranges[b].Range? &&
             forall c | c in attached :: attached[c] != b
    requires Res(ranges[b].first) in s && Res(ranges[b].last) in s &&
             Pos(s, Res(ranges[b].first)) <= Pos(s, Res(ranges[b].last))
    ensures SentBack(s, Segment(s, Pos(s, Res(ranges[b].first)), Pos(s, Res(ranges[b].last))), b, member, attached)
  {
    var i, j := Pos(s, Res(ranges[b].first)), Pos(s, Res(ranges[b].last));
    assert RangeOk(s, b, ranges[b], member, attached);
    SegmentPos(s, i, j);
    forall x | x in s ensures Mine(x, b, member) <==> i <= Pos(s, x) <= j {
      SamePos(s, x, Res(ranges[b].first));
      SamePos(s, x, Res(ranges[b].last));
    }
  }

  /** Only cursors of `b` have moved. */
  ghost predicate Adjusted(s: seq<Item>, t: seq<Item>, b: Bulk, attached: map<Cursor, Bulk>) {
    (forall x :: x in t <==> x in s) &&
    (forall x, y | x in s && y in s && !Follows(x, b, attached) && !Follows(y, b, attached) ::
     Pos(t, x) < Pos(t, y) <==> Pos(s, x) < Pos(s, y))
  }

  lemma SentTrans(s: seq<Item>, t: seq<Item>, u: seq<Item>, b: Bulk, member: map<Resource, Bulk>,
                  attached: map<Cursor, Bulk>, attached': map<Cursor, Bulk>)
    requires Adjusted(s, t, b, attached) && SentBack(t, u, b, member, attached') &&
             forall c | c in attached' :: attached'[c] != b
    ensures SentBack(s, u, b, member, attached)
  {}

  lemma NothingSent(s: seq<Item>, ranges: map<Bulk, Range>, member: map<Resource, Bulk>, attached: map<Cursor, Bulk>,
                    b: Bulk)
    requires RangesOk(s, ranges, member, attached) && b in ranges && ranges[b].Empty?
    ensures SentBack(s, s, b, member, attached)
  {
    assert RangeOk(s, b, ranges[b], member, attached);
  }

  /** Everything but `x` is where it was, relative to everything else. */
  ghost predicate MovedOnly(s: seq<Item>, t: seq<Item>, x: Item) {
    (forall a | a != x :: a in t <==> a in s) &&
    (forall a, b | a in s && b in s && a != x && b != x :: Pos(t, a) < Pos(t, b) <==> Pos(s, a) < Pos(s, b))
  }

  lemma MoveOnly(s: seq<Item>, x: Item, to: Place)
    requires NoDup(s) && (to.Behind? ==> to.item in s && to.item != x)
    ensures (to.Behind? ==> to.item in Rest(s, x)) && MovedOnly(s, Move(s, x, to), x) && x in Move(s, x, to)
  {
    MoveLaw(s, x, to);
  }

  lemma AdjustedMore(s: seq<Item>, t: seq<Item>, u: seq<Item>, b: Bulk, attached: map<Cursor, Bulk>, c: Cursor)
    requires Adjusted(s, t, b, attached) && MovedOnly(t, u, Hitch(c)) && Follows(Hitch(c), b, attached) &&
             Hitch(c) in t && Hitch(c) in u
    ensures Adjusted(s, u, b, attached)
  {}

  /** `r` is the last resource of its range, or the last item of the list if it has none. */
  ghost predicate Trails(s: seq<Item>, ranges: map<Bulk, Range>, member: map<Resource, Bulk>, r: Resource) {
    if r in member then member[r] in ranges && ranges[member[r]].Range? && ranges[member[r]].last == r
    else s != [] && s[|s| - 1] == Res(r)
  }

  /** `r` is the first resource behind `x`, if there is one. */
  ghost predicate Search(s: seq<Item>, x: Item, found: bool, r: Resource)
    requires x in s
  {
    (found ==> Res(r) in s && Pos(s, x) < Pos(s, Res(r))) &&
    forall q | Res(q) in s && Pos(s, x) < Pos(s, Res(q)) :: found && Pos(s, Res(r)) <= Pos(s, Res(q))
  }

  ghost predicate AtHead(s: seq<Item>, x: Item) { x in s && forall a | a in s && a != x :: Pos(s, x) < Pos(s, a) }

  /** The cursor is right behind the resource. */
  ghost predicate Directly(s: seq<Item>, r: Resource, c: Cursor) {
    Res(r) in s && Hitch(c) in s && Pos(s, Res(r)) < Pos(s, Hitch(c)) &&
    forall a | a in s :: Pos(s, a) <= Pos(s, Res(r)) || Pos(s, Hitch(c)) <= Pos(s, a)
  }

  /** The cursor `c` of `b` is, among what does not follow `b`, where resource `l` was, or right behind it. */
  ghost predicate BehindEnd(s: seq<Item>, t: seq<Item>, b: Bulk, l: Resource, attached: map<Cursor, Bulk>, c: Cursor) {
    Res(l) in s && Hitch(c) in t &&
    forall y | y in s && !Follows(y, b, attached) ::
      y in t && (Pos(t, y) < Pos(t, Hitch(c)) <==> Pos(s, y) <= Pos(s, Res(l)))
  }

  /** The same, once the resources of `b` are at the end of the list. */
  ghost predicate LeftBehind(s: seq<Item>, t: seq<Item>, b: Bulk, l: Resource, member: map<Resource, Bulk>,
                             attached: map<Cursor, Bulk>, c: Cursor)
  {
    Res(l) in s && Hitch(c) in t &&
    forall y | y in s && !Follows(y, b, attached) ::
      y in t && (Pos(t, y) < Pos(t, Hitch(c)) <==> !Mine(y, b, member) && Pos(s, y) < Pos(s, Res(l)))
  }

  /** The cursor goes there. */
  lemma EndReached(s: seq<Item>, t: seq<Item>, u: seq<Item>, b: Bulk, l: Resource, attached: map<Cursor, Bulk>,
                   c: Cursor)
    requires Adjusted(s, t, b, attached) && Res(l) in s && Moved(t, u, Hitch(c), Behind(Res(l)))
    requires Follows(Hitch(c), b, attached)
    ensures BehindEnd(s, u, b, l, attached, c)
  {
    forall y | y in s && !Follows(y, b, attached)
      ensures Pos(u, y) < Pos(u, Hitch(c)) <==> Pos(s, y) <= Pos(s, Res(l))
    {
      assert !Follows(Res(l), b, attached);
      assert Pos(t, Res(l)) < Pos(t, y) <==> Pos(s, Res(l)) < Pos(s, y);
    }
  }

  /** It stays there when another cursor moves. */
  lemma EndStays(s: seq<Item>, t: seq<Item>, u: seq<Item>, b: Bulk, l: Resource, attached: map<Cursor, Bulk>,
                 c: Cursor, d: Cursor)
    requires Adjusted(s, t, b, attached) && BehindEnd(s, t, b, l, attached, c) && MovedOnly(t, u, Hitch(d)) && c != d
    requires Follows(Hitch(d), b, attached)
    ensures BehindEnd(s, u, b, l, attached, c)
  {
    forall y | y in s && !Follows(y, b, attached)
      ensures Pos(u, y) < Pos(u, Hitch(c)) <==> Pos(s, y) <= Pos(s, Res(l))
    {
      assert y in t && y != Hitch(d);
    }
  }

  /** It stays there when the range is sent to the end of the list. */
  lemma EndSent(s: seq<Item>, t: seq<Item>, u: seq<Item>, b: Bulk, l: Resource, member: map<Resource, Bulk>,
                attached: map<Cursor, Bulk>, attached': map<Cursor, Bulk>, c: Cursor)
    requires Adjusted(s, t, b, attached) && SentBack(t, u, b, member, attached') && BehindEnd(s, t, b, l, attached, c)
    requires (forall d | d in attached' :: attached'[d] != b) && l in member && member[l] == b && NoDup(s)
    ensures LeftBehind(s, u, b, l, member, attached, c)
  {
    forall y | y in s && !Follows(y, b, attached)
      ensures Pos(u, y) < Pos(u, Hitch(c)) <==> !Mine(y, b, member) && Pos(s, y) < Pos(s, Res(l))
    {
      assert y in t && Hitch(c) in t && !Mine(Hitch(c), b, member);
      if !Mine(y, b, member) {
        assert Pos(u, y) < Pos(u, Hitch(c)) <==> Pos(t, y) < Pos(t, Hitch(c));
        SamePos(s, y, Res(l));
      }
    }
  }

  lemma MoveDirectly(s: seq<Item>, c: Cursor, r: Resource)
    requires NoDup(s) && Res(r) in s
    ensures Res(r) in Rest(s, Hitch(c)) && Directly(Move(s, Hitch(c), Behind(Res(r))), r, c)
  {
    MoveLaw(s, Hitch(c), Behind(Res(r)));
  }

  /** One of the lists. */
  class List {
    var items: seq<Item>
    var ranges: map<Bulk, Range>
    var member: map<Resource, Bulk>
    var attached: map<Cursor, Bulk>

    ghost predicate Valid()
      reads this
    {
      RangesOk(items, ranges, member, attached)
    }

    /** An empty list, with bulk moves that have no resources yet. */
    constructor (bulks: set<Bulk>)
      ensures Valid() && items == [] && member == map[] && attached == map[] && ranges.Keys == bulks
    {
      items, member, attached := [], map[], map[];
      ranges := map b | b in bulks :: Empty;
    }

    /** Where an item of the list is. */
    method Find(x: Item) returns (i: nat)
      requires NoDup(items) && x in items
      ensures i == Pos(items, x)
    {
      i := 0;
      while items[i] != x
        invariant 0 <= i <= Pos(items, x)
        decreases |items| - i
      {
        i := i + 1;
      }
      PosIs(items, i);
    }

    /** `list_del`, for an item that may be on the list */
    method Unlink(x: Item)
      requires NoDup(items)
      modifies this`items
      ensures items == Rest(old(items), x)
    {
      if x in items {
        var i := Find(x);
        items := items[..i] + items[i + 1..];
      }
    }

    /** `list_move`, `list_move_tail` */
    method Relink(x: Item, to: Place)
      requires NoDup(items) && (to.Behind? ==> to.item in items && to.item != x)
      modifies this`items
      ensures (to.Behind? ==> to.item in Rest(old(items), x)) && items == Move(old(items), x, to)
    {
      RestOk(items, x);
      Unlink(x);
      var i := 0;
      if to.Back? {
        i := |items|;
      } else if to.Behind? {
        i := Find(to.item);
        i := i + 1;
      }
      items := items[..i] + [x] + items[i..];
    }

    /** `ttm_lru_next_res` */
    method NextResource(r: Resource) returns (n: Resource)
      requires Valid() && Res(r) in items && exists q :: Res(q) in items && Pos(items, Res(r)) < Pos(items, Res(q))
      ensures Successor(items, r, n)
    {
      ghost var q :| Res(q) in items && Pos(items, Res(r)) < Pos(items, Res(q));
      var i := Find(Res(r));
      i := i + 1;
      while items[i].Hitch?
        invariant Pos(items, Res(r)) < i <= Pos(items, Res(q))
        invariant forall k | Pos(items, Res(r)) < k < i :: items[k].Hitch?
        decreases |items| - i
      {
        i := i + 1;
      }
      n := items[i].res;
      PosIs(items, i);
    }

    /** `ttm_lru_prev_res` */
    method PreviousResource(r: Resource) returns (p: Resource)
      requires Valid() && Res(r) in items && exists q :: Res(q) in items && Pos(items, Res(q)) < Pos(items, Res(r))
      ensures Predecessor(items, r, p)
    {
      ghost var q :| Res(q) in items && Pos(items, Res(q)) < Pos(items, Res(r));
      var i := Find(Res(r));
      i := i - 1;
      while items[i].Hitch?
        invariant Pos(items, Res(q)) <= i < Pos(items, Res(r))
        invariant forall k | i < k < Pos(items, Res(r)) :: items[k].Hitch?
        decreases i
      {
        i := i - 1;
      }
      p := items[i].res;
      PosIs(items, i);
    }

    /** `r` goes behind the last resource of the range of `b`, which now starts with `first`. */
    method ShiftTail(b: Bulk, r: Resource, first: Resource)
      requires Valid() && b in ranges && ranges[b].Range? && ranges[b].last != r && (r in member ==> member[r] == b)
      requires if ranges[b].first == r then Successor(items, r, first) else first == ranges[b].first
      modifies this`items, this`ranges, this`member
      ensures Valid() && member == old(member)[r := b] && ranges == old(ranges)[b := Range(first, r)]
      ensures MovedOnly(old(items), items, Res(r))
      ensures Moved(old(items), items, Res(r), Behind(Res(old(ranges)[b].last)))
    {
      ghost var s, l := items, ranges[b].last;
      LastIsMember(items, ranges, member, attached, b);
      TailAll(items, ranges, member, attached, b, r, first);
      Relink(Res(r), Behind(Res(ranges[b].last)));
      ranges := ranges[b := Range(first, r)];
      member := member[r := b];
      assert Valid();
      assert Moved(s, items, Res(r), Behind(Res(l))) by { MoveLaw(s, Res(r), Behind(Res(l))); }
    }

    /** `ttm_lru_bulk_move_pos_tail`: `r` becomes the last resource of the range of `b`. */
    method RangeTail(b: Bulk, r: Resource)
      requires Valid() && b in ranges && ranges[b].Range? && (r in member ==> member[r] == b)
      modifies this`items, this`ranges, this`member
      ensures Valid() && member == old(member)[r := b] && ranges[b].Range? && ranges[b].last == r
      ensures MovedOnly(old(items), items, Res(r)) && ranges == old(ranges)[b := ranges[b]]
      ensures if old(ranges[b].last) == r then items == old(items)
              else Moved(old(items), items, Res(r), Behind(Res(old(ranges[b].last))))
    {
      LastIsMember(items, ranges, member, attached, b);
      if ranges[b].last != r {
        var first := ranges[b].first;
        if first == r {
          HasRange(items, ranges, member, attached, r);
          first := NextResource(r);
        }
        ShiftTail(b, r, first);
      }
    }

    /** `ttm_lru_bulk_move_add` for a resource that is on this list, or will be. */
    method Add(b: Bulk, r: Resource)
      requires Valid() && b in ranges && r !in member && (ranges[b].Empty? ==> Res(r) in items)
      modifies this`items, this`ranges, this`member
      ensures Valid() && member == old(member)[r := b] && ranges[b].Range? && ranges[b].last == r
      ensures MovedOnly(old(items), items, Res(r)) && ranges == old(ranges)[b := ranges[b]]
    {
      if ranges[b].Empty? {
        AddFirst(items, ranges, member, attached, b, r);
        ranges := ranges[b := Range(r, r)];
        member := member[r := b];
      } else {
        RangeTail(b, r);
      }
    }

    /** The range of `r` without `r`, which is the first or the last of it. */
    method Shrunk(r: Resource) returns (range: Range)
      requires Valid() && r in member && member[r] in ranges && ranges[member[r]].Range?
      requires ranges[member[r]].first == r || ranges[member[r]].last == r
      ensures Shrinks(items, r, ranges[member[r]], range)
    {
      range := ranges[member[r]];
      HasRange(items, ranges, member, attached, r);
      if range.first == r && range.last == r {
        range := Empty;
      } else if range.first == r {
        var n := NextResource(r);
        range := Range(n, range.last);
      } else {
        var p := PreviousResource(r);
        range := Range(range.first, p);
      }
    }

    /** `ttm_lru_bulk_move_del` */
    method Delete(r: Resource)
      requires Valid() && r in member
      modifies this`items, this`ranges, this`member
      ensures Valid() && member == old(member) - {r} && MovedOnly(old(items), items, Res(r)) &&
              ranges.Keys == old(ranges.Keys)
      ensures old(member[r]) in old(ranges) && old(ranges[member[r]].Range?)
      ensures if old(ranges[member[r]].first == r || ranges[member[r]].last == r) then items == old(items)
              else Moved(old(items), items, Res(r), Behind(Res(old(ranges[member[r]].last))))
    {
      assert member[r] in ranges && ranges[member[r]].Range? by { HasRange(items, ranges, member, attached, r); }
      if ranges[member[r]].first == r || ranges[member[r]].last == r {
        var left := Shrunk(r);
        EdgeAll(items, ranges, member, attached, member[r], r, left);
        ranges := ranges[member[r] := left];
        member := member - {r};
      } else {
        DeleteInner(r);
      }
    }

    /** A resource inside its range goes behind it. */
    method DeleteInner(r: Resource)
      requires Valid() && r in member && member[r] in ranges && ranges[member[r]].Range?
      requires ranges[member[r]].first != r && ranges[member[r]].last != r
      modifies this`items, this`member
      ensures Valid() && member == old(member) - {r} && MovedOnly(old(items), items, Res(r))
      ensures Moved(old(items), items, Res(r), Behind(Res(ranges[old(member[r])].last)))
    {
      assert NoDup(items);
      hide RangesOk;
      hide Moved;
      hide MovedOnly;
      hide NoDup;
      hide Move;
      ghost var l := ranges[member[r]].last;
      MiddleAll(items, ranges, member, attached, member[r], r);
      LastIsMember(items, ranges, member, attached, member[r]);
      Relink(Res(r), Behind(Res(ranges[member[r]].last)));
      member := member - {r};
      assert Valid();
      MoveLaw(old(items), Res(r), Behind(Res(l)));
      MoveOnly(old(items), Res(r), Behind(Res(l)));
    }

    /** `ttm_resource_move_to_lru_tail` for a resource that can be evicted: to the end of its range, or of the list. */
    method MoveToTail(r: Resource)
      requires Valid()
      modifies this`items, this`ranges, this`member
      ensures Valid() && member == old(member) && MovedOnly(old(items), items, Res(r)) && Res(r) in items &&
              ranges.Keys == old(ranges.Keys)
      ensures Trails(items, ranges, member, r)
    {
      if r in member {
        HasRange(items, ranges, member, attached, r);
        RangeTail(member[r], r);
        assert member == old(member);
      } else {
        EndAll(items, ranges, member, attached, Res(r), Back);
        Relink(Res(r), Back);
        assert Valid();
        MoveOnly(old(items), Res(r), Back);
      }
    }

    /** The first resource behind position `i`. */
    method NextFrom(i: nat) returns (found: bool, r: Resource)
      requires NoDup(items) && i < |items|
      ensures found ==> Res(r) in items && i < Pos(items, Res(r))
      ensures forall q | Res(q) in items && i < Pos(items, Res(q)) :: found && Pos(items, Res(r)) <= Pos(items, Res(q))
    {
      var k := i + 1;
      while k < |items| && items[k].Hitch?
        invariant i < k <= |items| && forall j | i < j < k :: items[j].Hitch?
      {
        k := k + 1;
      }
      found, r := k < |items|, Resource(0, 0);
      if found {
        r := items[k].res;
        PosIs(items, k);
      }
    }

    /**
      The search of `ttm_resource_manager_next` on one list: the cursor goes behind the next resource, if there is one.
     */
    method Advance(c: Cursor) returns (found: bool, r: Resource)
      requires Valid() && Hitch(c) in items
      modifies this`items, this`attached
      ensures Valid() && MovedOnly(old(items), items, Hitch(c)) && Hitch(c) in items
      ensures Search(old(items), Hitch(c), found, r) && (found ==> Directly(items, r, c))
      ensures attached == if !found then old(attached) else if r in member then old(attached)[c := member[r]]
              else old(attached) - {c}
      ensures !found ==> items == old(items)
    {
      var i := Find(Hitch(c));
      found, r := NextFrom(i);
      if found { Follow(c, r); }
    }

    /**
      `ttm_resource_cursor_check_bulk` and `list_move`: the cursor goes behind `r` and is attached to its bulk move, if
      it has one.
     */
    method Follow(c: Cursor, r: Resource)
      requires Valid() && Res(r) in items
      modifies this`items, this`attached
      ensures Valid() && MovedOnly(old(items), items, Hitch(c)) && Hitch(c) in items && Directly(items, r, c)
      ensures attached == if r in member then old(attached)[c := member[r]] else old(attached) - {c}
    {
      CursorAll(items, ranges, member, attached, c, r, if r in member then attached[c := member[r]]
                else attached - {c});
      MoveDirectly(items, c, r);
      Relink(Hitch(c), Behind(Res(r)));
      attached := if r in member then attached[c := member[r]] else attached - {c};
      assert Valid();
      MoveOnly(old(items), Hitch(c), Behind(Res(r)));
    }

    /** `list_move` of a cursor to the head of this list. */
    method Enter(c: Cursor)
      requires Valid()
      modifies this`items
      ensures Valid() && MovedOnly(old(items), items, Hitch(c)) && AtHead(items, Hitch(c))
    {
      EndAll(items, ranges, member, attached, Hitch(c), Front);
      Relink(Hitch(c), Front);
      assert Valid();
      MoveLaw(old(items), Hitch(c), Front);
    }

    /** `list_del_init` of a cursor, and `ttm_resource_cursor_clear_bulk` */
    method Leave(c: Cursor)
      requires Valid()
      modifies this`items, this`attached
      ensures Valid() && Hitch(c) !in items && c !in attached && MovedOnly(old(items), items, Hitch(c))
    {
      LeaveAll(items, ranges, member, attached, c);
      RemoveLaw(items, Hitch(c));
      RestOk(items, Hitch(c));
      Unlink(Hitch(c));
      attached := attached - {c};
    }

    /** A pinned resource leaves its bulk move and goes to the list of those that cannot be evicted. */
    method Pin(r: Resource)
      requires Valid()
      modifies this`items, this`ranges, this`member
      ensures Valid() && Res(r) !in items && r !in member && MovedOnly(old(items), items, Res(r)) &&
              ranges.Keys == old(ranges.Keys)
    {
      if r in member { Delete(r); }
      ghost var s := items;
      PinAll(items, ranges, member, attached, r);
      Unlink(Res(r));
      assert Valid();
      RemoveLaw(s, Res(r));
    }

    method GoBehind(b: Bulk, c: Cursor)
      requires Valid() && b in ranges && ranges[b].Range? && c in attached && attached[c] == b
      modifies this`items, this`attached
      ensures Valid() && attached == old(attached) - {c}
      ensures Moved(old(items), items, Hitch(c), Behind(Res(ranges[b].last)))
    {
      ghost var l := ranges[b].last;
      LastIsMember(items, ranges, member, attached, b);
      BehindRange(items, ranges, member, attached, b, c);
      Relink(Hitch(c), Behind(Res(ranges[b].last)));
      attached := attached - {c};
      assert Valid();
      assert Moved(old(items), items, Hitch(c), Behind(Res(l))) by { MoveLaw(old(items), Hitch(c), Behind(Res(l))); }
    }

    /** `ttm_resource_cursor_move_bulk_tail`: the cursor goes right behind the range, if that is not empty. */
    method MoveBulkTail(b: Bulk, c: Cursor)
      requires Valid() && b in ranges && c in attached && attached[c] == b
      modifies this`items, this`attached
      ensures Valid() && attached == old(attached) - {c} && |attached| < |old(attached)| && Hitch(c) in items
      ensures if ranges[b].Empty? then items == old(items)
              else Moved(old(items), items, Hitch(c), Behind(Res(ranges[b].last)))
    {
      if ranges[b].Range? {
        GoBehind(b, c);
      } else {
        DetachEmpty(items, ranges, member, attached, b, c);
        attached := attached - {c};
      }
    }

    /** The range of `b`, which has no cursor inside, goes to the end of the list. */
    method SendBack(b: Bulk)
      requires Valid() && b in ranges && ranges[b].Range? && forall c | c in attached :: attached[c] != b
      modifies this`items
      ensures Valid() && SentBack(old(items), items, b, member, attached)
    {
      SegmentAll(items, ranges, member, attached, b);
      SegmentSent(items, ranges, member, attached, b);
      var i := Find(Res(ranges[b].first));
      var j := Find(Res(ranges[b].last));
      items := Segment(items, i, j);
    }

    /** The range of `b`, if it has resources on this list, goes to the end of it. */
    method BulkTail(b: Bulk)
      requires Valid() && b in ranges && forall c | c in attached :: attached[c] != b
      modifies this`items
      ensures Valid() && SentBack(old(items), items, b, member, attached)
      ensures ranges[b].Empty? ==> items == old(items)
    {
      if ranges[b].Range? {
        SendBack(b);
      } else {
        NothingSent(items, ranges, member, attached, b);
      }
    }
  }
}
