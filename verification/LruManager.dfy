/**
  A `ttm_resource_manager`: its LRU lists, the cursors that go over all of them in order of priority, and
  bulk moves, which keep a range of each list.
 */
module LruManager {
  import opened Common
  import opened Lru

  /** The resources behind item `x` of list `p`, on that list or on a later one. */
  ghost predicate Ahead(ls: seq<seq<Item>>, p: nat, x: Item, r: Resource) {
    r.priority < |ls| && Res(r) in ls[r.priority] &&
    (p < r.priority || (p == r.priority && x in ls[p] && Pos(ls[p], x) < Pos(ls[p], Res(r))))
  }

  /** A cursor going over the lists comes to `r` before `q`, or they are the same. */
  ghost predicate Sooner(ls: seq<seq<Item>>, r: Resource, q: Resource)
    requires r.priority < |ls| && Res(r) in ls[r.priority] && q.priority < |ls| && Res(q) in ls[q.priority]
  {
    r.priority < q.priority || (r.priority == q.priority && Pos(ls[r.priority], Res(r)) <= Pos(ls[q.priority], Res(q)))
  }

  /** On every list, everything but `x` is where it was, relative to everything else. */
  ghost predicate OnlyMoved(ls: seq<seq<Item>>, ms: seq<seq<Item>>, x: Item) {
    |ls| == |ms| && forall p {:trigger Nth(p)} | 0 <= p < |ls| && Nth(p) :: MovedOnly(ls[p], ms[p], x)
  }

  /** Names a list whose order a proof asks for. */
  predicate Nth(p: int) { 0 <= p }

  lemma OnlyMovedTrans(ls: seq<seq<Item>>, ms: seq<seq<Item>>, ns: seq<seq<Item>>, x: Item)
    requires OnlyMoved(ls, ms, x) && OnlyMoved(ms, ns, x)
    ensures OnlyMoved(ls, ns, x)
  {
    forall p | 0 <= p < |ls| && Nth(p) ensures MovedOnly(ls[p], ns[p], x) {
      assert MovedOnly(ls[p], ms[p], x) && MovedOnly(ms[p], ns[p], x);
    }
  }

  /** Nothing is ahead on lists up to `p`. */
  ghost predicate NoneUpTo(ls: seq<seq<Item>>, from: nat, x: Item, p: nat) {
    forall q | Ahead(ls, from, x, q) :: p < q.priority
  }

  /** `r` is what a cursor at `x` on list `from` comes to next, if there is anything. */
  ghost predicate Answer(ls: seq<seq<Item>>, from: nat, x: Item, found: bool, r: Resource) {
    (found ==> Ahead(ls, from, x, r)) && forall q | Ahead(ls, from, x, q) :: found && Sooner(ls, r, q)
  }

  /** The search of list `p`, with nothing ahead on the lists before it. */
  lemma ListAnswer(ls: seq<seq<Item>>, from: nat, x: Item, p: nat, s: seq<Item>, found: bool, r: Resource)
    requires from <= p < |ls| && x.Hitch? && x in s && Search(s, x, found, r) &&
             forall q | Res(q) in ls[p] :: q.priority == p
    requires if from == p then s == ls[p] else MovedOnly(ls[p], s, x) && AtHead(s, x)
    requires forall q | Ahead(ls, from, x, q) :: p <= q.priority
    ensures if found then Answer(ls, from, x, true, r) else NoneUpTo(ls, from, x, p)
  {
    if found {
      assert Res(r) in ls[p];
      assert Ahead(ls, from, x, r);
      forall q | Ahead(ls, from, x, q) ensures Sooner(ls, r, q) {
        assert q.priority == p ==> Res(q) in s;
      }
    } else {
      forall q | Ahead(ls, from, x, q) ensures p < q.priority {
        assert q.priority == p ==> Res(q) in s;
      }
    }
  }

  /** What there is on a list. */
  datatype View = View(items: seq<Item>, ranges: map<Bulk, Range>, member: map<Resource, Bulk>,
                       attached: map<Cursor, Bulk>)

  /** The list, of `n`, on which a cursor of priority `p` is, if it is on one. */
  function Home(n: nat, p: nat): nat
    requires n > 0
  {
    if p < n then p else n - 1
  }

  /** Whether `x` may be on list `p` of `n`: a cursor past the last list stays on that. */
  predicate Belongs(x: Item, n: nat, p: nat, priority: map<Cursor, nat>)
    requires n > 0
  {
    if x.Res? then x.res.priority == p else x.cursor in priority && Home(n, priority[x.cursor]) == p
  }

  ghost predicate ListOk(v: View, n: nat, p: nat, bulks: set<Bulk>, priority: map<Cursor, nat>)
    requires n > 0
  {
    RangesOk(v.items, v.ranges, v.member, v.attached) && v.ranges.Keys == bulks &&
    forall x | x in v.items :: Belongs(x, n, p, priority)
  }

  ghost predicate AllOk(vs: seq<View>, bulks: set<Bulk>, priority: map<Cursor, nat>) {
    vs != [] && (forall c | c in priority :: priority[c] <= |vs|) &&
    forall p {:trigger Listed(vs, p)} | 0 <= p < |vs| && Listed(vs, p) :: ListOk(vs[p], |vs|, p, bulks, priority)
  }

  /** Names a list whose state a proof asks for. */
  predicate Listed(vs: seq<View>, p: nat) { p < |vs| }

  function ItemsOf(vs: seq<View>): (ls: seq<seq<Item>>)
    ensures |ls| == |vs| && forall p | 0 <= p < |vs| :: ls[p] == vs[p].items
  {
    seq(|vs|, p requires 0 <= p < |vs| => vs[p].items)
  }

  /** Only list `p` has changed, in which only `x` has moved. */
  lemma Changed(vs: seq<View>, p: nat, v: View, x: Item, bulks: set<Bulk>, priority: map<Cursor, nat>)
    requires AllOk(vs, bulks, priority) && p < |vs| && MovedOnly(vs[p].items, v.items, x)
    requires RangesOk(v.items, v.ranges, v.member, v.attached) && v.ranges.Keys == bulks &&
             (x in v.items ==> Belongs(x, |vs|, p, priority))
    ensures AllOk(vs[p := v], bulks, priority) && OnlyMoved(ItemsOf(vs), ItemsOf(vs[p := v]), x)
  {
    var ws := vs[p := v];
    assert Listed(vs, p);
    forall q | 0 <= q < |vs| && Listed(ws, q) ensures ListOk(ws[q], |vs|, q, bulks, priority) {
      assert Listed(vs, q);
    }
    forall q | 0 <= q < |vs| ensures MovedOnly(vs[q].items, vs[p := v][q].items, x) {}
  }

  ghost predicate Nowhere(vs: seq<View>, c: Cursor) { forall p | 0 <= p < |vs| :: Hitch(c) !in vs[p].items }

  /** A cursor that is on no list may get another priority. */
  lemma Repriced(vs: seq<View>, bulks: set<Bulk>, priority: map<Cursor, nat>, c: Cursor, k: nat)
    requires AllOk(vs, bulks, priority) && k <= |vs| && Nowhere(vs, c)
    ensures AllOk(vs, bulks, priority[c := k])
  {
    forall p | 0 <= p < |vs| && Listed(vs, p) ensures ListOk(vs[p], |vs|, p, bulks, priority[c := k]) {
      forall x | x in vs[p].items ensures Belongs(x, |vs|, p, priority[c := k]) {
        assert Belongs(x, |vs|, p, priority);
      }
    }
  }

  lemma NeverStarted(vs: seq<View>, bulks: set<Bulk>, priority: map<Cursor, nat>, c: Cursor)
    requires AllOk(vs, bulks, priority) && c !in priority
    ensures Nowhere(vs, c)
  {
    forall p | 0 <= p < |vs| ensures Hitch(c) !in vs[p].items {
      assert Listed(vs, p) && !Belongs(Hitch(c), |vs|, p, priority);
    }
  }

  /** A cursor is on no list but its own. */
  lemma OneList(vs: seq<View>, bulks: set<Bulk>, priority: map<Cursor, nat>, c: Cursor, p: nat)
    requires AllOk(vs, bulks, priority) && p < |vs| && Hitch(c) in vs[p].items
    ensures c in priority && Home(|vs|, priority[c]) == p &&
            forall q | 0 <= q < |vs| && q != p :: Hitch(c) !in vs[q].items
  {
    assert Listed(vs, p);
    assert Belongs(Hitch(c), |vs|, p, priority);
    forall q | 0 <= q < |vs| && q != p ensures Hitch(c) !in vs[q].items {
      assert Listed(vs, q);
      assert !Belongs(Hitch(c), |vs|, q, priority);
    }
  }

  /** An attached cursor is on the list it is attached on. */
  lemma AttachedOn(vs: seq<View>, bulks: set<Bulk>, priority: map<Cursor, nat>, c: Cursor, p: nat)
    requires AllOk(vs, bulks, priority) && p < |vs| && c in vs[p].attached
    ensures Hitch(c) in vs[p].items && c in priority && Home(|vs|, priority[c]) == p
  {
    assert Listed(vs, p);
    OneList(vs, bulks, priority, c, p);
  }

  lemma NotHome(vs: seq<View>, bulks: set<Bulk>, priority: map<Cursor, nat>, c: Cursor, p: nat)
    requires AllOk(vs, bulks, priority) && c in priority && p == Home(|vs|, priority[c]) && Hitch(c) !in vs[p].items
    ensures Nowhere(vs, c)
  {
    forall q | 0 <= q < |vs| ensures Hitch(c) !in vs[q].items {
      if Hitch(c) in vs[q].items { OneList(vs, bulks, priority, c, q); }
    }
  }

  /** `r` comes first on the first list, from list `from` on, that has resources. */
  ghost predicate IsFirst(vs: seq<View>, from: nat, r: Resource) {
    from <= r.priority < |vs| && Res(r) in vs[r.priority].items &&
    (forall q | Res(q) in vs[r.priority].items ::
     Pos(vs[r.priority].items, Res(r)) <= Pos(vs[r.priority].items, Res(q))) &&
    forall p, q | from <= p < r.priority :: Res(q) !in vs[p].items
  }

  /** To a cursor at the head of list `from`, every resource from there on is ahead. */
  lemma AllAhead(vs: seq<View>, ws: seq<View>, from: nat, x: Item, p: nat, q: Resource, bulks: set<Bulk>,
                 priority: map<Cursor, nat>)
    requires AllOk(vs, bulks, priority) && OnlyMoved(ItemsOf(vs), ItemsOf(ws), x) && x.Hitch?
    requires from < |ws| && AtHead(ws[from].items, x) && from <= p < |vs| && Res(q) in vs[p].items
    ensures q.priority == p && Ahead(ItemsOf(ws), from, x, q)
  {
    assert Listed(vs, p) && Nth(p);
    assert Belongs(Res(q), |vs|, p, priority);
    assert MovedOnly(vs[p].items, ws[p].items, x);
  }

  lemma FirstLaw(vs: seq<View>, ws: seq<View>, from: nat, x: Item, found: bool, r: Resource, bulks: set<Bulk>,
                 priority: map<Cursor, nat>)
    requires AllOk(vs, bulks, priority) && OnlyMoved(ItemsOf(vs), ItemsOf(ws), x) && x.Hitch?
    requires from < |ws| && AtHead(ws[from].items, x) && Answer(ItemsOf(ws), from, x, found, r)
    ensures if found then IsFirst(vs, from, r) else forall p, q | from <= p < |vs| :: Res(q) !in vs[p].items
  {
    forall p, q | from <= p < |vs| && Res(q) in vs[p].items
      ensures found && q.priority == p && Ahead(ItemsOf(ws), from, x, q) && Sooner(ItemsOf(ws), r, q)
    {
      AllAhead(vs, ws, from, x, p, q, bulks, priority);
    }
    if found {
      assert Nth(r.priority);
      assert MovedOnly(vs[r.priority].items, ws[r.priority].items, x);
    }
  }

  /** Only cursors of `b` have been detached, and those that have are right behind the range of `b`. */
  ghost predicate Parked(v: View, w: View, b: Bulk) {
    b in v.ranges && w.ranges == v.ranges && w.member == v.member &&
    (forall c | c in w.attached :: c in v.attached && w.attached[c] == v.attached[c]) &&
    (forall c | c in v.attached && v.attached[c] != b :: c in w.attached) &&
    if v.ranges[b].Empty? then w.items == v.items
    else forall c | OfBulk(v, c, b) && c !in w.attached ::
           BehindEnd(v.items, w.items, b, v.ranges[b].last, v.attached, c)
  }

  /** On every list, only cursors of `b` have moved, and been detached. */
  ghost predicate AllAdjusted(vs: seq<View>, ws: seq<View>, b: Bulk) {
    |vs| == |ws| && forall p {:trigger Nth(p)} | 0 <= p < |vs| && Nth(p) ::
      Adjusted(vs[p].items, ws[p].items, b, vs[p].attached) && Parked(vs[p], ws[p], b)
  }

  /** One more cursor of `b` is detached. */
  lemma ParkedMore(u: View, v: View, w: View, b: Bulk, c: Cursor)
    requires Adjusted(u.items, v.items, b, u.attached) && Parked(u, v, b) && OfBulk(v, c, b)
    requires w == v.(items := w.items, attached := v.attached - {c}) && Hitch(c) in v.items && Hitch(c) in w.items
    requires if u.ranges[b].Empty? then w.items == v.items
             else Moved(v.items, w.items, Hitch(c), Behind(Res(u.ranges[b].last)))
    ensures Adjusted(u.items, w.items, b, u.attached) && Parked(u, w, b)
  {
    if u.ranges[b].Range? {
      var l := u.ranges[b].last;
      AdjustedMore(u.items, v.items, w.items, b, u.attached, c);
      forall d | OfBulk(u, d, b) && d !in w.attached ensures BehindEnd(u.items, w.items, b, l, u.attached, d) {
        if d == c {
          EndReached(u.items, v.items, w.items, b, l, u.attached, c);
        } else {
          EndStays(u.items, v.items, w.items, b, l, u.attached, d, c);
        }
      }
    }
  }

  /** The cursors of `b` have been detached and are where the range of `b` ended. */
  ghost predicate CursorsLeft(v: View, w: View, b: Bulk) {
    b in v.ranges && (forall c :: c in w.attached <==> c in v.attached && v.attached[c] != b) &&
    (forall c | c in w.attached :: w.attached[c] == v.attached[c]) &&
    if v.ranges[b].Empty? then w.items == v.items
    else forall c | OfBulk(v, c, b) ::
           LeftBehind(v.items, w.items, b, v.ranges[b].last, v.member, v.attached, c)
  }

  /** On every list, everything but the cursors of `b` keeps its order, only that the resources of `b` come last. */
  ghost predicate AllSent(vs: seq<View>, ws: seq<View>, b: Bulk) {
    |vs| == |ws| && forall p {:trigger Nth(p)} | 0 <= p < |vs| && Nth(p) ::
      SentBack(vs[p].items, ws[p].items, b, vs[p].member, vs[p].attached) && ws[p].ranges == vs[p].ranges &&
      ws[p].member == vs[p].member && CursorsLeft(vs[p], ws[p], b)
  }

  /** On one list, everything but the cursors of `b` keeps its order, only that the resources of `b` come last. */
  ghost predicate Sent(v: View, w: View, b: Bulk) {
    SentBack(v.items, w.items, b, v.member, v.attached) && w == v.(items := w.items) &&
    b in v.ranges && (v.ranges[b].Empty? ==> w.items == v.items)
  }

  lemma LeftLaw(u: View, v: View, w: View, b: Bulk)
    requires RangesOk(u.items, u.ranges, u.member, u.attached) && Adjusted(u.items, v.items, b, u.attached)
    requires Parked(u, v, b) && Loose(v, b) && Sent(v, w, b)
    ensures CursorsLeft(u, w, b)
  {
    if u.ranges[b].Range? {
      LastIsMember(u.items, u.ranges, u.member, u.attached, b);
      forall c | OfBulk(u, c, b)
        ensures LeftBehind(u.items, w.items, b, u.ranges[b].last, u.member, u.attached, c)
      {
        EndSent(u.items, v.items, w.items, b, u.ranges[b].last, u.member, u.attached, v.attached, c);
      }
    }
  }

  lemma SentAllTrans(us: seq<View>, vs: seq<View>, ws: seq<View>, b: Bulk, bulks: set<Bulk>, priority: map<Cursor, nat>)
    requires AllOk(us, bulks, priority)
    requires AllAdjusted(us, vs, b) && |ws| == |vs| &&
             forall p | 0 <= p < |vs| :: Loose(vs[p], b) && Sent(vs[p], ws[p], b)
    ensures AllSent(us, ws, b)
  {
    forall p | 0 <= p < |us| && Nth(p)
      ensures SentBack(us[p].items, ws[p].items, b, us[p].member, us[p].attached) && ws[p].ranges == us[p].ranges &&
              ws[p].member == us[p].member && CursorsLeft(us[p], ws[p], b)
    {
      assert Listed(us, p);
      LeftLaw(us[p], vs[p], ws[p], b);
      assert Sent(vs[p], ws[p], b);
      SentTrans(us[p].items, vs[p].items, ws[p].items, b, us[p].member, us[p].attached, vs[p].attached);
    }
  }

  /** Only list `p` has changed, and only in its order. */
  lemma Reordered(vs: seq<View>, p: nat, v: View, bulks: set<Bulk>, priority: map<Cursor, nat>)
    requires AllOk(vs, bulks, priority) && p < |vs| && (forall x :: x in v.items <==> x in vs[p].items)
    requires RangesOk(v.items, v.ranges, v.member, v.attached) && v.ranges.Keys == bulks
    ensures AllOk(vs[p := v], bulks, priority)
  {
    var ws := vs[p := v];
    assert Listed(vs, p);
    forall q | 0 <= q < |vs| && Listed(ws, q) ensures ListOk(ws[q], |vs|, q, bulks, priority) {
      assert Listed(vs, q);
    }
  }

  predicate OfBulk(v: View, c: Cursor, b: Bulk) { c in v.attached && v.attached[c] == b }

  predicate Loose(v: View, b: Bulk) { forall c | c in v.attached :: v.attached[c] != b }

  function NoItems(bulks: set<Bulk>): View { View([], map b | b in bulks :: Empty, map[], map[]) }

  lemma EmptyOk(n: nat, bulks: set<Bulk>)
    requires n > 0
    ensures AllOk(seq(n, p => NoItems(bulks)), bulks, map[])
  {}

  method NewLists(n: nat, bulks: set<Bulk>) returns (ls: seq<List>)
    ensures |ls| == n && fresh(ls) && (forall i, j | 0 <= i < j < n :: ls[i] != ls[j])
    ensures forall p | 0 <= p < n :: View(ls[p].items, ls[p].ranges, ls[p].member, ls[p].attached) == NoItems(bulks)
  {
    ls := [];
    while |ls| < n
      invariant |ls| <= n && fresh(ls) && (forall i, j | 0 <= i < j < |ls| :: ls[i] != ls[j])
      invariant forall p | 0 <= p < |ls| ::
                  View(ls[p].items, ls[p].ranges, ls[p].member, ls[p].attached) == NoItems(bulks)
    {
      var l := new List(bulks);
      ls := ls + [l];
    }
  }

  class Manager {
    const lists: seq<List>
    const bulks: set<Bulk>

    /** `cursor->priority` of the cursors that have been initialised */
    var priority: map<Cursor, nat>

    ghost function ViewOf(l: List): View
      reads l
    {
      View(l.items, l.ranges, l.member, l.attached)
    }

    /** What there is on the lists */
    ghost var now: seq<View>

    ghost predicate Tied()
      reads this`now, lists
    {
      |now| == |lists| && forall p | 0 <= p < |lists| :: now[p] == ViewOf(lists[p])
    }

    ghost predicate Valid()
      reads this`priority, this`now, lists
    {
      (forall i, j | 0 <= i < j < |lists| :: lists[i] != lists[j]) && Tied() && AllOk(now, bulks, priority)
    }

    /** No cursor of `b` on a list, as it is or as it was, has gone past the last list. */
    ghost predicate Within(v: View, b: Bulk)
      reads this`priority
    {
      forall c | OfBulk(v, c, b) :: c in priority && priority[c] < |lists|
    }

    /** Bulk move `b` has a cursor that has gone past the last list and is still attached to it. */
    ghost predicate Stranded(b: Bulk)
      reads this`priority, this`now
    {
      exists p | 0 <= p < |now| :: !Within(now[p], b)
    }

    constructor (n: nat, bulks: set<Bulk>)
      requires n > 0
      ensures Valid() && fresh(lists) && |lists| == n && this.bulks == bulks && priority == map[]
      ensures now == seq(n, p => NoItems(bulks))
    {
      var ls := NewLists(n, bulks);
      lists, this.bulks, priority := ls, bulks, map[];
      now := seq(n, p => NoItems(bulks));
      EmptyOk(n, bulks);
    }

    // ---------- Resources ----------

    /** `ttm_resource_move_to_lru_tail`, also for a resource that is new on the list of its priority. */
    method Place(r: Resource)
      requires Valid() && r.priority < |lists|
      modifies this`now, lists
      ensures Valid() && OnlyMoved(ItemsOf(old(now)), ItemsOf(now), Res(r)) &&
              now == old(now)[r.priority := ViewOf(lists[r.priority])]
      ensures var l := lists[r.priority];
              Res(r) in l.items && l.member == old(l.member) && l.attached == old(l.attached) &&
              Trails(l.items, l.ranges, l.member, r)
    {
      ghost var vs, p := now, r.priority;
      assert Listed(vs, p);
      lists[r.priority].MoveToTail(r);
      now := now[p := ViewOf(lists[p])];
      Changed(vs, p, ViewOf(lists[p]), Res(r), bulks, priority);
    }

    /** `ttm_lru_bulk_move_add` */
    method AddTo(b: Bulk, r: Resource)
      requires Valid() && b in bulks && r.priority < |lists| && Listed(now, r.priority) &&
               r !in lists[r.priority].member
      requires lists[r.priority].ranges[b].Empty? ==> Res(r) in lists[r.priority].items
      modifies this`now, lists
      ensures Valid() && OnlyMoved(ItemsOf(old(now)), ItemsOf(now), Res(r)) &&
              now == old(now)[r.priority := ViewOf(lists[r.priority])]
      ensures var l := lists[r.priority];
              Res(r) in l.items && l.member == old(l.member)[r := b] && l.attached == old(l.attached) &&
              Trails(l.items, l.ranges, l.member, r)
    {
      ghost var vs, p := now, r.priority;
      assert Listed(vs, p);
      lists[r.priority].Add(b, r);
      now := now[p := ViewOf(lists[p])];
      Changed(vs, p, ViewOf(lists[p]), Res(r), bulks, priority);
    }

    /** `ttm_lru_bulk_move_del` */
    method DeleteFrom(r: Resource)
      requires Valid() && r.priority < |lists| && r in lists[r.priority].member
      modifies this`now, lists
      ensures Valid() && OnlyMoved(ItemsOf(old(now)), ItemsOf(now), Res(r)) &&
              now == old(now)[r.priority := ViewOf(lists[r.priority])]
      ensures lists[r.priority].member == old(lists[r.priority].member) - {r}
    {
      ghost var vs, p := now, r.priority;
      assert Listed(vs, p);
      lists[r.priority].Delete(r);
      now := now[p := ViewOf(lists[p])];
      Changed(vs, p, ViewOf(lists[p]), Res(r), bulks, priority);
    }

    /** A pinned resource leaves its bulk move and its list. */
    method PinDown(r: Resource)
      requires Valid() && r.priority < |lists|
      modifies this`now, lists
      ensures Valid() && OnlyMoved(ItemsOf(old(now)), ItemsOf(now), Res(r)) &&
              now == old(now)[r.priority := ViewOf(lists[r.priority])]
      ensures Res(r) !in lists[r.priority].items
    {
      ghost var vs, p := now, r.priority;
      assert Listed(vs, p);
      lists[r.priority].Pin(r);
      now := now[p := ViewOf(lists[p])];
      Changed(vs, p, ViewOf(lists[p]), Res(r), bulks, priority);
    }

    // ---------- Cursors ----------

    /** A cursor leaves list `p`. */
    method Leave(c: Cursor, p: nat)
      requires Valid() && p < |lists| && Hitch(c) in lists[p].items
      modifies this`now, lists`items, lists`attached
      ensures Valid() && OnlyMoved(ItemsOf(old(now)), ItemsOf(now), Hitch(c)) && Nowhere(now, c)
    {
      ghost var vs := now;
      OneList(vs, bulks, priority, c, p);
      assert Listed(vs, p);
      lists[p].Leave(c);
      now := now[p := ViewOf(lists[p])];
      Changed(vs, p, ViewOf(lists[p]), Hitch(c), bulks, priority);
    }

    method LeaveFor(c: Cursor, p: nat)
      requires Valid() && c in priority && priority[c] < |lists| && p < |lists| && Hitch(c) in lists[priority[c]].items
      modifies this`priority, this`now, lists`items, lists`attached
      ensures Valid() && OnlyMoved(ItemsOf(old(now)), ItemsOf(now), Hitch(c)) && priority == old(priority)[c := p]
    {
      Leave(c, priority[c]);
      Repriced(now, bulks, priority, c, p);
      priority := priority[c := p];
    }

    /** A cursor goes to the head of the list of its priority. */
    method Enter(c: Cursor)
      requires Valid() && c in priority && priority[c] < |lists|
      modifies this`now, lists`items
      ensures Valid() && OnlyMoved(ItemsOf(old(now)), ItemsOf(now), Hitch(c))
      ensures AtHead(lists[priority[c]].items, Hitch(c))
    {
      ghost var vs, p := now, priority[c];
      assert Listed(vs, p);
      lists[priority[c]].Enter(c);
      now := now[p := ViewOf(lists[p])];
      Changed(vs, p, ViewOf(lists[p]), Hitch(c), bulks, priority);
    }

    /** The end of the loop of `ttm_resource_manager_next`: on to the next list. */
    method Step(c: Cursor)
      requires Valid() && c in priority && priority[c] + 1 < |lists| && Hitch(c) in lists[priority[c]].items
      modifies this`priority, this`now, lists`items, lists`attached
      ensures Valid() && OnlyMoved(ItemsOf(old(now)), ItemsOf(now), Hitch(c)) &&
              priority == old(priority)[c := old(priority[c]) + 1]
      ensures AtHead(lists[priority[c]].items, Hitch(c))
    {
      ghost var ls := ItemsOf(now);
      LeaveFor(c, priority[c] + 1);
      ghost var ms := ItemsOf(now);
      Enter(c);
      OnlyMovedTrans(ls, ms, ItemsOf(now), Hitch(c));
    }

    /** The cursor is right behind `r`, and attached to the bulk move of `r`, if that has one. */
    ghost predicate Reached(c: Cursor, r: Resource)
      reads this`now
    {
      r.priority < |now| &&
      var l := now[r.priority];
      Directly(l.items, r, c) && (c in l.attached <==> r in l.member) &&
      (r in l.member && c in l.attached ==> l.attached[c] == l.member[r])
    }

    /** The inner loop of `ttm_resource_manager_next`. */
    method Seek(c: Cursor) returns (found: bool, r: Resource)
      requires Valid() && c in priority && priority[c] < |lists| && Hitch(c) in lists[priority[c]].items
      modifies this`now, lists`items, lists`attached
      ensures Valid() && OnlyMoved(ItemsOf(old(now)), ItemsOf(now), Hitch(c)) && Hitch(c) in lists[priority[c]].items
      ensures Search(ItemsOf(old(now))[priority[c]], Hitch(c), found, r) &&
              (found ==> r.priority == priority[c] && Reached(c, r))
      ensures !found ==> now == old(now)
    {
      ghost var vs, p := now, priority[c];
      assert Listed(vs, p);
      found, r := lists[priority[c]].Advance(c);
      assert found ==> Belongs(Res(r), |vs|, p, priority);
      now := now[p := ViewOf(lists[p])];
      Changed(vs, p, ViewOf(lists[p]), Hitch(c), bulks, priority);
    }

    /** The search on every list has the priority of that list only. */
    lemma Priorities(p: nat)
      requires Valid() && p < |lists|
      ensures forall q | Res(q) in ItemsOf(now)[p] :: q.priority == p
    {
      assert Listed(now, p);
      forall q | Res(q) in ItemsOf(now)[p] ensures q.priority == p {
        assert Belongs(Res(q), |lists|, p, priority);
      }
    }

    /**
      `ttm_resource_manager_next`: the cursor goes to the next resource of all that there are on its list and
      on later ones. If there is none, it stays on the last list, attached to what it was attached to there,
      with a priority that names no list.
     */
    method CursorNext(c: Cursor) returns (found: bool, r: Resource)
      requires Valid() && c in priority && priority[c] < |lists| && Hitch(c) in lists[priority[c]].items
      modifies this`priority, this`now, lists`items, lists`attached
      ensures Valid() && OnlyMoved(ItemsOf(old(now)), ItemsOf(now), Hitch(c))
      ensures Answer(ItemsOf(old(now)), old(priority[c]), Hitch(c), found, r)
      ensures found ==> priority == old(priority)[c := r.priority] && Reached(c, r)
      ensures !found ==> priority == old(priority)[c := |lists|] && Hitch(c) in lists[|lists| - 1].items
      ensures !found && old(priority[c]) == |lists| - 1 ==> now == old(now)
    {
      hide Directly;
      hide Sooner;
      hide AllOk;
      hide Search;
      hide MovedOnly;
      ghost var ls, from, x := ItemsOf(now), priority[c], Hitch(c);
      Priorities(from);
      found, r := Seek(c);
      ListAnswer(ls, from, x, from, ls[from], found, r);
      while !found && priority[c] + 1 < |lists|
        invariant Valid() && c in priority && from <= priority[c] < |lists| && x in lists[priority[c]].items
        invariant priority == old(priority)[c := priority[c]] && OnlyMoved(ls, ItemsOf(now), x)
        invariant if found then Answer(ls, from, x, true, r) && r.priority == priority[c] && Reached(c, r)
                  else NoneUpTo(ls, from, x, priority[c])
        invariant !found && from == priority[c] ==> now == old(now)
        decreases !found, |lists| - priority[c]
      {
        found, r := NextList(c, ls, from);
      }
      if !found {
        Exhaust(c);
      }
    }

    /** One more round of the outer loop, which has found nothing so far. */
    method NextList(c: Cursor, ghost ls: seq<seq<Item>>, ghost from: nat) returns (found: bool, r: Resource)
      requires Valid() && c in priority && from <= priority[c] && priority[c] + 1 < |lists| &&
               Hitch(c) in lists[priority[c]].items
      requires OnlyMoved(ls, ItemsOf(now), Hitch(c)) && NoneUpTo(ls, from, Hitch(c), priority[c])
      modifies this`priority, this`now, lists`items, lists`attached
      ensures Valid() && priority == old(priority)[c := old(priority[c]) + 1] && Hitch(c) in lists[priority[c]].items
      ensures OnlyMoved(ls, ItemsOf(now), Hitch(c))
      ensures if found then Answer(ls, from, Hitch(c), true, r) && r.priority == priority[c] && Reached(c, r)
              else NoneUpTo(ls, from, Hitch(c), priority[c])
    {
      ghost var ms, x := ItemsOf(now), Hitch(c);
      Step(c);
      ghost var ns, p := ItemsOf(now), priority[c];
      OnlyMovedTrans(ls, ms, ns, x);
      Priorities(p);
      found, r := Seek(c);
      OnlyMovedTrans(ls, ns, ItemsOf(now), x);
      assert Nth(p);
      ListAnswer(ls, from, x, p, ns[p], found, r);
    }

    /** `++cursor->priority` on the last list */
    method Exhaust(c: Cursor)
      requires Valid() && c in priority && priority[c] + 1 == |lists|
      modifies this`priority
      ensures Valid() && priority == old(priority)[c := |lists|]
    {
      ghost var vs, ps := now, priority[c := |lists|];
      forall p | 0 <= p < |vs| && Listed(vs, p) ensures ListOk(vs[p], |vs|, p, bulks, ps) {
        forall x | x in vs[p].items ensures Belongs(x, |vs|, p, ps) {
          assert Belongs(x, |vs|, p, priority);
        }
      }
      priority := priority[c := priority[c] + 1];
    }

    /** `ttm_resource_manager_first`: the first resource of the lists from that of the cursor's priority on. */
    method CursorFirst(c: Cursor) returns (found: bool, r: Resource)
      requires Valid() && c in priority && priority[c] < |lists|
      modifies this`priority, this`now, lists`items, lists`attached
      ensures Valid() && OnlyMoved(ItemsOf(old(now)), ItemsOf(now), Hitch(c))
      ensures found ==>
                IsFirst(old(now), old(priority[c]), r) && priority == old(priority)[c := r.priority] && Reached(c, r)
      ensures !found ==> priority == old(priority)[c := |lists|] && Hitch(c) in now[|lists| - 1].items
      ensures !found ==> forall p, q | old(priority[c]) <= p < |lists| :: Res(q) !in old(now)[p].items
    {
      ghost var vs, from := now, priority[c];
      Enter(c);
      ghost var ws := now;
      found, r := CursorNext(c);
      OnlyMovedTrans(ItemsOf(vs), ItemsOf(ws), ItemsOf(now), Hitch(c));
      FirstLaw(vs, ws, from, Hitch(c), found, r, bulks, old(priority));
    }

    /** `ttm_resource_cursor_init` */
    method CursorInit(c: Cursor)
      requires Valid() && Nowhere(now, c)
      modifies this`priority
      ensures Valid() && priority == old(priority)[c := 0]
    {
      Repriced(now, bulks, priority, c, 0);
      priority := priority[c := 0];
    }

    /** `ttm_resource_cursor_fini`, also for a cursor that is on no list */
    method CursorFini(c: Cursor)
      requires Valid() && c in priority
      modifies this`now, lists`items, lists`attached
      ensures Valid() && OnlyMoved(ItemsOf(old(now)), ItemsOf(now), Hitch(c)) && Nowhere(now, c)
    {
      var p := if priority[c] < |lists| then priority[c] else |lists| - 1;
      if Hitch(c) in lists[p].items {
        Leave(c, p);
      } else {
        NotHome(now, bulks, priority, c, p);
      }
    }

    // ---------- Bulk moves ----------

    /** One round of the loop of `ttm_bulk_move_adjust_cursors`. */
    method AdjustOne(p: nat, b: Bulk, c: Cursor)
      requires Valid() && p < |lists| && b in bulks && c in lists[p].attached && lists[p].attached[c] == b
      requires c in priority && priority[c] < |lists|
      modifies this`now, lists`items, lists`attached
      ensures Valid() && p < |old(now)| == |now| && now == old(now)[p := now[p]] &&
              now[p].ranges == old(now[p]).ranges && now[p].member == old(now[p]).member
      ensures now[p].attached == old(now[p]).attached - {c} && |now[p].attached| < |old(now[p]).attached|
      ensures b in now[p].ranges && Hitch(c) in now[p].items && Hitch(c) in old(now[p]).items
      ensures if now[p].ranges[b].Empty? then now[p].items == old(now[p]).items
              else Moved(old(now[p]).items, now[p].items, Hitch(c), Behind(Res(now[p].ranges[b].last)))
    {
      hide RangesOk;
      ghost var vs := now;
      assert Listed(vs, p);
      AttachedOn(vs, bulks, priority, c, p);
      lists[priority[c]].MoveBulkTail(b, c);
      now := now[p := ViewOf(lists[p])];
      Changed(vs, p, ViewOf(lists[p]), Hitch(c), bulks, priority);
    }

    /**
      The loop of `ttm_bulk_move_adjust_cursors`, over the cursors on list `p`; it fails on a cursor whose priority is
      past the last list.
     */
    method AdjustList(p: nat, b: Bulk) returns (ok: bool)
      requires Valid() && p < |lists| && b in bulks
      modifies this`now, lists`items, lists`attached
      ensures Valid() && |old(now)| == |now| && now == old(now)[p := now[p]]
      ensures Adjusted(old(now)[p].items, now[p].items, b, old(now)[p].attached) && Parked(old(now)[p], now[p], b)
      ensures ok <==> Within(old(now)[p], b)
      ensures if ok then Loose(now[p], b) else !Within(now[p], b)
    {
      hide RangesOk;
      ok := true;
      ghost var vs := now;
      assert Listed(vs, p);
      while exists c :: c in lists[p].attached && lists[p].attached[c] == b
        invariant Valid() && |vs| == |now| && now == vs[p := now[p]]
        invariant Adjusted(vs[p].items, now[p].items, b, vs[p].attached) && Parked(vs[p], now[p], b)
        invariant forall c | OfBulk(vs[p], c, b) && c !in now[p].attached :: c in priority && priority[c] < |now|
        decreases |now[p].attached|
      {
        var c :| c in lists[p].attached && lists[p].attached[c] == b;
        AttachedOn(now, bulks, priority, c, p);
        if priority[c] >= |lists| {
          assert OfBulk(now[p], c, b);
          return false;
        }
        ghost var v := now[p];
        AdjustOne(p, b, c);
        ParkedMore(vs[p], v, now[p], b, c);
      }
    }

    /** `ttm_bulk_move_adjust_cursors`: cursors inside ranges must not be carried along. */
    method AdjustCursors(b: Bulk) returns (ok: bool)
      requires Valid() && b in bulks
      modifies this`now, lists`items, lists`attached
      ensures Valid() && AllAdjusted(old(now), now, b) && (ok <==> !old(Stranded(b)))
      ensures if ok then forall p | 0 <= p < |now| :: Loose(now[p], b) else Stranded(b)
    {
      ok := true;
      ghost var vs := now;
      var p := 0;
      forall q | 0 <= q < |vs| ensures Parked(vs[q], vs[q], b) { assert Listed(vs, q); }
      while p < |lists|
        invariant 0 <= p <= |lists| && Valid() && |vs| == |lists| && AllAdjusted(vs, now, b)
        invariant forall q | p <= q < |lists| :: now[q] == vs[q]
        invariant forall q | 0 <= q < p :: Within(vs[q], b) && Loose(now[q], b)
      {
        ok := AdjustList(p, b);
        if !ok { return; }
        p := p + 1;
      }
    }

    /** The loop of `ttm_lru_bulk_move_tail` */
    method SendAll(b: Bulk)
      requires Valid() && b in bulks && forall p | 0 <= p < |now| :: Loose(now[p], b)
      modifies this`now, lists`items
      ensures Valid() && |now| == |old(now)| && forall p | 0 <= p < |now| :: Sent(old(now)[p], now[p], b)
    {
      ghost var vs := now;
      var p := 0;
      while p < |lists|
        invariant 0 <= p <= |lists| && Valid() && |vs| == |lists|
        invariant forall q | p <= q < |lists| :: now[q] == vs[q]
        invariant forall q | 0 <= q < p :: Sent(vs[q], now[q], b)
      {
        SendList(p, b);
        p := p + 1;
      }
    }

    method SendList(p: nat, b: Bulk)
      requires Valid() && b in bulks && p < |lists| && Loose(now[p], b)
      modifies this`now, lists`items
      ensures Valid() && |now| == |old(now)| && now == old(now)[p := now[p]] && Sent(old(now)[p], now[p], b)
    {
      ghost var vs := now;
      assert Listed(vs, p);
      lists[p].BulkTail(b);
      now := now[p := ViewOf(lists[p])];
      Reordered(vs, p, ViewOf(lists[p]), bulks, priority);
    }

    /**
      `ttm_lru_bulk_move_tail`: on every list the resources of `b` go to the end in their order, no cursor is
      carried along, and everything else keeps its order. This works if and only if no cursor of `b` has gone
      past the last list: such a cursor would be looked up in a range that the bulk move does not have.
     */
    method BulkTail(b: Bulk) returns (ok: bool)
      requires Valid() && b in bulks
      modifies this`now, lists`items, lists`attached
      ensures Valid() && (ok <==> !old(Stranded(b)))
      ensures ok ==> AllSent(old(now), now, b) && forall p | 0 <= p < |now| :: Loose(now[p], b)
      ensures !ok ==> AllAdjusted(old(now), now, b) && Stranded(b)
    {
      ghost var vs := now;
      ok := AdjustCursors(b);
      if ok {
        ghost var ws := now;
        SendAll(b);
        SentAllTrans(vs, ws, now, b, bulks, priority);
      }
    }

    /** One operation; what its caller must not ask for does nothing. */
    method Perform(op: Op) returns (ok: bool)
      requires Valid()
      modifies this`priority, this`now, lists
      ensures Valid() && (!ok ==> op.SendTail? && Stranded(op.b))
    {
      ok := true;
      match op {
        case Insert(r) =>
          if r.priority < |lists| { Place(r); }
        case AddTo(b, r) =>
          if b in bulks && r.priority < |lists| && r !in lists[r.priority].member {
            assert Listed(now, r.priority);
            if lists[r.priority].ranges[b].Empty? ==> Res(r) in lists[r.priority].items { AddTo(b, r); }
          }
        case DeleteFrom(r) =>
          if r.priority < |lists| && r in lists[r.priority].member { DeleteFrom(r); }
        case PinDown(r) =>
          if r.priority < |lists| { PinDown(r); }
        case Start(c) =>
          if c !in priority {
            NeverStarted(now, bulks, priority, c);
            CursorInit(c);
          }
        case First(c) =>
          if c in priority && priority[c] < |lists| { var found, r := CursorFirst(c); }
        case Next(c) =>
          if c in priority && priority[c] < |lists| && Hitch(c) in lists[priority[c]].items {
            var found, r := CursorNext(c);
          }
        case Finish(c) =>
          if c in priority { CursorFini(c); }
        case SendTail(b) =>
          if b in bulks { ok := BulkTail(b); }
      }
    }
  }

  /** What may happen to a manager. */
  datatype Op =
    | Insert(r: Resource)
    | AddTo(b: Bulk, r: Resource)
    | DeleteFrom(r: Resource)
    | PinDown(r: Resource)
    | Start(c: Cursor)
    | First(c: Cursor)
    | Next(c: Cursor)
    | Finish(c: Cursor)
    | SendTail(b: Bulk)

  /**
    Over any run the ranges stay what they are meant to be, until a bulk move meets a cursor that has gone past
    the last list. An attached cursor is on the list that its priority names just when it has not.
   */
  method Run(n: nat, bulks: set<Bulk>, ops: seq<Op>) returns (m: Manager, ok: bool)
    requires n > 0
    ensures fresh(m) && fresh(m.lists) && m.Valid() && |m.now| == n
    ensures forall p, c | 0 <= p < n && c in m.now[p].attached ::
              c in m.priority && (m.priority[c] == p <==> m.priority[c] < n)
    ensures !ok ==> exists b :: m.Stranded(b)
  {
    m := new Manager(n, bulks);
    ok := true;
    var i := 0;
    while i < |ops| && ok
      invariant 0 <= i <= |ops| && m.Valid() && fresh(m) && fresh(m.lists) && |m.lists| == n
      invariant !ok ==> i > 0 && ops[i - 1].SendTail? && m.Stranded(ops[i - 1].b)
    {
      ok := m.Perform(ops[i]);
      i := i + 1;
    }
    forall p, c | 0 <= p < n && c in m.now[p].attached
      ensures c in m.priority && (m.priority[c] == p <==> m.priority[c] < n)
    {
      assert Listed(m.now, p);
      assert Hitch(c) in m.now[p].items;
      OneList(m.now, m.bulks, m.priority, c, p);
    }
  }

  /** `r` is the only resource. */
  ghost predicate Alone(ls: seq<seq<Item>>, r: Resource) {
    r.priority < |ls| && Res(r) in ls[r.priority] && forall p, q | 0 <= p < |ls| && Res(q) in ls[p] :: q == r
  }

  lemma StaysAlone(ls: seq<seq<Item>>, ms: seq<seq<Item>>, c: Cursor, r: Resource)
    requires Alone(ls, r) && OnlyMoved(ls, ms, Hitch(c))
    ensures Alone(ms, r)
  {
    assert Nth(r.priority);
    forall p, q | 0 <= p < |ms| && Res(q) in ms[p] ensures q == r {
      assert Nth(p);
      assert Res(q) in ls[p];
    }
  }

  lemma BecomesAlone(ls: seq<seq<Item>>, ms: seq<seq<Item>>, r: Resource)
    requires (forall p | 0 <= p < |ls| :: ls[p] == []) || Alone(ls, r)
    requires OnlyMoved(ls, ms, Res(r)) && r.priority < |ms| && Res(r) in ms[r.priority]
    ensures Alone(ms, r)
  {
    forall p, q | 0 <= p < |ms| && Res(q) in ms[p] ensures q == r {
      assert Nth(p);
      assert MovedOnly(ls[p], ms[p], Res(r));
    }
  }

  /** A manager with one resource, on its last list and of bulk move 0, and a cursor that has not been used. */
  method OneResource(n: nat) returns (m: Manager)
    requires n > 0
    ensures fresh(m) && fresh(m.lists) && m.Valid() && |m.lists| == n && m.bulks == {0} && m.priority == map[0 := 0]
    ensures var r := Resource(0, n - 1);
            Alone(ItemsOf(m.now), r) && r in m.now[n - 1].member && m.now[n - 1].member[r] == 0
  {
    var r := Resource(0, n - 1);
    m := new Manager(n, {0});
    ghost var ls := ItemsOf(m.now);
    m.Place(r);
    ghost var ms := ItemsOf(m.now);
    BecomesAlone(ls, ms, r);
    m.AddTo(0, r);
    BecomesAlone(ms, ItemsOf(m.now), r);
    NeverStarted(m.now, m.bulks, m.priority, 0);
    m.CursorInit(0);
  }

  /** A cursor that has come to the only resource finds nothing more. */
  lemma NothingAhead(ls: seq<seq<Item>>, r: Resource, c: Cursor)
    requires Alone(ls, r) && Directly(ls[r.priority], r, c)
    ensures forall q :: !Ahead(ls, r.priority, Hitch(c), q)
  {}

  /**
    A bulk move that fails, with any number of lists: a cursor has come to a resource of it on the last list
    and been moved on once more.
   */
  method PastTheEnd(n: nat) returns (m: Manager, ok: bool)
    requires n > 0
    ensures fresh(m) && m.Valid() && m.Stranded(0) && !ok
  {
    m := OneResource(n);
    ghost var r, ls := Resource(0, n - 1), ItemsOf(m.now);
    var found, q := m.CursorFirst(0);
    StaysAlone(ls, ItemsOf(m.now), 0, r);
    assert found && q == r;
    assert OfBulk(m.now[n - 1], 0, 0);
    NothingAhead(ItemsOf(m.now), r, 0);
    found, q := m.CursorNext(0);
    assert !found && !m.Within(m.now[n - 1], 0);
    ok := m.BulkTail(0);
  }
}
