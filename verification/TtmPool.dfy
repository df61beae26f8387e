/** Backup and restore of a `ttm_tt`, as `ttm_pool.c` does it on the page vector. */
module TtmPool {
  import opened Common
  import opened Powers
  import opened TtmPages

  const MAX_PAGE_ORDER: nat := 10

  datatype Errno = Ok | EINVAL | EBUSY | EINTR | ENOMEM

  /**
    What fails in one call of `ttm_pool_restore_and_alloc`: the restore state, a page of some order at some
    position and its mapping, reading the handle of some slot back, and the change of the caching attributes.
    No call asks for any of these twice. What a new page contains is not known either.
   */
  datatype Faults = Faults(noMemory: bool, noPage: (nat, nat) -> bool, noMapping: (nat, nat) -> bool,
                           junk: (nat, nat) -> Content,
                           interrupted: nat -> bool, unreadable: nat -> bool, noCaching: bool)

  /** Nothing fails, except for the caching attributes and for pages larger than the smallest ones. */
  ghost predicate Smooth(e: Faults) {
    !e.noMemory && (forall i :: !e.noPage(i, 0)) && (forall i, o :: !e.noMapping(i, o)) &&
    (forall i :: !e.interrupted(i)) && (forall i :: !e.unreadable(i))
  }

  /**
    What fails in one call of `ttm_pool_backup`, which may also stop halfway; `full` says for which slots the backup has
    no room.
   */
  datatype Troubles = Troubles(busy: bool, halve: bool, full: nat -> bool)

  ghost predicate Calm(e: Troubles) { !e.busy && forall i :: !e.full(i) }

  /** `ttm_pool_tt_restore`: the snapshot position, the page being filled and how far that has got. */
  datatype Restore = Restore(pos: nat, page: int, order: nat, restored: nat, alloced: nat)

  /** `ttm_pool_restore_valid` */
  predicate PageOpen(r: Restore) { r.restored < Pow2(r.order) }

  /** The page of `r` is being filled, or just has been. */
  ghost predicate Filling(r: Restore, slots: seq<Slot>, want: Contents, others: map<int, Content>, mem: Memory) {
    r.pos == r.alloced && r.restored <= Pow2(r.order) &&
    Restoring(slots, r.pos, r.restored, r.page, Pow2(r.order), want, others, mem)
  }

  /** A restore that can go on from `r`. */
  ghost predicate Resumable(r: Restore, slots: seq<Slot>, want: Contents, others: map<int, Content>, mem: Memory) {
    if PageOpen(r) then Filling(r, slots, want, others, mem)
    else r.pos == r.alloced && Restoring(slots, r.pos, 0, r.page, 0, want, others, mem)
  }

  /** A handle is read back and dropped. */
  lemma Backed(r: Restore, s: seq<Slot>, want: Contents, others: map<int, Content>, m: Memory, next: int)
    returns (m': Memory)
    requires Numbered(m, next) && PageOpen(r) && Filling(r, s, want, others, m) && s[r.pos + r.restored].Handle?
    ensures var h, f := s[r.pos + r.restored].handle, r.page + r.restored;
            h != 0 && h in m.store && f in m.content && m' == ReadBack(m, f, h)
    ensures Numbered(m', next) &&
            Filling(r.(restored := r.restored + 1), Marked(s, r.pos + r.restored), want, others, m')
  {
    var n, k := Pow2(r.order), r.restored;
    HandleReady(s, r.pos, k, r.page, n, want, others, m);
    m' := ReadBack(m, r.page + k, s[r.pos + k].handle);
    NumberedLess(m, m', next);
    StepHandle(s, Marked(s, r.pos + k), r.pos, k, r.page, n, want, others, m, m');
  }

  /** An old page is split, its frame copied and freed. */
  lemma OldPage(r: Restore, s: seq<Slot>, want: Contents, others: map<int, Content>, m: Memory, next: int)
    returns (m2: Memory)
    requires Numbered(m, next) && PageOpen(r) && Filling(r, s, want, others, m) && s[r.pos + r.restored].Page?
    ensures var q, f := s[r.pos + r.restored].frame, r.page + r.restored;
            UnitAt(m, q) && f in m.content && q in m.content &&
            (var m1 := SplitUnit(m, q); q in m1.unit && m1.unit[q] == 0 && m2 == TakeOver(m1, f, q))
    ensures Numbered(m2, next) &&
            Filling(r.(restored := r.restored + 1), Marked(s, r.pos + r.restored), want, others, m2)
  {
    var k, q := r.restored, s[r.pos + r.restored].frame;
    var m1 := StepSplit(s, r.pos, k, r.page, Pow2(r.order), want, others, m);
    PageFrames(s, r.pos, k, r.page, Pow2(r.order), want, others, m1);
    m2 := TakeOver(m1, r.page + k, q);
    assert Numbered(m2, next) by {
      SplitNumbered(m, q, next);
      TakeOverNumbered(m1, r.page + k, q, next);
    }
    OldFrame(r, s, want, others, m1, m2);
  }

  /** The frame of an old page that has been split is copied and freed. */
  lemma OldFrame(r: Restore, s: seq<Slot>, want: Contents, others: map<int, Content>, m: Memory, m': Memory)
    requires PageOpen(r) && Filling(r, s, want, others, m) && s[r.pos + r.restored].Page?
    requires var q, f := s[r.pos + r.restored].frame, r.page + r.restored;
             q in m.unit && m.unit[q] == 0 && f in m.content && q in m.content && m' == TakeOver(m, f, q)
    ensures Filling(r.(restored := r.restored + 1), Marked(s, r.pos + r.restored), want, others, m')
  {
    StepPage(s, Marked(s, r.pos + r.restored), r.pos, r.restored, r.page, Pow2(r.order), want, others, m, m');
  }

  /** What the memory is after the next slot has been copied, and that the restore can go on from there. */
  lemma SlotCopied(r: Restore, s: seq<Slot>, want: Contents, others: map<int, Content>, m: Memory, next: int)
    returns (m': Memory)
    requires Numbered(m, next) && PageOpen(r) && Filling(r, s, want, others, m)
    ensures var x, f := s[r.pos + r.restored], r.page + r.restored;
            match x {
              case Handle(h) => h != 0 && h in m.store && f in m.content && m' == ReadBack(m, f, h)
              case Page(q) =>
                UnitAt(m, q) && f in m.content && q in m.content && q in SplitUnit(m, q).unit &&
                SplitUnit(m, q).unit[q] == 0 &&
                m' == TakeOver(SplitUnit(m, q), f, q)
              case Null => m' == m
            }
    ensures Numbered(m', next) &&
            Filling(r.(restored := r.restored + 1), Marked(s, r.pos + r.restored), want, others, m')
  {
    var i := r.pos + r.restored;
    match s[i] {
      case Handle(_) => m' := Backed(r, s, want, others, m, next);
      case Page(_) => m' := OldPage(r, s, want, others, m, next);
      case Null =>
        m' := m;
        StepNull(s, Marked(s, i), r.pos, r.restored, r.page, Pow2(r.order), want, others, m);
    }
  }

  /** `ttm_pool_alloc_find_order`: the largest order up to `highest` that fits into `left` slots. */
  function OrderFor(left: nat, highest: nat): (o: nat)
    requires left > 0
    ensures o <= highest && Pow2(o) <= left && (o == highest || Pow2(o + 1) > left)
  {
    Pow2Monotone(if highest < Log2(left) then highest else Log2(left), Log2(left));
    if highest < Log2(left) then highest else Log2(left)
  }

  /** A request for a page: the slot it is for, and its order. */
  type Request = (nat, nat)

  /**
    What `__ttm_pool_alloc` asks for next, for `n` slots: a smaller page for the same slot, or one that is not larger.
   */
  predicate Follows(x: Request, y: Request, n: nat, e: Faults) {
    x.0 + Pow2(x.1) <= n &&
    if e.noPage(x.0, x.1) then x.1 > 0 && x.0 < n && y == (x.0, OrderFor(n - x.0, x.1 - 1))
    else x.0 + Pow2(x.1) < n && y == (x.0 + Pow2(x.1), OrderFor(n - x.0 - Pow2(x.1), x.1))
  }

  /** The requests of one call that starts at slot `start`, with `next` to come if there is more to do. */
  predicate Requests(t: seq<Request>, start: nat, next: Request, n: nat, e: Faults) {
    (forall i | 0 < i < |t| :: Follows(t[i - 1], t[i], n, e)) &&
    start < n && (if t == [] then next else t[0]) == (start, OrderFor(n - start, MAX_PAGE_ORDER)) &&
    (t != [] && next.0 < n ==> Follows(t[|t| - 1], next, n, e))
  }

  /** The log of requests grew by those of a call that starts at slot `start`, if it came to ask for any. */
  ghost predicate Logged(before: seq<Request>, after: seq<Request>, start: nat, n: nat, e: Faults) {
    after == before ||
    exists t, next :: t != [] && after == before + t && Requests(t, start, next, n, e)
  }

  lemma NoRequests(start: nat, n: nat, e: Faults)
    requires start < n
    ensures Requests([], start, (start, OrderFor(n - start, MAX_PAGE_ORDER)), n, e)
  {}

  lemma RequestsMore(t: seq<Request>, x: Request, start: nat, next: Request, n: nat, e: Faults)
    requires Requests(t, start, x, n, e) && x.0 < n && (next.0 < n ==> Follows(x, next, n, e))
    ensures Requests(t + [x], start, next, n, e)
  {}

  class Tt {
    var slots: seq<Slot>
    var mem: Memory
    var next: int
    var backedUp: bool
    var restore: Option<Restore>
    /** The pages that were asked for */
    ghost var asked: seq<Request>

    /** An object with one page, populated with `c`. */
    constructor Single(c: Content)
      ensures Numbered(mem, next) && slots == [Page(0)] && !backedUp && restore.None?
      ensures BackingUp(slots, 0, [Some(c)], map[], mem)
    {
      slots, mem, next := [Page(0)], Memory(map[0 := c], map[0 := 0], map[]), 1;
      backedUp, restore, asked := false, None, [];
      new;
      assert slots[0] == Page(0) && Named(slots, 0);
      assert Runs(slots, 0, 1, mem.unit) by { assert Pow2(0) == 1; }
      assert Books(slots, 0, 0, map[], mem);
      assert Holds(slots[0], Some(c), mem);
    }

    /** Nothing of the content `want` is lost, wherever it is at the moment. */
    ghost predicate Holding(want: Contents, others: map<int, Content>)
      reads this
    {
      Numbered(mem, next) && |slots| > 0 &&
      if restore.None? then Restoring(slots, 0, 0, 0, 0, want, others, mem)
      else Resumable(restore.value, slots, want, others, mem)
    }

    /** Every slot has a page, populated slots have the content `want`, and nothing else is owned. */
    ghost predicate Whole(want: Contents, others: map<int, Content>)
      reads this
    {
      Numbered(mem, next) && |slots| > 0 && Restored(slots, |slots|, want, mem) && Books(slots, 0, 0, others, mem)
    }

    /** There is nothing left to allocate, whatever the page vector says. */
    predicate AtEnd()
      reads this
    {
      restore.Some? && !PageOpen(restore.value) && restore.value.pos == restore.value.alloced == |slots|
    }

    /** Backed up with the restore state of an earlier cycle still there. */
    ghost predicate LeftOver(want: Contents, others: map<int, Content>)
      reads this
    {
      AtEnd() && Numbered(mem, next) && |slots| > 0 && Restoring(slots, 0, 0, 0, 0, want, others, mem)
    }

    /** There is nothing left to allocate but the page that is being filled. */
    predicate LastPage()
      reads this
    {
      restore.Some? && restore.value.pos + (if PageOpen(restore.value) then Pow2(restore.value.order) else 0) == |slots|
    }

    /** The slot from which on pages are needed once the page that is being filled is done. */
    function Start(): nat
      reads this
    {
      if restore.None? then 0
      else restore.value.pos + if PageOpen(restore.value) then Pow2(restore.value.order) else 0
    }

    /** How many slots have been restored, whether their page is in the page vector yet or not. */
    function Reached(): nat
      reads this
    {
      if restore.None? then 0
      else restore.value.pos + if PageOpen(restore.value) then restore.value.restored else 0
    }

    // ---------- Restoring ----------

    /** Read the handle in slot `i` into frame `f`; may be interrupted or fail. */
    method CopyHandle(e: Faults, i: nat, f: int) returns (err: Errno)
      requires i < |slots| && slots[i].Handle? && f in mem.content && slots[i].handle in mem.store
      modifies this`mem
      ensures mem == if err == Ok && slots[i].handle != 0 then ReadBack(old(mem), f, slots[i].handle) else old(mem)
      ensures Smooth(e) ==> err == Ok
    {
      if e.interrupted(i) { return EINTR; }
      if slots[i].handle == 0 { return Ok; }
      if e.unreadable(i) { return ENOMEM; }
      mem := ReadBack(mem, f, slots[i].handle);
      return Ok;
    }

    /** Copy the old page in slot `i` to frame `f`; the old page is split if need be, and freed. */
    method CopyPage(i: nat, f: int)
      requires i < |slots| && slots[i].Page? && f in mem.content && slots[i].frame in mem.content &&
               UnitAt(mem, slots[i].frame)
      requires SplitUnit(mem, slots[i].frame).unit[slots[i].frame] == 0
      modifies this`mem
      ensures mem == TakeOver(SplitUnit(old(mem), slots[i].frame), f, slots[i].frame)
    {
      mem := SplitUnit(mem, slots[i].frame);
      mem := TakeOver(mem, f, slots[i].frame);
    }

    /** The content of slot `i` goes to the new page, wherever it is. */
    method CopySlot(e: Faults, i: nat, r: Restore, ghost want: Contents, ghost others: map<int, Content>)
      returns (err: Errno)
      requires Numbered(mem, next) && PageOpen(r) && Filling(r, slots, want, others, mem) &&
               i == r.pos + r.restored < |slots|
      modifies this`mem
      ensures Numbered(mem, next)
      ensures if err == Ok then Filling(r.(restored := r.restored + 1), Marked(slots, i), want, others, mem)
              else mem == old(mem)
      ensures Smooth(e) ==> err == Ok
    {
      ghost var m := SlotCopied(r, slots, want, others, mem, next);
      hide Filling;
      hide Numbered;
      err := Ok;
      match slots[i] {
        case Handle(h) => err := CopyHandle(e, i, r.page + r.restored);
        case Page(q) => CopyPage(i, r.page + r.restored);
        case Null =>
      }
      assert err == Ok ==> mem == m;
    }

    /** One round of the loop of `ttm_pool_restore_commit`. */
    method RestoreSlot(e: Faults, r: Restore, ghost want: Contents, ghost others: map<int, Content>)
      returns (err: Errno, r': Restore)
      requires Numbered(mem, next) && PageOpen(r) && Filling(r, slots, want, others, mem)
      modifies this`slots, this`mem
      ensures Numbered(mem, next) && |slots| == |old(slots)| && Filling(r', slots, want, others, mem)
      ensures if err == Ok then r' == r.(restored := r.restored + 1) else r' == r
      ensures Smooth(e) ==> err == Ok
    {
      var i := r.pos + r.restored;
      r' := r;
      err := CopySlot(e, i, r, want, others);
      if err == Ok {
        slots := slots[i := Handle(0)];
        r' := r.(restored := r.restored + 1);
      }
    }

    /** The loop of `ttm_pool_restore_commit`. */
    method FillPage(e: Faults, from: Restore, ghost want: Contents, ghost others: map<int, Content>)
      returns (err: Errno, r: Restore)
      requires Numbered(mem, next) && PageOpen(from) && Filling(from, slots, want, others, mem)
      modifies this`slots, this`mem
      ensures Numbered(mem, next) && |slots| == |old(slots)| && Filling(r, slots, want, others, mem)
      ensures r == from.(restored := r.restored) && (PageOpen(r) <==> err != Ok) && r.restored >= from.restored
      ensures Smooth(e) ==> err == Ok
    {
      r, err := from, Ok;
      while PageOpen(r) && err == Ok
        invariant Numbered(mem, next) && |slots| == |old(slots)| && Filling(r, slots, want, others, mem)
        invariant r == from.(restored := r.restored) && r.restored >= from.restored
        invariant err != Ok ==> PageOpen(r) && !Smooth(e)
        decreases err == Ok, Pow2(r.order) - r.restored
      {
        err, r := RestoreSlot(e, r, want, others);
      }
    }

    /** `ttm_pool_restore_commit`: fill the page, then put it into the page vector. */
    method RestoreCommit(e: Faults, ghost want: Contents, ghost others: map<int, Content>) returns (err: Errno)
      requires Holding(want, others) && restore.Some? && PageOpen(restore.value)
      modifies this`slots, this`mem, this`restore
      ensures Holding(want, others) && restore.Some? && |slots| == |old(slots)|
      ensures err == Ok ==>
                !PageOpen(restore.value) && restore.value.pos == old(restore.value.pos + Pow2(restore.value.order))
      ensures err != Ok ==> restore.value.pos == old(restore.value.pos)
      ensures Smooth(e) ==> err == Ok
      ensures Reached() >= old(Reached())
    {
      var r;
      err, r := FillPage(e, restore.value, want, others);
      if err != Ok {
        GiveUp(r, want, others);
      } else {
        Commit(r, want, others);
      }
    }

    /** A page of which nothing is filled is freed again. */
    method GiveUp(r: Restore, ghost want: Contents, ghost others: map<int, Content>)
      requires Numbered(mem, next) && |slots| > 0 && PageOpen(r) && Filling(r, slots, want, others, mem)
      modifies this`mem, this`restore
      ensures Holding(want, others) && restore.Some? && restore.value.pos == r.pos && Reached() == r.pos + r.restored
    {
      if r.restored == 0 {
        ReturnPage(slots, r.pos, r.page, Pow2(r.order), want, others, mem);
        NumberedLess(mem, Release(mem, r.page), next);
        mem := Release(mem, r.page);
        restore := Some(r.(restored := Pow2(r.order)));
      } else {
        restore := Some(r);
      }
    }

    /** A page that is filled goes into the page vector. */
    method Commit(r: Restore, ghost want: Contents, ghost others: map<int, Content>)
      requires Numbered(mem, next) && |slots| > 0 && !PageOpen(r) && Filling(r, slots, want, others, mem)
      modifies this`slots, this`restore
      ensures Holding(want, others) && |slots| == |old(slots)|
      ensures restore.Some? && !PageOpen(restore.value) && restore.value.pos == r.pos + Pow2(r.order)
    {
      CommitPage(slots, r.pos, r.page, Pow2(r.order), want, others, mem);
      CommitSlots(r.pos, r.page, Pow2(r.order));
      restore := Some(r.(pos := r.pos + Pow2(r.order), alloced := r.alloced + Pow2(r.order)));
    }

    /** `ttm_pool_allocated_page_commit` */
    method CommitSlots(pos: nat, page: int, nr: nat)
      requires pos + nr <= |slots|
      modifies this`slots
      ensures slots == Filled(old(slots), pos, page, nr)
    {
      var i := 0;
      while i < nr
        invariant 0 <= i <= nr && slots == Filled(old(slots), pos, page, i)
      {
        slots := slots[pos + i := Page(page + i)];
        i := i + 1;
      }
    }

    /** One page from a pool or from the system, mapped for DMA if need be; either may fail. */
    method GetPage(e: Faults, order: nat, ghost want: Contents, ghost others: map<int, Content>)
      returns (found: bool, err: Errno)
      requires Holding(want, others) && restore.Some? && !PageOpen(restore.value)
      requires restore.value.pos + Pow2(order) <= |slots|
      modifies this`mem, this`next, this`restore, this`asked
      ensures asked == old(asked) + [(old(restore.value.pos), order)] &&
              (found <==> !e.noPage(old(restore.value.pos), order))
      ensures Holding(want, others) && restore.Some? && restore.value.pos == old(restore.value.pos)
      ensures found && err == Ok <==> PageOpen(restore.value)
      ensures found && err == Ok ==> restore.value.order == order
      ensures Reached() == old(Reached())
      ensures Smooth(e) ==> err == Ok && (order == 0 ==> found)
    {
      asked := asked + [(restore.value.pos, order)];
      if e.noPage(restore.value.pos, order) { return false, Ok; }
      var r, p, junk := restore.value, next, e.junk(restore.value.pos, order);
      NewPage(slots, r.pos, p, order, junk, r.page, want, others, mem);
      NumberedMore(mem, next, order, junk);
      mem := Allocate(mem, p, order, junk);
      next := next + Pow2(order);
      if e.noMapping(r.pos, order) {
        ReturnPage(slots, r.pos, p, Pow2(order), want, others, mem);
        NumberedLess(mem, Release(mem, p), next);
        mem := Release(mem, p);
        NoPage(slots, r.pos, p, r.page, want, others, mem);
        return true, ENOMEM;
      }
      restore := Some(r.(page := p, order := order, restored := 0));
      return true, Ok;
    }

    lemma Done(want: Contents, others: map<int, Content>)
      requires Holding(want, others) && AtEnd()
      ensures Whole(want, others)
    {
      AllRestored(slots, restore.value.page, want, others, mem);
    }

    lemma PosFits(want: Contents, others: map<int, Content>)
      requires Holding(want, others) && restore.Some?
      ensures restore.value.pos <= |slots|
    {}

    /** One round of the loop of `__ttm_pool_alloc`: a page is put into the page vector, or the order goes down. */
    method AllocRound(e: Faults, order: nat, ghost want: Contents, ghost others: map<int, Content>)
      returns (err: Errno, o: nat)
      requires Holding(want, others) && restore.Some? && !PageOpen(restore.value) &&
               restore.value.pos + Pow2(order) <= |slots|
      modifies this`slots, this`mem, this`next, this`restore, this`asked
      ensures Holding(want, others) && restore.Some? && |slots| == |old(slots)|
      ensures asked == old(asked) + [(old(restore.value.pos), order)]
      ensures err == Ok ==> !PageOpen(restore.value) && o <= order && restore.value.pos <= |slots|
      ensures err == Ok ==>
                old(restore.value.pos) < restore.value.pos || (old(restore.value.pos) == restore.value.pos && o < order)
      ensures err == Ok && restore.value.pos < |slots| ==>
                Follows((old(restore.value.pos), order), (restore.value.pos, o), |slots|, e)
      ensures err == Ok && restore.value.pos < |slots| ==> restore.value.pos + Pow2(o) <= |slots|
      ensures Smooth(e) ==> err == Ok
      ensures Reached() >= old(Reached())
    {
      hide Restoring;
      hide Numbered;
      hide Smooth;
      var found;
      o := order;
      found, err := GetPage(e, order, want, others);
      if !found {
        if order == 0 { return ENOMEM, 0; }
        o := order - 1;
        Pow2Monotone(o, order);
      } else if err == Ok {
        err := RestoreCommit(e, want, others);
      }
      PosFits(want, others);
      if err == Ok && restore.value.pos < |slots| { o := OrderFor(|slots| - restore.value.pos, o); }
    }

    /** `__ttm_pool_alloc` while restoring; it asks for pages as large as possible, and not larger than the last one. */
    method AllocPages(e: Faults, ghost want: Contents, ghost others: map<int, Content>)
      returns (err: Errno, ghost trail: seq<Request>, ghost next: Request)
      requires Holding(want, others) && restore.Some? && !PageOpen(restore.value) && restore.value.pos < |slots|
      modifies this`slots, this`mem, this`next, this`restore, this`asked
      ensures |slots| == |old(slots)|
      ensures if err == Ok then restore.None? && Whole(want, others) else restore.Some? && Holding(want, others)
      ensures Smooth(e) ==> if e.noCaching then err == ENOMEM && AtEnd() else err == Ok
      ensures err != Ok ==> Reached() >= old(Reached())
      ensures asked == old(asked) + trail && trail != [] && Requests(trail, old(restore.value.pos), next, |slots|, e)
    {
      hide Smooth;
      hide Restoring;
      hide Numbered;
      hide Follows;
      var order := OrderFor(|slots| - restore.value.pos, MAX_PAGE_ORDER);
      trail, next := [], (restore.value.pos, order);
      NoRequests(restore.value.pos, |slots|, e);
      hide Requests;
      while restore.value.pos < |slots|
        invariant Holding(want, others) && restore.Some? && !PageOpen(restore.value) && |slots| == |old(slots)|
        invariant restore.value.pos < |slots| ==> restore.value.pos + Pow2(order) <= |slots|
        invariant Reached() >= old(Reached()) && restore.value.pos <= |slots|
        invariant asked == old(asked) + trail && Requests(trail, old(restore.value.pos), next, |slots|, e)
        invariant next.0 == restore.value.pos && (next.0 < |slots| ==> next.1 == order)
        invariant trail == [] ==> restore.value.pos < |slots|
        decreases |slots| - restore.value.pos, order
      {
        ghost var t, x := trail, next;
        err, order := AllocRound(e, order, want, others);
        trail := trail + [x];
        next := if err == Ok then (restore.value.pos, order) else (|slots|, 0);
        RequestsMore(t, x, old(restore.value.pos), next, |slots|, e);
        if err != Ok { return; }
      }
      if e.noCaching { return ENOMEM, trail, next; }
      Done(want, others);
      restore := None;
      return Ok, trail, next;
    }

    /**
      `ttm_pool_restore_and_alloc`: any failure leaves a state from which a later call can go on, and the
      first call that succeeds leaves every slot with a page that has the content from before the backup.
      A call that had nothing left to allocate does not clear the restore state.
     */
    method RestoreAndAlloc(e: Faults, ghost want: Contents, ghost others: map<int, Content>) returns (err: Errno)
      requires Holding(want, others) || AtEnd()
      modifies this`slots, this`mem, this`next, this`restore, this`asked
      ensures !backedUp ==> err == EINVAL
      ensures |slots| == |old(slots)|
      ensures old(Holding(want, others)) ==> if err == Ok then Whole(want, others) else Holding(want, others)
      ensures old(Holding(want, others)) && err == Ok ==> if old(LastPage()) then AtEnd() else restore.None?
      ensures old(AtEnd()) && backedUp ==>
                err == Ok && slots == old(slots) && mem == old(mem) && next == old(next) && restore == old(restore)
      ensures old(Holding(want, others) && backedUp) && Smooth(e) ==>
                if e.noCaching && !old(LastPage()) then err == ENOMEM && AtEnd() else err == Ok
      ensures old(Holding(want, others)) && restore.Some? && backedUp ==> Reached() >= old(Reached())
      ensures old(Holding(want, others)) ==> Logged(old(asked), asked, old(Start()), |slots|, e)
    {
      hide Numbered;
      hide Requests;
      hide Restoring;
      hide Whole;
      assert Smooth(e) ==> !e.noMemory;
      hide Smooth;
      if !backedUp { return EINVAL; }
      if restore.None? {
        if e.noMemory { return ENOMEM; }
        restore := Some(Restore(0, 0, 0, 1, 0));
        assert Pow2(0) == 1;
      } else {
        if PageOpen(restore.value) {
          err := RestoreCommit(e, want, others);
          if err != Ok { return err; }
        }
        if Holding(want, others) { PosFits(want, others); }
        if restore.value.pos == |slots| {
          if Holding(want, others) { Done(want, others); }
          return Ok;
        }
      }
      ghost var trail, upcoming;
      err, trail, upcoming := AllocPages(e, want, others);
    }

    // ---------- Dropping ----------

    /** One round of the loop of `ttm_pool_free_range`: the unit or handle in slot `i`. */
    method FreeSlot(i: nat, hi: nat, ghost left: seq<Slot>, ghost others: map<int, Content>, ghost u: map<int, nat>)
      returns (nr: nat)
      requires |left| == |slots| && i < hi && Freeing(left, i, hi, others, mem, u) && left[i] == slots[i]
      modifies this`mem
      ensures 0 < nr && i + nr <= hi && Freeing(Cleared(left, i, i + nr), i + nr, hi, others, mem, u)
    {
      if slots[i].Page? {
        FreeingRun(left, i, hi, others, mem, u);
        nr := Pow2(mem.unit[slots[i].frame]);
        mem := Release(mem, slots[i].frame);
      } else {
        ghost var m := mem;
        if slots[i].Handle? && slots[i].handle != 0 { mem := mem.(store := mem.store - {slots[i].handle}); }
        FreeingSkip(left, i, hi, others, m, mem, u);
        nr := 1;
        assert Cleared(left, i, i + 1) == left[i := Null];
      }
    }

    /** `ttm_pool_free_range`: `left` is the page vector without what has been freed. */
    method FreeRange(lo: nat, hi: nat, ghost left: seq<Slot>, ghost others: map<int, Content>)
      returns (ghost gone: seq<Slot>)
      requires |left| == |slots| && Freeing(left, lo, hi, others, mem, mem.unit)
      requires forall i | lo <= i < hi :: left[i] == slots[i]
      modifies this`mem
      ensures gone == Cleared(left, lo, hi) && Freeing(gone, hi, hi, others, mem, old(mem.unit))
    {
      var i := lo;
      gone := left;
      while i < hi
        invariant lo <= i <= hi && gone == Cleared(left, lo, i) && Freeing(gone, i, hi, others, mem, old(mem.unit))
      {
        assert gone[i] == slots[i];
        var nr := FreeSlot(i, hi, gone, others, old(mem.unit));
        ClearedMore(left, lo, i, i + nr);
        gone := Cleared(gone, i, i + nr);
        i := i + nr;
      }
    }

    /**
      `ttm_pool_drop_backed_up`: whatever state a backup or a restore was left in, every page and every
      handle is released, once, and nothing that belongs to others is touched.
     */
    method DropBackedUp(ghost want: Contents, ghost others: map<int, Content>)
      requires Holding(want, others) || LeftOver(want, others)
      modifies this`mem, this`restore
      ensures restore.None? && mem.content == others && mem.store == map[]
    {
      if restore.Some? {
        DropRestore(want, others);
      } else {
        DropIdle(slots, 0, 0, want, others, mem);
        ghost var left := FreeRange(0, |slots|, slots, others);
        AllGone(left, 0, others, mem);
      }
    }

    /** The uncommitted page of an unfinished restore. */
    method DropPage(ghost want: Contents, ghost others: map<int, Content>)
      requires (Holding(want, others) || LeftOver(want, others)) && restore.Some?
      modifies this`mem
      ensures restore.value.alloced <= |slots| && Freeing(slots, 0, restore.value.alloced, others, mem, mem.unit)
      ensures Runs(slots, restore.value.alloced, |slots|, mem.unit)
    {
      var r := restore.value;
      if PageOpen(r) {
        DropOpen(slots, r.pos, r.restored, r.page, Pow2(r.order), want, others, mem);
        mem := Release(mem, r.page);
      } else if Holding(want, others) {
        DropIdle(slots, r.pos, r.page, want, others, mem);
      } else {
        DropIdle(slots, 0, 0, want, others, mem);
      }
    }

    /** An unfinished restore: its page, what has been restored and what has not. */
    method DropRestore(ghost want: Contents, ghost others: map<int, Content>)
      requires (Holding(want, others) || LeftOver(want, others)) && restore.Some?
      modifies this`mem, this`restore
      ensures restore.None? && mem.content == others && mem.store == map[]
    {
      DropPage(want, others);
      var start := restore.value.alloced;
      ghost var u := mem.unit;
      ghost var left := FreeRange(0, start, slots, others);
      DropRest(slots, left, start, others, mem, u);
      left := FreeRange(start, |slots|, left, others);
      AllGone(left, 0, others, mem);
      restore := None;
    }

    // ---------- Backing up ----------

    /** One page of the loop of `ttm_pool_backup`. */
    method BackupPage(e: Troubles, i: nat, ghost want: Contents, ghost others: map<int, Content>) returns (ok: bool)
      requires Numbered(mem, next) && BackingUp(slots, i, want, others, mem) && i < |slots| && slots[i].Page?
      modifies this`slots, this`mem
      ensures Numbered(mem, next) && |slots| == |old(slots)|
      ensures BackingUp(slots, if ok then i + 1 else i, want, others, mem)
      ensures slots == if ok then old(slots)[i := Handle(i + 1)] else old(slots)
      ensures ok <==> !e.full(i)
    {
      var q := slots[i].frame;
      BackupSplits(slots, i, want, others, mem);
      NumberedLess(mem, SplitUnit(mem, q), next);
      assert InSpan(q, q, Pow2(mem.unit[q]));
      mem := SplitUnit(mem, q);
      ok := !e.full(i);
      if ok {
        BackupStep(slots, i, want, others, mem);
        NumberedLess(mem, BackUp(mem, i, q), next);
        mem := BackUp(mem, i, q);
        slots := slots[i := Handle(i + 1)];
      }
    }

    /** How many slots a backup looks at: injected faults make it half of them. */
    function Extent(n: nat, e: Troubles): nat { if e.halve then (n + 1) / 2 else n }

    /** The first slot whose page the backup has no room for, or else where it ends. */
    ghost predicate StopsAt(s: seq<Slot>, e: Troubles, k: nat) {
      k <= Extent(|s|, e) && (forall i | 0 <= i < k :: s[i].Page? ==> !e.full(i)) &&
      (k < Extent(|s|, e) ==> s[k].Page? && e.full(k))
    }

    /** The loop of `ttm_pool_backup`. */
    method BackupAll(e: Troubles, ghost want: Contents, ghost others: map<int, Content>) returns (shrunken: nat, k: nat)
      requires Numbered(mem, next) && BackingUp(slots, 0, want, others, mem)
      modifies this`slots, this`mem
      ensures Numbered(mem, next) && BackingUp(slots, k, want, others, mem)
      ensures StopsAt(old(slots), e, k) && slots == BackedUpTo(old(slots), k) && shrunken == PagesBelow(old(slots), k)
    {
      hide Numbered;
      hide Books;
      hide Untouched;
      var num := if e.halve then (|slots| + 1) / 2 else |slots|;
      var ok := true;
      shrunken, k := 0, 0;
      while k < num && ok
        invariant 0 <= k <= num <= |slots| == |old(slots)| && Numbered(mem, next) &&
                  BackingUp(slots, k, want, others, mem)
        invariant slots == BackedUpTo(old(slots), k) && shrunken == PagesBelow(old(slots), k)
        invariant forall j | 0 <= j < k :: old(slots)[j].Page? ==> !e.full(j)
        invariant !ok ==> k < num && old(slots)[k].Page? && e.full(k)
        decreases ok, num - k
      {
        BackedUpMore(old(slots), k);
        if slots[k] == Null {
          BackupSkips(slots, k, want, others, mem);
        } else {
          ok := BackupPage(e, k, want, others);
          if ok { shrunken := shrunken + 1; }
        }
        if ok { k := k + 1; }
      }
    }

    /**
      `ttm_pool_backup` without purging: all pages are backed up, up to the first one that cannot be, and their number
      is returned.
     */
    method Backup(e: Troubles, ghost want: Contents, ghost others: map<int, Content>)
      returns (err: Errno, shrunken: nat, ghost k: nat)
      requires !backedUp ==> Numbered(mem, next) && |slots| > 0 && BackingUp(slots, 0, want, others, mem)
      modifies this`slots, this`mem
      ensures !backedUp ==>
                Numbered(mem, next) && |slots| == |old(slots)| && Restoring(slots, 0, 0, 0, 0, want, others, mem)
      ensures backedUp ==> err == EINVAL && slots == old(slots) && mem == old(mem) && shrunken == 0
      ensures !backedUp && e.busy ==> err == EBUSY && slots == old(slots) && mem == old(mem) && shrunken == 0
      ensures !backedUp && !e.busy ==>
                StopsAt(old(slots), e, k) && slots == BackedUpTo(old(slots), k) &&
                shrunken == PagesBelow(old(slots), k) &&
                err == if shrunken > 0 || k == Extent(|slots|, e) then Ok else ENOMEM
    {
      hide Restoring;
      hide Numbered;
      hide BackingUp;
      k := 0;
      if backedUp { return EINVAL, 0, 0; }
      BackupEnds(slots, 0, want, others, mem);
      if e.busy { return EBUSY, 0, 0; }
      var i;
      shrunken, i := BackupAll(e, want, others);
      BackupEnds(slots, i, want, others, mem);
      k := i;
      err := if shrunken > 0 || i == (if e.halve then (|slots| + 1) / 2 else |slots|) then Ok else ENOMEM;
    }

    // ---------- Cycles ----------

    /** `ttm_tt_backup` */
    method TtBackup(e: Troubles, ghost want: Contents, ghost others: map<int, Content>)
      returns (err: Errno, shrunken: nat)
      requires !backedUp ==> Numbered(mem, next) && |slots| > 0 && BackingUp(slots, 0, want, others, mem)
      modifies this`slots, this`mem, this`backedUp
      ensures !old(backedUp) ==>
                Numbered(mem, next) && |slots| == |old(slots)| && Restoring(slots, 0, 0, 0, 0, want, others, mem)
      ensures (old(backedUp) <==> err == EINVAL) &&
              (old(backedUp) ==> slots == old(slots) && mem == old(mem) && shrunken == 0)
      ensures shrunken > 0 ==> backedUp && exists i :: 0 <= i < |slots| && slots[i].Handle?
      ensures shrunken == 0 ==> backedUp == old(backedUp) && slots == old(slots)
      ensures Calm(e) && !old(backedUp) && old(|slots| > 0 && slots[0].Page?) ==> shrunken > 0
      ensures Calm(e) && !old(backedUp) && !e.halve ==>
                slots == BackedUpTo(old(slots), |slots|) && shrunken == PagesBelow(old(slots), |slots|)
    {
      ghost var k;
      ghost var s := slots;
      err, shrunken, k := Backup(e, want, others);
      if shrunken > 0 {
        backedUp := true;
        SomePage(s, k);
      } else if !backedUp && !e.busy {
        NoPageBelow(s, k);
        if s[0].Page? && k > 0 { FirstPage(s, k); }
      }
    }

    /** `ttm_tt_restore` */
    method TtRestore(e: Faults, ghost want: Contents, ghost others: map<int, Content>) returns (err: Errno)
      requires Holding(want, others) || AtEnd()
      modifies this`slots, this`mem, this`next, this`restore, this`asked, this`backedUp
      ensures |slots| == |old(slots)| && backedUp == (old(backedUp) && err != Ok)
      ensures old(Holding(want, others)) ==> if err == Ok then Whole(want, others) else Holding(want, others)
      ensures old(Holding(want, others)) && err == Ok ==> if old(LastPage()) then AtEnd() else restore.None?
      ensures old(AtEnd() && backedUp) ==>
                err == Ok && slots == old(slots) && mem == old(mem) && next == old(next) && restore == old(restore)
      ensures old(Holding(want, others) && backedUp) && Smooth(e) ==>
                if e.noCaching && !old(LastPage()) then err == ENOMEM && AtEnd() else err == Ok
      ensures old(Holding(want, others)) && restore.Some? && backedUp ==> Reached() >= old(Reached())
      ensures old(Holding(want, others)) ==> Logged(old(asked), asked, old(Start()), |slots|, e)
    {
      err := RestoreAndAlloc(e, want, others);
      if err == Ok { backedUp := false; }
    }

    /**
      One cycle: a backup that may be partial, then restores until one succeeds or the caller gives up and
      drops the object. In the first case all content is back, in the second one nothing is left behind.
     */
    method Cycle(t: Troubles, es: seq<Faults>, ghost want: Contents, ghost others: map<int, Content>)
      returns (kept: bool)
      requires Numbered(mem, next) && |slots| > 0 && restore.None? && !backedUp &&
               BackingUp(slots, 0, want, others, mem)
      modifies this
      ensures kept ==> !backedUp && (Whole(want, others) || (slots == old(slots) && Holding(want, others)))
      ensures !kept ==> mem.content == others && mem.store == map[] && restore.None?
      ensures forall i | 0 <= i < |es| && Smooth(es[i]) && (es[i].noCaching ==> i + 1 < |es|) :: kept
    {
      hide Restoring;
      hide Numbered;
      hide BackingUp;
      hide Smooth;
      var err, shrunken := TtBackup(t, want, others);
      if shrunken == 0 { return true; }
      var i := 0;
      while i < |es|
        invariant 0 <= i <= |es| && Holding(want, others) && backedUp
        invariant forall j | 0 <= j < i && Smooth(es[j]) :: j + 1 == i && es[j].noCaching && AtEnd()
      {
        err := TtRestore(es[i], want, others);
        if err == Ok { return true; }
        i := i + 1;
      }
      DropBackedUp(want, others);
      return false;
    }

    /**
      A cycle after another one has ended: if the backup has taken anything, then a restore that reports success
      has brought the content back if and only if the earlier cycle has cleared the restore state.
     */
    method NextCycle(t: Troubles, e: Faults, ghost want: Contents, ghost others: map<int, Content>)
      returns (err: Errno, shrunken: nat)
      requires Whole(want, others) && (restore.None? || AtEnd()) && !backedUp
      modifies this
      ensures Calm(t) ==> shrunken > 0
      ensures shrunken > 0 && old(AtEnd()) ==>
                err == Ok && !backedUp && exists i :: 0 <= i < |slots| && slots[i].Handle?
      ensures shrunken > 0 && err == Ok ==> (Whole(old(Now(slots, mem)), others) <==> old(restore.None?))
      ensures shrunken > 0 && old(AtEnd()) ==> LeftOver(old(Now(slots, mem)), others)
    {
      ReadyForBackup(slots, want, others, mem);
      ghost var now := Now(slots, mem);
      err, shrunken := TtBackup(t, now, others);
      if shrunken > 0 { err := TtRestore(e, now, others); }
    }
  }

  /** A backup that has taken anything, be it only part of the pages, cannot be tried again for the rest. */
  method NoSecondTry(tt: Tt, first: Troubles, second: Troubles, ghost want: Contents, ghost others: map<int, Content>)
    returns (err: Errno)
    requires Numbered(tt.mem, tt.next) && |tt.slots| > 0 && !tt.backedUp && BackingUp(tt.slots, 0, want, others, tt.mem)
    modifies tt
    ensures err == EINVAL <==> tt.backedUp
    ensures Calm(first) && old(tt.slots[0].Page?) ==> err == EINVAL
  {
    var shrunken: nat;
    err, shrunken := tt.TtBackup(first, want, others);
    if shrunken > 0 { err, shrunken := tt.TtBackup(second, want, others); }
  }

  /**
    A cycle that ends with the restore state still there: the restore fails over the caching attributes and is
    tried again.
   */
  method EndsUncleared(c: Content, t: Troubles, e: Faults) returns (tt: Tt)
    requires Calm(t) && Smooth(e) && e.noCaching
    ensures fresh(tt) && tt.Whole([Some(c)], map[]) && tt.AtEnd() && !tt.backedUp
  {
    tt := new Tt.Single(c);
    ghost var want: Contents := [Some(c)];
    var err, shrunken := tt.TtBackup(t, want, map[]);
    err := tt.TtRestore(e, want, map[]);
    err := tt.TtRestore(e, want, map[]);
  }

  /** After such a cycle the next one loses its content: the restore succeeds, and a slot still names the backup. */
  method Loses(c: Content, t: Troubles, e: Faults) returns (tt: Tt, err: Errno)
    requires Calm(t) && Smooth(e) && e.noCaching
    ensures err == Ok && !tt.backedUp && (exists i :: 0 <= i < |tt.slots| && tt.slots[i].Handle?)
  {
    var shrunken: nat;
    tt := EndsUncleared(c, t, e);
    err, shrunken := tt.NextCycle(t, e, [Some(c)], map[]);
  }
}
