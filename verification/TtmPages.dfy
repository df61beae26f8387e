/**
  Page frames, backup handles and the page vector of a `ttm_tt`.

  Pages come in units of a power of two frames; `unit` maps the first frame of each unit to its
  order, which is what `page->private` records. A frame is live while `content` has an entry for
  it, a handle while `store` has one. The handle of a page is its index plus one.
 */
module TtmPages {
  import opened Common
  import opened Powers

  type Content = int

  /** An entry of the page vector: `NULL`, a handle (0 stands for "already read back") or a page. */
  datatype Slot = Null | Handle(handle: nat) | Page(frame: int)

  datatype Memory = Memory(content: map<int, Content>, unit: map<int, nat>, store: map<nat, Content>)

  // ---------- The page allocator and the backup store ----------

  /** `f` is one of the `n` frames from `q` on. */
  predicate InSpan(f: int, q: int, n: nat) { q <= f < q + n }

  ghost predicate Live(m: Memory, q: int, n: nat) { forall f | InSpan(f, q, n) :: f in m.content }

  function Junk(q: int, n: nat, junk: Content): (r: map<int, Content>)
    ensures forall f :: f in r <==> InSpan(f, q, n)
  {
    if n == 0 then map[] else Junk(q, n - 1, junk)[q + n - 1 := junk]
  }

  /** `q` is the first frame of a live unit. */
  ghost predicate UnitAt(m: Memory, q: int) {
    q in m.unit && Live(m, q, Pow2(m.unit[q]))
  }

  function Allocate(m: Memory, q: int, order: nat, junk: Content): Memory {
    Memory(m.content + Junk(q, Pow2(order), junk), m.unit[q := order], m.store)
  }

  function Without(c: map<int, Content>, q: int, n: nat): map<int, Content> {
    map f | f in c && !InSpan(f, q, n) :: c[f]
  }

  /** `__free_pages`; freeing what is not a live unit is not possible. */
  function Release(m: Memory, q: int): Memory
    requires UnitAt(m, q)
  {
    Memory(Without(m.content, q, Pow2(m.unit[q])), m.unit - {q}, m.store)
  }

  /** `split_page` */
  function SplitUnit(m: Memory, q: int): Memory
    requires UnitAt(m, q)
  {
    var n := Pow2(m.unit[q]);
    m.(unit := map f | f in m.unit.Keys + m.content.Keys && (f in m.unit || InSpan(f, q, n)) ::
       if InSpan(f, q, n) then 0 else m.unit[f])
  }

  function Write(m: Memory, f: int, c: Content): Memory
    requires f in m.content
  {
    m.(content := m.content[f := c])
  }

  // ---------- What the page vector says ----------

  /** The slots `[lo, hi)` name whole units, frame by frame, handles and nothing else. */
  predicate Runs(s: seq<Slot>, lo: nat, hi: nat, unit: map<int, nat>)
    requires lo <= hi <= |s|
    decreases hi - lo
  {
    lo == hi ||
    if s[lo].Page? then
      s[lo].frame in unit && lo + Pow2(unit[s[lo].frame]) <= hi &&
      (forall i | lo <= i < lo + Pow2(unit[s[lo].frame]) :: s[i] == Page(s[lo].frame + i - lo)) &&
      Runs(s, lo + Pow2(unit[s[lo].frame]), hi, unit)
    else Runs(s, lo + 1, hi, unit)
  }

  predicate Named(s: seq<Slot>, f: int) { Page(f) in s }

  predicate Distinct(s: seq<Slot>) {
    forall i, j {:trigger Pair(i, j)} | 0 <= i < j < |s| && s[i].Page? && Pair(i, j) :: s[i] != s[j]
  }

  lemma OneSlot(s: seq<Slot>, i: nat)
    requires Distinct(s) && i < |s| && s[i].Page?
    ensures forall j | 0 <= j < |s| && j != i && s[j].Page? :: s[j].frame != s[i].frame
  {
    forall j | 0 <= j < |s| && j != i && s[j].Page? ensures s[j].frame != s[i].frame {
      assert Pair(i, j) || Pair(j, i);
    }
  }

  /** Every live frame has one owner: somebody else, the uncommitted page, or one slot. */
  ghost predicate Frames(s: seq<Slot>, page: int, n: nat, others: map<int, Content>, content: map<int, Content>) {
    (forall i | 0 <= i < |s| && s[i].Page? ::
       s[i].frame in content && s[i].frame !in others && !InSpan(s[i].frame, page, n)) &&
    (forall f | InSpan(f, page, n) :: f in content && f !in others) &&
    (forall f | f in others :: f in content && content[f] == others[f]) &&
    (forall f {:trigger Named(s, f)} | f in content :: f in others || InSpan(f, page, n) || Named(s, f)) &&
    Distinct(s)
  }

  /** Slot `h - 1` names the handle `h`. */
  predicate Kept(s: seq<Slot>, h: nat) { 0 < h <= |s| && s[h - 1] == Handle(h) }

  /** Every live handle is named by the one slot it belongs to. */
  ghost predicate Handles(s: seq<Slot>, store: map<nat, Content>) {
    (forall i | 0 <= i < |s| && s[i].Handle? && s[i].handle != 0 :: s[i].handle == i + 1 && i + 1 in store) &&
    (forall h: nat {:trigger Kept(s, h)} | h in store :: Kept(s, h))
  }

  type Contents = seq<Option<Content>>

  /** The slot holds the content `w`, in a page or in the backup. */
  predicate Holds(x: Slot, w: Option<Content>, m: Memory) {
    match x
    case Null => w == None
    case Handle(h) => h != 0 && h in m.store && w == Some(m.store[h])
    case Page(f) => f in m.content && w == Some(m.content[f])
  }

  /** Slots from `lo` on are as the backup left them. */
  predicate Untouched(s: seq<Slot>, lo: nat, want: Contents, m: Memory) {
    lo <= |s| == |want| && Runs(s, lo, |s|, m.unit) && forall i | lo <= i < |s| :: Holds(s[i], want[i], m)
  }

  /** Slots below `hi` have new pages with the content restored. */
  predicate Restored(s: seq<Slot>, hi: nat, want: Contents, m: Memory) {
    hi <= |s| == |want| && Runs(s, 0, hi, m.unit) &&
    forall i | 0 <= i < hi ::
      s[i].Page? && s[i].frame in m.content && (want[i].Some? ==> m.content[s[i].frame] == want[i].value)
  }

  /** The first `k` frames of the new page have the content of the `k` slots from `lo` on. */
  predicate Copied(s: seq<Slot>, lo: nat, k: nat, page: int, want: Contents, m: Memory) {
    lo + k <= |s| == |want| &&
    forall i | lo <= i < lo + k ::
      s[i] == Handle(0) && page + i - lo in m.content && (want[i].Some? ==> m.content[page + i - lo] == want[i].value)
  }

  // ---------- Runs ----------

  /** Only the orders of the first frames matter. */
  lemma {:induction false} RunsSame(s: seq<Slot>, t: seq<Slot>, lo: nat, hi: nat, u: map<int, nat>, v: map<int, nat>)
    requires lo <= hi <= |s| == |t| && Runs(s, lo, hi, u)
    requires forall i | lo <= i < hi :: t[i] == s[i]
    requires forall i | lo <= i < hi && s[i].Page? && s[i].frame in u ::
               s[i].frame in v && v[s[i].frame] == u[s[i].frame]
    ensures Runs(t, lo, hi, v)
    decreases hi - lo
  {
    if lo < hi {
      var next := if s[lo].Page? then lo + Pow2(u[s[lo].frame]) else lo + 1;
      RunsSame(s, t, next, hi, u, v);
    }
  }

  /** Single frames in a row, up to `mid`, followed by runs. */
  lemma {:induction false} RunsSingles(s: seq<Slot>, lo: nat, mid: nat, hi: nat, u: map<int, nat>)
    requires lo <= mid <= hi <= |s| && Runs(s, mid, hi, u)
    requires forall i | lo <= i < mid :: s[i].Page? && s[i].frame in u && u[s[i].frame] == 0
    ensures Runs(s, lo, hi, u)
    decreases mid - lo
  {
    if lo < mid {
      RunsSingles(s, lo + 1, mid, hi, u);
      assert Pow2(0) == 1;
    }
  }

  lemma {:induction false} RunsJoin(s: seq<Slot>, lo: nat, mid: nat, hi: nat, u: map<int, nat>)
    requires lo <= mid <= hi <= |s| && Runs(s, lo, mid, u) && Runs(s, mid, hi, u)
    ensures Runs(s, lo, hi, u)
    decreases mid - lo
  {
    if lo < mid { RunsJoin(s, if s[lo].Page? then lo + Pow2(u[s[lo].frame]) else lo + 1, mid, hi, u); }
  }

  // ---------- Restoring, one slot at a time ----------

  /**
    A restore has committed `pos` slots and copied `k` of the `n` frames of the page `page`, which is
    not committed yet; `n` is zero if there is no such page.
   */
  ghost predicate Restoring(s: seq<Slot>, pos: nat, k: nat, page: int, n: nat, want: Contents,
                            others: map<int, Content>, m: Memory)
  {
    match m
    case Memory(_, unit, _) =>
      Progress(s, pos, k, page, want, m) && Books(s, page, n, others, m) && k <= n &&
      (n > 0 ==> page in unit && n == Pow2(unit[page]) && pos + n <= |s|)
  }

  predicate Progress(s: seq<Slot>, pos: nat, k: nat, page: int, want: Contents, m: Memory) {
    Restored(s, pos, want, m) && Copied(s, pos, k, page, want, m) && Untouched(s, pos + k, want, m)
  }

  ghost predicate Books(s: seq<Slot>, page: int, n: nat, others: map<int, Content>, m: Memory) {
    match m
    case Memory(content, _, store) => Frames(s, page, n, others, content) && Handles(s, store)
  }

  function Marked(s: seq<Slot>, i: nat): seq<Slot>
    requires i < |s|
  {
    s[i := Handle(0)]
  }

  /** Marking a slot whose page or handle is gone. */
  lemma FramesMarked(s: seq<Slot>, i: nat, page: int, n: nat, others: map<int, Content>, c: map<int, Content>,
                     c': map<int, Content>)
    requires i < |s| && Frames(s, page, n, others, c)
    requires c'.Keys == if s[i].Page? then c.Keys - {s[i].frame} else c.Keys
    requires forall f | f in others :: f in c' ==> c'[f] == c[f]
    ensures Frames(Marked(s, i), page, n, others, c')
  {
    var t := Marked(s, i);
    if s[i].Page? { OneSlot(s, i); }
    forall f | f in c' ensures f in others || InSpan(f, page, n) || Named(t, f) {
      if Named(s, f) {
        var j :| 0 <= j < |s| && s[j] == Page(f);
        assert t[j] == Page(f);
      }
    }
  }

  lemma HandlesMarked(s: seq<Slot>, i: nat, store: map<nat, Content>)
    requires i < |s| && Handles(s, store)
    ensures Handles(Marked(s, i), store - {i + 1})
  {
    var t := Marked(s, i);
    forall h: nat | h in store - {i + 1} ensures Kept(t, h) { assert Kept(s, h); }
  }

  /** The committed part does not depend on what happens elsewhere. */
  lemma RestoredStays(s: seq<Slot>, t: seq<Slot>, hi: nat, want: Contents, m: Memory, m': Memory)
    requires Restored(s, hi, want, m) && |t| == |s| && forall i | 0 <= i < hi :: t[i] == s[i]
    requires forall i | 0 <= i < hi && s[i].Page? ::
               s[i].frame in m'.content && m'.content[s[i].frame] == m.content[s[i].frame]
    requires forall i | 0 <= i < hi && s[i].Page? && s[i].frame in m.unit ::
               s[i].frame in m'.unit && m'.unit[s[i].frame] == m.unit[s[i].frame]
    ensures Restored(t, hi, want, m')
  {
    RunsSame(s, t, 0, hi, m.unit, m'.unit);
  }

  lemma UntouchedStays(s: seq<Slot>, t: seq<Slot>, lo: nat, want: Contents, m: Memory, m': Memory)
    requires Untouched(s, lo, want, m) && |t| == |s| && forall i | lo <= i < |s| :: t[i] == s[i]
    requires forall i | lo <= i < |s| && s[i].Page? ::
               s[i].frame in m'.content && m'.content[s[i].frame] == m.content[s[i].frame]
    requires forall i | lo <= i < |s| && s[i].Page? && s[i].frame in m.unit ::
               s[i].frame in m'.unit && m'.unit[s[i].frame] == m.unit[s[i].frame]
    requires forall i | lo <= i < |s| && s[i].Handle? ::
               s[i].handle in m'.store && m'.store[s[i].handle] == m.store[s[i].handle]
    ensures Untouched(t, lo, want, m')
  {
    RunsSame(s, t, lo, |s|, m.unit, m'.unit);
    forall i | lo <= i < |t| ensures Holds(t[i], want[i], m') { assert Holds(s[i], want[i], m); }
  }

  lemma UntouchedNext(s: seq<Slot>, lo: nat, want: Contents, m: Memory)
    requires Untouched(s, lo, want, m) && lo < |s| && !s[lo].Page?
    ensures Untouched(s, lo + 1, want, m)
  {}

  /** One more frame of the new page is filled. */
  lemma CopiedMore(s: seq<Slot>, lo: nat, k: nat, page: int, want: Contents, m: Memory, m': Memory)
    requires Copied(s, lo, k, page, want, m) && lo + k < |s|
    requires forall f | InSpan(f, page, k) :: f in m.content && f in m'.content && m'.content[f] == m.content[f]
    requires page + k in m'.content && (want[lo + k].Some? ==> m'.content[page + k] == want[lo + k].value)
    ensures Copied(Marked(s, lo + k), lo, k + 1, page, want, m')
  {
    var t := Marked(s, lo + k);
    forall i | lo <= i < lo + k + 1
      ensures t[i] == Handle(0) && page + i - lo in m'.content &&
              (want[i].Some? ==> m'.content[page + i - lo] == want[i].value)
    {
      if i < lo + k { assert s[i] == Handle(0) && InSpan(page + i - lo, page, k); }
    }
  }

  /** What is known about frames and handles of other slots after slot `i` was dealt with. */
  ghost predicate Elsewhere(s: seq<Slot>, i: nat, page: int, k: nat, m: Memory, m': Memory) {
    (forall j | 0 <= j < |s| && j != i && s[j].Page? && s[j].frame in m.content ::
       s[j].frame in m'.content && m'.content[s[j].frame] == m.content[s[j].frame]) &&
    (forall f | InSpan(f, page, k) && f in m.content :: f in m'.content && m'.content[f] == m.content[f])
  }

  /** One slot on: slot `pos + k` was copied, the slots behind it are as they were. */
  lemma ProgressStep(s: seq<Slot>, pos: nat, k: nat, page: int, want: Contents, m: Memory, m': Memory)
    requires Progress(s, pos, k, page, want, m) && pos + k < |s| && Elsewhere(s, pos + k, page, k, m, m')
    requires forall j | 0 <= j < pos && s[j].Page? && s[j].frame in m.unit ::
               s[j].frame in m'.unit && m'.unit[s[j].frame] == m.unit[s[j].frame]
    requires Untouched(s, pos + k + 1, want, m')
    requires Live(m, page, k)
    requires page + k in m'.content && (want[pos + k].Some? ==> m'.content[page + k] == want[pos + k].value)
    ensures Progress(Marked(s, pos + k), pos, k + 1, page, want, m')
  {
    var i := pos + k;
    CopiedMore(s, pos, k, page, want, m, m');
    RestoredStays(s, Marked(s, i), pos, want, m, m');
    UntouchedStays(s, Marked(s, i), i + 1, want, m', m');
  }

  lemma SpanLive(s: seq<Slot>, page: int, n: nat, others: map<int, Content>, m: Memory, k: nat)
    requires Books(s, page, n, others, m) && k < n
    ensures Live(m, page, n) && InSpan(page + k, page, n)
    ensures forall j | 0 <= j < |s| && s[j].Page? :: !InSpan(s[j].frame, page, n) && s[j].frame in m.content
  {}

  // An empty slot: whatever is in the new page takes its place.

  lemma NullBooks(s: seq<Slot>, i: nat, page: int, n: nat, others: map<int, Content>, m: Memory)
    requires Books(s, page, n, others, m) && i < |s| && s[i] == Null
    ensures Books(Marked(s, i), page, n, others, m)
  {
    FramesMarked(s, i, page, n, others, m.content, m.content);
    HandlesMarked(s, i, m.store);
    assert !Kept(s, i + 1);
    assert m.store - {i + 1} == m.store;
  }

  lemma NullProgress(s: seq<Slot>, pos: nat, k: nat, page: int, want: Contents, m: Memory)
    requires Progress(s, pos, k, page, want, m) && pos + k < |s| && s[pos + k] == Null
    requires Live(m, page, k) && page + k in m.content
    ensures Progress(Marked(s, pos + k), pos, k + 1, page, want, m)
  {
    assert Holds(s[pos + k], want[pos + k], m);
    UntouchedNext(s, pos + k, want, m);
    ProgressStep(s, pos, k, page, want, m, m);
  }

  // A handle: its content is read into the new page, then the handle is dropped.

  function ReadBack(m: Memory, f: int, h: nat): Memory
    requires f in m.content && h in m.store
  {
    m.(content := m.content[f := m.store[h]], store := m.store - {h})
  }

  lemma HandleBooks(s: seq<Slot>, i: nat, f: int, page: int, n: nat, others: map<int, Content>, m: Memory)
    requires Books(s, page, n, others, m) && i < |s| && s[i] == Handle(i + 1) && InSpan(f, page, n)
    ensures f in m.content && i + 1 in m.store && Books(Marked(s, i), page, n, others, ReadBack(m, f, i + 1))
  {
    FramesMarked(s, i, page, n, others, m.content, m.content[f := m.store[i + 1]]);
    HandlesMarked(s, i, m.store);
  }

  lemma HandleProgress(s: seq<Slot>, pos: nat, k: nat, page: int, n: nat, want: Contents, m: Memory)
    requires Progress(s, pos, k, page, want, m) && k < n && pos + k < |s| && s[pos + k] == Handle(pos + k + 1) &&
             Handles(s, m.store)
    requires Live(m, page, n)
    requires forall j | 0 <= j < |s| && s[j].Page? :: !InSpan(s[j].frame, page, n)
    ensures pos + k + 1 in m.store &&
            Progress(Marked(s, pos + k), pos, k + 1, page, want, ReadBack(m, page + k, pos + k + 1))
  {
    var i := pos + k;
    var m' := ReadBack(m, page + k, i + 1);
    assert Holds(s[i], want[i], m);
    assert InSpan(page + k, page, n);
    UntouchedNext(s, i, want, m);
    UntouchedStays(s, s, i + 1, want, m, m');
    ProgressStep(s, pos, k, page, want, m, m');
  }

  // An old page: its unit is split so that single frames can be freed, the frame is copied and freed.

  /** The frames of the run at `lo` are named by that run and by no other slot. */
  lemma RunIsOwn(s: seq<Slot>, lo: nat, hi: nat, u: map<int, nat>, j: nat)
    requires lo < hi <= |s| && Runs(s, lo, hi, u) && s[lo].Page? && Distinct(s) && j < |s| && s[j].Page?
    requires InSpan(s[j].frame, s[lo].frame, Pow2(u[s[lo].frame]))
    ensures lo <= j < lo + Pow2(u[s[lo].frame])
  {
    var i := lo + s[j].frame - s[lo].frame;
    assert s[i] == Page(s[lo].frame + i - lo);
    assert Pair(i, j) || Pair(j, i) || i == j;
  }

  lemma RunLive(s: seq<Slot>, lo: nat, want: Contents, m: Memory)
    requires Untouched(s, lo, want, m) && lo < |s| && s[lo].Page?
    ensures UnitAt(m, s[lo].frame)
  {
    var q := s[lo].frame;
    forall f | InSpan(f, q, Pow2(m.unit[q])) ensures f in m.content {
      var i := lo + f - q;
      assert s[i] == Page(q + i - lo);
      assert Holds(s[i], want[i], m);
    }
  }

  lemma SplitUntouched(s: seq<Slot>, lo: nat, want: Contents, m: Memory)
    requires Untouched(s, lo, want, m) && lo < |s| && s[lo].Page? && Distinct(s) && UnitAt(m, s[lo].frame)
    ensures Untouched(s, lo, want, SplitUnit(m, s[lo].frame))
  {
    var q := s[lo].frame;
    var m', mid := SplitUnit(m, q), lo + Pow2(m.unit[q]);
    forall j | mid <= j < |s| && s[j].Page? && s[j].frame in m.unit
      ensures s[j].frame in m'.unit && m'.unit[s[j].frame] == m.unit[s[j].frame]
    {
      if InSpan(s[j].frame, q, Pow2(m.unit[q])) { RunIsOwn(s, lo, |s|, m.unit, j); }
    }
    RunsSame(s, s, mid, |s|, m.unit, m'.unit);
    RunsSingles(s, lo, mid, |s|, m'.unit);
    forall i | lo <= i < |s| ensures Holds(s[i], want[i], m') { assert Holds(s[i], want[i], m); }
  }

  lemma SplitProgress(s: seq<Slot>, pos: nat, k: nat, page: int, want: Contents, m: Memory)
    requires Progress(s, pos, k, page, want, m) && pos + k < |s| && s[pos + k].Page? && Distinct(s)
    ensures UnitAt(m, s[pos + k].frame) && Progress(s, pos, k, page, want, SplitUnit(m, s[pos + k].frame))
  {
    var i, q := pos + k, s[pos + k].frame;
    RunLive(s, i, want, m);
    var m' := SplitUnit(m, q);
    SplitUntouched(s, i, want, m);
    forall j | 0 <= j < pos && s[j].Page? && s[j].frame in m.unit
      ensures s[j].frame in m'.unit && m'.unit[s[j].frame] == m.unit[s[j].frame]
    {
      if InSpan(s[j].frame, q, Pow2(m.unit[q])) { RunIsOwn(s, i, |s|, m.unit, j); }
    }
    RestoredStays(s, s, pos, want, m, m');
  }

  /** Copy frame `q` to frame `f` and free `q`. */
  function TakeOver(m: Memory, f: int, q: int): Memory
    requires f in m.content && q in m.content && q in m.unit && m.unit[q] == 0
  {
    assert Pow2(0) == 1;
    Release(Write(m, f, m.content[q]), q)
  }

  lemma PageBooks(s: seq<Slot>, i: nat, f: int, page: int, n: nat, others: map<int, Content>, m: Memory)
    requires Books(s, page, n, others, m) && i < |s| && s[i].Page? && InSpan(f, page, n)
    requires s[i].frame in m.unit && m.unit[s[i].frame] == 0
    ensures f in m.content && s[i].frame in m.content
    ensures Books(Marked(s, i), page, n, others, TakeOver(m, f, s[i].frame))
  {
    var q := s[i].frame;
    assert s[i] == Page(q);
    assert q in m.content && f in m.content;
    assert Pow2(0) == 1;
    FramesMarked(s, i, page, n, others, m.content, TakeOver(m, f, q).content);
    HandlesMarked(s, i, m.store);
    assert !Kept(s, i + 1);
    assert m.store - {i + 1} == m.store;
  }

  lemma PageProgress(s: seq<Slot>, pos: nat, k: nat, page: int, n: nat, want: Contents, m: Memory)
    requires Progress(s, pos, k, page, want, m) && k < n && pos + k < |s| && s[pos + k].Page? && Distinct(s)
    requires s[pos + k].frame in m.unit && m.unit[s[pos + k].frame] == 0
    requires Live(m, page, n)
    requires forall j | 0 <= j < |s| && s[j].Page? :: !InSpan(s[j].frame, page, n)
    ensures page + k in m.content && s[pos + k].frame in m.content
    ensures Progress(Marked(s, pos + k), pos, k + 1, page, want, TakeOver(m, page + k, s[pos + k].frame))
  {
    var i, q := pos + k, s[pos + k].frame;
    assert Holds(s[i], want[i], m);
    assert InSpan(page + k, page, n);
    assert Pow2(0) == 1;
    var m' := TakeOver(m, page + k, q);
    assert !InSpan(q, page, n);
    OneSlot(s, i);
    NextSingle(s, i, want, m);
    UntouchedStays(s, s, i + 1, want, m, m');
    ProgressStep(s, pos, k, page, want, m, m');
  }

  lemma NextSingle(s: seq<Slot>, lo: nat, want: Contents, m: Memory)
    requires Untouched(s, lo, want, m) && lo < |s| && s[lo].Page? && s[lo].frame in m.unit && m.unit[s[lo].frame] == 0
    ensures Untouched(s, lo + 1, want, m)
  {
    assert Pow2(0) == 1;
  }

  // ---------- The three steps, as a whole ----------

  lemma StepNull(s: seq<Slot>, t: seq<Slot>, pos: nat, k: nat, page: int, n: nat, want: Contents,
                 others: map<int, Content>, m: Memory)
    requires Restoring(s, pos, k, page, n, want, others, m) && k < n && s[pos + k] == Null && t == Marked(s, pos + k)
    ensures Restoring(t, pos, k + 1, page, n, want, others, m)
  {
    NullBooks(s, pos + k, page, n, others, m);
    NullOnward(s, t, pos, k, page, n, want, others, m);
  }

  lemma NullOnward(s: seq<Slot>, t: seq<Slot>, pos: nat, k: nat, page: int, n: nat, want: Contents,
                   others: map<int, Content>, m: Memory)
    requires Restoring(s, pos, k, page, n, want, others, m) && k < n && s[pos + k] == Null && t == Marked(s, pos + k)
    ensures Progress(t, pos, k + 1, page, want, m)
  {
    SpanLive(s, page, n, others, m, k);
    NullProgress(s, pos, k, page, want, m);
  }

  lemma StepHandle(s: seq<Slot>, t: seq<Slot>, pos: nat, k: nat, page: int, n: nat, want: Contents,
                   others: map<int, Content>, m: Memory, m': Memory)
    requires Restoring(s, pos, k, page, n, want, others, m) && k < n && s[pos + k].Handle? && t == Marked(s, pos + k)
    requires page + k in m.content && s[pos + k].handle in m.store && m' == ReadBack(m, page + k, s[pos + k].handle)
    ensures Restoring(t, pos, k + 1, page, n, want, others, m')
  {
    assert Holds(s[pos + k], want[pos + k], m);
    assert Books(t, page, n, others, m') by { HandleBooks(s, pos + k, page + k, page, n, others, m); }
    HandleOnward(s, t, pos, k, page, n, want, others, m, m');
  }

  lemma HandleOnward(s: seq<Slot>, t: seq<Slot>, pos: nat, k: nat, page: int, n: nat, want: Contents,
                     others: map<int, Content>, m: Memory, m': Memory)
    requires Restoring(s, pos, k, page, n, want, others, m) && k < n && s[pos + k] == Handle(pos + k + 1) &&
             t == Marked(s, pos + k)
    requires page + k in m.content && pos + k + 1 in m.store && m' == ReadBack(m, page + k, pos + k + 1)
    ensures Progress(t, pos, k + 1, page, want, m')
  {
    SpanLive(s, page, n, others, m, k);
    HandleProgress(s, pos, k, page, n, want, m);
  }

  lemma HandleReady(s: seq<Slot>, pos: nat, k: nat, page: int, n: nat, want: Contents, others: map<int, Content>,
                    m: Memory)
    requires Restoring(s, pos, k, page, n, want, others, m) && k < n && s[pos + k].Handle?
    ensures page + k in m.content && s[pos + k].handle != 0 && s[pos + k].handle in m.store
  {
    SpanLive(s, page, n, others, m, k);
    assert Holds(s[pos + k], want[pos + k], m);
  }

  /** Splitting the unit of an old page changes nothing but its granularity. */
  lemma StepSplit(s: seq<Slot>, pos: nat, k: nat, page: int, n: nat, want: Contents, others: map<int, Content>,
                  m: Memory)
    returns (m': Memory)
    requires Restoring(s, pos, k, page, n, want, others, m) && k < n && s[pos + k].Page?
    ensures UnitAt(m, s[pos + k].frame) && m' == SplitUnit(m, s[pos + k].frame)
    ensures s[pos + k].frame in m'.unit && m'.unit[s[pos + k].frame] == 0
    ensures Restoring(s, pos, k, page, n, want, others, m')
  {
    var q := s[pos + k].frame;
    SplitProgress(s, pos, k, page, want, m);
    PageNotOld(s, pos + k, page, n, want, others, m);
    m' := SplitUnit(m, q);
    assert InSpan(q, q, Pow2(m.unit[q]));
  }

  lemma PageFrames(s: seq<Slot>, pos: nat, k: nat, page: int, n: nat, want: Contents, others: map<int, Content>,
                   m: Memory)
    requires Restoring(s, pos, k, page, n, want, others, m) && k < n && s[pos + k].Page?
    ensures page + k in m.content && s[pos + k].frame in m.content
  {
    SpanLive(s, page, n, others, m, k);
  }

  /** Copying the frame of an old page and freeing it. */
  lemma StepPage(s: seq<Slot>, t: seq<Slot>, pos: nat, k: nat, page: int, n: nat, want: Contents,
                 others: map<int, Content>, m: Memory, m': Memory)
    requires Restoring(s, pos, k, page, n, want, others, m) && k < n && s[pos + k].Page? && t == Marked(s, pos + k)
    requires s[pos + k].frame in m.unit && m.unit[s[pos + k].frame] == 0
    requires page + k in m.content && s[pos + k].frame in m.content && m' == TakeOver(m, page + k, s[pos + k].frame)
    ensures Restoring(t, pos, k + 1, page, n, want, others, m')
  {
    assert Books(t, page, n, others, m') by { PageBooks(s, pos + k, page + k, page, n, others, m); }
    PageOnward(s, t, pos, k, page, n, want, others, m, m');
    PageUnit(s, pos + k, k, page, n, want, others, m, m');
  }

  lemma PageUnit(s: seq<Slot>, i: nat, k: nat, page: int, n: nat, want: Contents, others: map<int, Content>, m: Memory,
                 m': Memory)
    requires Books(s, page, n, others, m) && Untouched(s, i, want, m) && k < n && i < |s| && s[i].Page?
    requires s[i].frame in m.unit && m.unit[s[i].frame] == 0 && page in m.unit
    requires page + k in m.content && s[i].frame in m.content && m' == TakeOver(m, page + k, s[i].frame)
    ensures page in m'.unit && m'.unit[page] == m.unit[page]
  {
    PageNotOld(s, i, page, n, want, others, m);
  }

  lemma PageOnward(s: seq<Slot>, t: seq<Slot>, pos: nat, k: nat, page: int, n: nat, want: Contents,
                   others: map<int, Content>, m: Memory, m': Memory)
    requires Restoring(s, pos, k, page, n, want, others, m) && k < n && s[pos + k].Page? && t == Marked(s, pos + k)
    requires s[pos + k].frame in m.unit && m.unit[s[pos + k].frame] == 0
    requires page + k in m.content && s[pos + k].frame in m.content && m' == TakeOver(m, page + k, s[pos + k].frame)
    ensures Progress(t, pos, k + 1, page, want, m')
  {
    SpanLive(s, page, n, others, m, k);
    PageProgress(s, pos, k, page, n, want, m);
  }

  /** The unit of the new page is not touched by splitting and freeing an old one. */
  lemma PageNotOld(s: seq<Slot>, i: nat, page: int, n: nat, want: Contents, others: map<int, Content>, m: Memory)
    requires Books(s, page, n, others, m) && Untouched(s, i, want, m) && i < |s| && s[i].Page? && n > 0
    ensures !InSpan(page, s[i].frame, Pow2(m.unit[s[i].frame])) && page != s[i].frame
  {
    if InSpan(page, s[i].frame, Pow2(m.unit[s[i].frame])) {
      assert s[i + page - s[i].frame] == Page(page);
      assert InSpan(page, page, n);
    }
  }

  // ---------- A new page: allocated, committed or given back ----------

  /** The slots `[lo, lo + n)` name the frames from `page` on. */
  function Filled(s: seq<Slot>, lo: nat, page: int, n: nat): (t: seq<Slot>)
    requires lo + n <= |s|
    ensures |t| == |s| && forall i | 0 <= i < |s| :: t[i] == if lo <= i < lo + n then Page(page + i - lo) else s[i]
  {
    if n == 0 then s else Filled(s, lo, page, n - 1)[lo + n - 1 := Page(page + n - 1)]
  }

  lemma FilledBooks(s: seq<Slot>, lo: nat, page: int, n: nat, others: map<int, Content>, m: Memory)
    requires Books(s, page, n, others, m) && lo + n <= |s| && forall i | lo <= i < lo + n :: s[i] == Handle(0)
    ensures Books(Filled(s, lo, page, n), page, 0, others, m)
  {
    var t := Filled(s, lo, page, n);
    forall f | f in m.content ensures f in others || Named(t, f) {
      if Named(s, f) {
        var i :| 0 <= i < |s| && s[i] == Page(f);
        assert t[i] == Page(f);
      } else if InSpan(f, page, n) {
        assert t[lo + f - page] == Page(f);
      }
    }
    forall i | 0 <= i < |t| && t[i].Page?
      ensures t[i].frame in m.content && t[i].frame !in others && !InSpan(t[i].frame, page, 0)
    {
      if lo <= i < lo + n { assert InSpan(page + i - lo, page, n); } else { assert t[i] == s[i]; }
    }
    forall i, j | 0 <= i < j < |t| && t[i].Page? ensures t[i] != t[j] {
      FilledDistinct(s, lo, page, n, i, j);
    }
    forall h: nat | h in m.store ensures Kept(t, h) { assert Kept(s, h); }
  }

  lemma FilledDistinct(s: seq<Slot>, lo: nat, page: int, n: nat, i: nat, j: nat)
    requires lo + n <= |s| && Distinct(s) && i < j < |s|
    requires forall i | 0 <= i < |s| && s[i].Page? :: !InSpan(s[i].frame, page, n)
    requires Filled(s, lo, page, n)[i].Page?
    ensures Filled(s, lo, page, n)[i] != Filled(s, lo, page, n)[j]
  {
    assert Pair(i, j);
    if lo <= i < lo + n && !(lo <= j < lo + n) { assert InSpan(page + i - lo, page, n); }
    if lo <= j < lo + n && !(lo <= i < lo + n) { assert InSpan(page + j - lo, page, n); }
  }

  lemma FilledProgress(s: seq<Slot>, pos: nat, page: int, n: nat, want: Contents, m: Memory)
    requires Progress(s, pos, n, page, want, m) && page in m.unit && n == Pow2(m.unit[page])
    ensures Progress(Filled(s, pos, page, n), pos + n, 0, page, want, m)
  {
    var t := Filled(s, pos, page, n);
    RunsSame(s, t, 0, pos, m.unit, m.unit);
    assert t[pos] == Page(page);
    assert Runs(t, pos + n, pos + n, m.unit);
    RunsJoin(t, 0, pos, pos + n, m.unit);
    UntouchedStays(s, t, pos + n, want, m, m);
    forall i | 0 <= i < pos + n
      ensures t[i].Page? && t[i].frame in m.content && (want[i].Some? ==> m.content[t[i].frame] == want[i].value)
    {
      if i < pos { assert t[i] == s[i]; } else { assert s[i] == Handle(0); }
    }
  }

  lemma CommitPage(s: seq<Slot>, pos: nat, page: int, n: nat, want: Contents, others: map<int, Content>, m: Memory)
    requires Restoring(s, pos, n, page, n, want, others, m) && n > 0
    ensures Restoring(Filled(s, pos, page, n), pos + n, 0, page, 0, want, others, m)
  {
    FilledBooks(s, pos, page, n, others, m);
    FilledProgress(s, pos, page, n, want, m);
  }

  lemma ReturnPage(s: seq<Slot>, pos: nat, page: int, n: nat, want: Contents, others: map<int, Content>, m: Memory)
    requires Restoring(s, pos, 0, page, n, want, others, m) && n > 0
    ensures UnitAt(m, page) && Restoring(s, pos, 0, page, 0, want, others, Release(m, page))
  {
    var m' := Release(m, page);
    forall i | 0 <= i < |s| && s[i].Page? ensures s[i].frame != page { assert InSpan(page, page, n); }
    forall f | f in m'.content
      ensures f in others || InSpan(f, page, 0) || Named(s, f)
    {
      assert Named(s, f) || f in others;
    }
    RestoredStays(s, s, pos, want, m, m');
    assert forall i | pos <= i < |s| && s[i].Handle? :: s[i].handle in m.store by {
      forall i | pos <= i < |s| && s[i].Handle? ensures s[i].handle in m.store { assert Holds(s[i], want[i], m); }
    }
    UntouchedStays(s, s, pos, want, m, m');
  }

  lemma NewPage(s: seq<Slot>, pos: nat, q: int, order: nat, junk: Content, old': int, want: Contents,
                others: map<int, Content>, m: Memory)
    requires Restoring(s, pos, 0, old', 0, want, others, m) && pos + Pow2(order) <= |s|
    requires forall f | f in m.content :: f < q
    requires forall f | f in m.unit :: f < q
    ensures Restoring(s, pos, 0, q, Pow2(order), want, others, Allocate(m, q, order, junk))
  {
    var m', n := Allocate(m, q, order, junk), Pow2(order);
    RestoredStays(s, s, pos, want, m, m');
    assert forall i | pos <= i < |s| && s[i].Handle? :: s[i].handle in m.store by {
      forall i | pos <= i < |s| && s[i].Handle? ensures s[i].handle in m.store { assert Holds(s[i], want[i], m); }
    }
    UntouchedStays(s, s, pos, want, m, m');
    assert Frames(s, q, n, others, m'.content) by { NewFrames(s, q, n, junk, old', others, m.content); }
  }

  lemma NewFrames(s: seq<Slot>, q: int, n: nat, junk: Content, old': int, others: map<int, Content>,
                  c: map<int, Content>)
    requires Frames(s, old', 0, others, c) && forall f | f in c :: f < q
    ensures Frames(s, q, n, others, c + Junk(q, n, junk))
  {
    forall f | f in c + Junk(q, n, junk) ensures f in others || InSpan(f, q, n) || Named(s, f) {
      if f in c { assert f in others || InSpan(f, old', 0) || Named(s, f); }
    }
  }

  // ---------- Backing up ----------

  /** `ttm_backup_backup_page` for slot `i`, then `put_page`. */
  function BackUp(m: Memory, i: nat, q: int): Memory
    requires q in m.content && q in m.unit && m.unit[q] == 0
  {
    assert Pow2(0) == 1;
    Release(m.(store := m.store[i + 1 := m.content[q]]), q)
  }

  /** The slots below `i` are backed up, the others still have their pages. */
  ghost predicate BackingUp(s: seq<Slot>, i: nat, want: Contents, others: map<int, Content>, m: Memory) {
    i <= |s| && Books(s, 0, 0, others, m) && Untouched(s, i, want, m) &&
    (forall j | 0 <= j < i :: !s[j].Page? && Holds(s[j], want[j], m)) &&
    (forall j | i <= j < |s| :: !s[j].Handle?)
  }

  /** The page vector with the pages below `k` backed up. */
  function BackedUpTo(s: seq<Slot>, k: nat): (r: seq<Slot>)
    ensures |r| == |s|
    ensures forall i | 0 <= i < |s| :: r[i] == if i < k && s[i].Page? then Handle(i + 1) else s[i]
  {
    seq(|s|, i requires 0 <= i < |s| => if i < k && s[i].Page? then Handle(i + 1) else s[i])
  }

  /** How many of the first `k` slots name pages. */
  function PagesBelow(s: seq<Slot>, k: nat): nat
    requires k <= |s|
  {
    if k == 0 then 0 else PagesBelow(s, k - 1) + if s[k - 1].Page? then 1 else 0
  }

  /** Slot by slot: one more slot is passed over or backed up. */
  lemma BackedUpMore(s: seq<Slot>, k: nat)
    requires k < |s|
    ensures BackedUpTo(s, k + 1) == if s[k].Page? then BackedUpTo(s, k)[k := Handle(k + 1)] else BackedUpTo(s, k)
  {}

  lemma {:induction false} SomePage(s: seq<Slot>, k: nat)
    requires k <= |s| && PagesBelow(s, k) > 0
    ensures exists i :: 0 <= i < k && s[i].Page? && BackedUpTo(s, k)[i].Handle?
  {
    if s[k - 1].Page? { assert BackedUpTo(s, k)[k - 1].Handle?; } else { SomePage(s, k - 1); }
  }

  lemma {:induction false} NoPageBelow(s: seq<Slot>, k: nat)
    requires k <= |s| && PagesBelow(s, k) == 0
    ensures BackedUpTo(s, k) == s
  {
    if k > 0 { NoPageBelow(s, k - 1); }
  }

  lemma {:induction false} FirstPage(s: seq<Slot>, k: nat)
    requires 0 < k <= |s| && s[0].Page?
    ensures PagesBelow(s, k) > 0
  {
    if k > 1 { FirstPage(s, k - 1); }
  }

  lemma {:induction false} RunsNone(s: seq<Slot>, lo: nat, hi: nat, u: map<int, nat>)
    requires lo <= hi <= |s| && forall i | lo <= i < hi :: !s[i].Page?
    ensures Runs(s, lo, hi, u)
    decreases hi - lo
  {
    if lo < hi { RunsNone(s, lo + 1, hi, u); }
  }

  /** However far the backup got, all content is still there. */
  lemma BackupEnds(s: seq<Slot>, i: nat, want: Contents, others: map<int, Content>, m: Memory)
    requires BackingUp(s, i, want, others, m)
    ensures Restoring(s, 0, 0, 0, 0, want, others, m)
  {
    RunsNone(s, 0, i, m.unit);
    RunsJoin(s, 0, i, |s|, m.unit);
  }

  lemma BackupSkips(s: seq<Slot>, i: nat, want: Contents, others: map<int, Content>, m: Memory)
    requires BackingUp(s, i, want, others, m) && i < |s| && s[i] == Null
    ensures BackingUp(s, i + 1, want, others, m)
  {
    assert Holds(s[i], want[i], m);
    UntouchedNext(s, i, want, m);
  }

  lemma BackupSplits(s: seq<Slot>, i: nat, want: Contents, others: map<int, Content>, m: Memory)
    requires BackingUp(s, i, want, others, m) && i < |s| && s[i].Page?
    ensures UnitAt(m, s[i].frame) && BackingUp(s, i, want, others, SplitUnit(m, s[i].frame))
  {
    RunLive(s, i, want, m);
    SplitUntouched(s, i, want, m);
    var m' := SplitUnit(m, s[i].frame);
    forall j | 0 <= j < i ensures Holds(s[j], want[j], m') { assert Holds(s[j], want[j], m); }
  }

  lemma BackupStep(s: seq<Slot>, i: nat, want: Contents, others: map<int, Content>, m: Memory)
    requires BackingUp(s, i, want, others, m) && i < |s| && s[i].Page? && s[i].frame in m.unit &&
             m.unit[s[i].frame] == 0
    ensures s[i].frame in m.content && BackingUp(s[i := Handle(i + 1)], i + 1, want, others, BackUp(m, i, s[i].frame))
  {
    var q, t := s[i].frame, s[i := Handle(i + 1)];
    assert Holds(s[i], want[i], m);
    assert Pow2(0) == 1;
    var m' := BackUp(m, i, q);
    BackupBooks(s, i, others, m);
    NextSingle(s, i, want, m);
    UntouchedStays(s, t, i + 1, want, m, m');
    forall j | 0 <= j < i + 1 ensures !t[j].Page? && Holds(t[j], want[j], m') {
      if j < i { assert t[j] == s[j] && Holds(s[j], want[j], m); }
    }
  }

  lemma BackupBooks(s: seq<Slot>, i: nat, others: map<int, Content>, m: Memory)
    requires Books(s, 0, 0, others, m) && i < |s| && s[i].Page? && s[i].frame in m.unit && m.unit[s[i].frame] == 0
    ensures s[i].frame in m.content && Books(s[i := Handle(i + 1)], 0, 0, others, BackUp(m, i, s[i].frame))
  {
    var q, t := s[i].frame, s[i := Handle(i + 1)];
    assert s[i] == Page(q);
    assert q in m.content;
    var m' := BackUp(m, i, q);
    FramesMarked(s, i, 0, 0, others, m.content, m'.content);
    FramesSamePages(Marked(s, i), t, 0, 0, others, m'.content);
    forall h: nat | h in m'.store ensures Kept(t, h) {
      if h != i + 1 { assert Kept(s, h); }
    }
  }

  lemma FramesSamePages(s: seq<Slot>, t: seq<Slot>, page: int, n: nat, others: map<int, Content>, c: map<int, Content>)
    requires Frames(s, page, n, others, c) && |t| == |s|
    requires forall i | 0 <= i < |s| :: s[i].Page? || t[i].Page? ==> s[i] == t[i]
    ensures Frames(t, page, n, others, c)
  {
    forall f | f in c ensures f in others || InSpan(f, page, n) || Named(t, f) {
      if Named(s, f) {
        var i :| 0 <= i < |s| && s[i] == Page(f);
        assert t[i] == Page(f);
      }
    }
  }

  // ---------- Freeing a range of slots ----------

  /** The vector without the slots `[lo, hi)`. */
  function Cleared(s: seq<Slot>, lo: nat, hi: nat): (t: seq<Slot>)
    requires lo <= hi <= |s|
    ensures |t| == |s| && forall i | 0 <= i < |s| :: t[i] == if lo <= i < hi then Null else s[i]
    decreases hi - lo
  {
    if lo == hi then s else Cleared(s, lo, hi - 1)[hi - 1 := Null]
  }

  /** Dropping a handle, or passing over a slot that has nothing. */
  lemma DropSlot(s: seq<Slot>, i: nat, page: int, n: nat, others: map<int, Content>, m: Memory)
    requires Books(s, page, n, others, m) && i < |s| && !s[i].Page?
    ensures s[i].Handle? && s[i].handle != 0 ==> s[i].handle in m.store
    ensures Books(s[i := Null], page, n, others,
                  m.(store := if s[i].Handle? && s[i].handle != 0 then m.store - {s[i].handle} else m.store))
  {
    var t := s[i := Null];
    FramesSamePages(s, t, page, n, others, m.content);
    HandlesMarked(s, i, m.store);
    if !(s[i].Handle? && s[i].handle != 0) {
      assert !Kept(s, i + 1);
      assert m.store - {i + 1} == m.store;
    }
    var store' := m.store - {i + 1};
    forall h: nat | h in store' ensures Kept(t, h) { assert Kept(s, h); }
  }

  lemma RunElsewhere(s: seq<Slot>, lo: nat, hi: nat, u: map<int, nat>, j: nat)
    requires lo < hi <= |s| && Runs(s, lo, hi, u) && s[lo].Page? && Distinct(s) && j < |s| && s[j].Page?
    requires !(lo <= j < lo + Pow2(u[s[lo].frame]))
    ensures !InSpan(s[j].frame, s[lo].frame, Pow2(u[s[lo].frame]))
  {
    if InSpan(s[j].frame, s[lo].frame, Pow2(u[s[lo].frame])) { RunIsOwn(s, lo, hi, u, j); }
  }

  /** Freeing the unit that starts at slot `i`. */
  lemma FreeRun(s: seq<Slot>, i: nat, hi: nat, page: int, n: nat, others: map<int, Content>, m: Memory)
    requires Books(s, page, n, others, m) && i < hi <= |s| && s[i].Page? && Runs(s, i, hi, m.unit)
    ensures UnitAt(m, s[i].frame) && i + Pow2(m.unit[s[i].frame]) <= hi
    ensures Books(Cleared(s, i, i + Pow2(m.unit[s[i].frame])), page, n, others, Release(m, s[i].frame))
  {
    var q, k := s[i].frame, Pow2(m.unit[s[i].frame]);
    forall f | InSpan(f, q, k) ensures f in m.content && f !in others && !InSpan(f, page, n) {
      assert s[i + f - q] == Page(f);
    }
    FramesCleared(s, i, hi, page, n, others, m);
    HandlesCleared(s, i, i + k, m.store);
  }

  lemma FramesCleared(s: seq<Slot>, i: nat, hi: nat, page: int, n: nat, others: map<int, Content>, m: Memory)
    requires Frames(s, page, n, others, m.content) && i < hi <= |s| && s[i].Page? && Runs(s, i, hi, m.unit)
    requires forall f | InSpan(f, s[i].frame, Pow2(m.unit[s[i].frame])) ::
               f in m.content && f !in others && !InSpan(f, page, n)
    ensures var q, k := s[i].frame, Pow2(m.unit[s[i].frame]);
            Frames(Cleared(s, i, i + k), page, n, others, Without(m.content, q, k))
  {
    var q, k := s[i].frame, Pow2(m.unit[s[i].frame]);
    var t, c := Cleared(s, i, i + k), Without(m.content, q, k);
    forall f | f in c ensures f in others || InSpan(f, page, n) || Named(t, f) {
      if Named(s, f) {
        var j :| 0 <= j < |s| && s[j] == Page(f);
        assert t[j] == Page(f);
      }
    }
    forall j | 0 <= j < |t| && t[j].Page?
      ensures t[j].frame in c && t[j].frame !in others && !InSpan(t[j].frame, page, n)
    {
      assert t[j] == s[j];
      RunElsewhere(s, i, hi, m.unit, j);
    }
  }

  lemma HandlesCleared(s: seq<Slot>, lo: nat, hi: nat, store: map<nat, Content>)
    requires Handles(s, store) && lo <= hi <= |s| && forall i | lo <= i < hi :: s[i].Page?
    ensures Handles(Cleared(s, lo, hi), store)
  {
    var t := Cleared(s, lo, hi);
    forall h: nat | h in store ensures Kept(t, h) { assert Kept(s, h); }
  }

  lemma RunsAfter(s: seq<Slot>, i: nat, hi: nat, u: map<int, nat>, t: seq<Slot>, v: map<int, nat>)
    requires i < hi <= |s| == |t| && Runs(s, i, hi, u) && s[i].Page? && Distinct(s)
    requires forall j | i + Pow2(u[s[i].frame]) <= j < hi :: t[j] == s[j]
    requires v == u - {s[i].frame}
    ensures i + Pow2(u[s[i].frame]) <= hi && Runs(t, i + Pow2(u[s[i].frame]), hi, v)
  {
    OneSlot(s, i);
    RunsSame(s, t, i + Pow2(u[s[i].frame]), hi, u, v);
  }

  /** Nothing is left: the live frames are those of others, and no handle is live. */
  lemma AllGone(s: seq<Slot>, page: int, others: map<int, Content>, m: Memory)
    requires Books(s, page, 0, others, m) && forall i | 0 <= i < |s| :: s[i] == Null
    ensures m.content == others && m.store == map[]
  {
    forall f ensures f in m.content <==> f in others { assert !Named(s, f); }
    assert m.content.Keys == others.Keys;
    assert forall f | f in m.content :: m.content[f] == others[f];
    forall h: nat ensures h !in m.store { assert !Kept(s, h); }
  }

  // ---------- Frame numbers ----------

  /** Frames from `next` on have never been used. */
  ghost predicate Numbered(m: Memory, next: int) {
    (forall f | f in m.content :: f < next) && (forall f | f in m.unit :: f < next)
  }

  lemma SplitNumbered(m: Memory, q: int, next: int)
    requires Numbered(m, next) && UnitAt(m, q)
    ensures Numbered(SplitUnit(m, q), next)
  {}

  lemma TakeOverNumbered(m: Memory, f: int, q: int, next: int)
    requires Numbered(m, next) && f in m.content && q in m.content && q in m.unit && m.unit[q] == 0
    ensures Numbered(TakeOver(m, f, q), next)
  {}

  lemma NumberedLess(m: Memory, m': Memory, next: int)
    requires Numbered(m, next) && m'.content.Keys <= m.content.Keys && m'.unit.Keys <= m.unit.Keys + m.content.Keys
    ensures Numbered(m', next)
  {
    forall f | f in m'.unit ensures f < next { assert f in m.unit.Keys + m.content.Keys; }
  }

  lemma NumberedMore(m: Memory, next: int, order: nat, junk: Content)
    requires Numbered(m, next)
    ensures Numbered(Allocate(m, next, order, junk), next + Pow2(order))
  {}

  /** Without an uncommitted page it does not matter where that page would be. */
  lemma NoPage(s: seq<Slot>, pos: nat, p: int, q: int, want: Contents, others: map<int, Content>, m: Memory)
    requires Restoring(s, pos, 0, p, 0, want, others, m)
    ensures Restoring(s, pos, 0, q, 0, want, others, m)
  {
    NoFrames(s, p, q, others, m.content);
  }

  lemma NoFrames(s: seq<Slot>, p: int, q: int, others: map<int, Content>, c: map<int, Content>)
    requires Frames(s, p, 0, others, c)
    ensures Frames(s, q, 0, others, c)
  {
    forall f | f in c ensures f in others || InSpan(f, q, 0) || Named(s, f) {
      assert f in others || InSpan(f, p, 0) || Named(s, f);
    }
  }

  lemma AllRestored(s: seq<Slot>, page: int, want: Contents, others: map<int, Content>, m: Memory)
    requires Restoring(s, |s|, 0, page, 0, want, others, m)
    ensures Restored(s, |s|, want, m) && Books(s, 0, 0, others, m)
  {
    NoFrames(s, page, 0, others, m.content);
  }

  // ---------- Dropping ----------

  /** The vector names whole units below `mid` and from `mid` on, and owns nothing else. */
  ghost predicate Droppable(s: seq<Slot>, mid: nat, others: map<int, Content>, m: Memory) {
    mid <= |s| && Books(s, 0, 0, others, m) && Runs(s, 0, mid, m.unit) && Runs(s, mid, |s|, m.unit)
  }

  lemma DropIdle(s: seq<Slot>, pos: nat, page: int, want: Contents, others: map<int, Content>, m: Memory)
    requires Restoring(s, pos, 0, page, 0, want, others, m)
    ensures Droppable(s, pos, others, m)
  {
    NoFrames(s, page, 0, others, m.content);
  }

  /** The uncommitted page is freed first; the slots it was filled from are empty already. */
  lemma DropOpen(s: seq<Slot>, pos: nat, k: nat, page: int, n: nat, want: Contents, others: map<int, Content>,
                 m: Memory)
    requires Restoring(s, pos, k, page, n, want, others, m) && n > 0
    ensures UnitAt(m, page) && Droppable(s, pos, others, Release(m, page))
  {
    var m' := Release(m, page);
    RunsNone(s, pos, pos + k, m.unit);
    RunsJoin(s, pos, pos + k, |s|, m.unit);
    assert InSpan(page, page, n);
    forall i | 0 <= i < |s| && s[i].Page? ensures s[i].frame != page {}
    RunsSame(s, s, 0, pos, m.unit, m'.unit);
    RunsSame(s, s, pos, |s|, m.unit, m'.unit);
    assert Frames(s, page, 0, others, m'.content) by { OpenFreed(s, page, n, others, m.content); }
    NoFrames(s, page, 0, others, m'.content);
  }

  lemma OpenFreed(s: seq<Slot>, page: int, n: nat, others: map<int, Content>, c: map<int, Content>)
    requires Frames(s, page, n, others, c)
    ensures Frames(s, page, 0, others, Without(c, page, n))
  {
    forall f | f in Without(c, page, n) ensures f in others || InSpan(f, page, 0) || Named(s, f) {
      assert f in others || InSpan(f, page, n) || Named(s, f);
    }
  }

  /** The slots from `i` to `hi` are still to be freed; `u` is what the orders were at the start. */
  ghost predicate Freeing(s: seq<Slot>, i: nat, hi: nat, others: map<int, Content>, m: Memory, u: map<int, nat>) {
    match m
    case Memory(_, unit, _) =>
      i <= hi <= |s| && Books(s, 0, 0, others, m) && Runs(s, i, hi, unit) &&
      forall j | 0 <= j < |s| && s[j].Page? && s[j].frame in u ::
        s[j].frame in unit && unit[s[j].frame] == u[s[j].frame]
  }

  lemma FreeingSkip(s: seq<Slot>, i: nat, hi: nat, others: map<int, Content>, m: Memory, m': Memory, u: map<int, nat>)
    requires Freeing(s, i, hi, others, m, u) && i < hi && !s[i].Page?
    requires m' == m.(store := if s[i].Handle? && s[i].handle != 0 then m.store - {s[i].handle} else m.store)
    ensures s[i].Handle? && s[i].handle != 0 ==> s[i].handle in m.store
    ensures Freeing(s[i := Null], i + 1, hi, others, m', u)
  {
    DropSlot(s, i, 0, 0, others, m);
    RunsSame(s, s[i := Null], i + 1, hi, m.unit, m.unit);
  }

  lemma FreeingRun(s: seq<Slot>, i: nat, hi: nat, others: map<int, Content>, m: Memory, u: map<int, nat>)
    requires Freeing(s, i, hi, others, m, u) && i < hi && s[i].Page?
    ensures UnitAt(m, s[i].frame) && i + Pow2(m.unit[s[i].frame]) <= hi
    ensures var k := Pow2(m.unit[s[i].frame]);
            Freeing(Cleared(s, i, i + k), i + k, hi, others, Release(m, s[i].frame), u)
  {
    FreeRun(s, i, hi, 0, 0, others, m);
    FreeingUnits(s, i, hi, m.unit, u, i + Pow2(m.unit[s[i].frame]));
  }

  lemma FreeingUnits(s: seq<Slot>, i: nat, hi: nat, v: map<int, nat>, u: map<int, nat>, next: nat)
    requires i < hi <= |s| && Distinct(s) && Runs(s, i, hi, v) && s[i].Page? && next == i + Pow2(v[s[i].frame])
    requires forall j | 0 <= j < |s| && s[j].Page? && s[j].frame in u ::
               s[j].frame in v && v[s[j].frame] == u[s[j].frame]
    ensures var t, w := Cleared(s, i, next), v - {s[i].frame};
            Runs(t, next, hi, w) &&
            forall j | 0 <= j < |t| && t[j].Page? && t[j].frame in u ::
              t[j].frame in w && w[t[j].frame] == u[t[j].frame]
  {
    var t, w := Cleared(s, i, next), v - {s[i].frame};
    RunsAfter(s, i, hi, v, t, w);
    forall j | 0 <= j < |t| && t[j].Page? && t[j].frame in u ensures t[j].frame in w && w[t[j].frame] == u[t[j].frame] {
      assert t[j] == s[j] && (Pair(i, j) || Pair(j, i));
    }
  }

  lemma ClearedMore(s: seq<Slot>, lo: nat, mid: nat, hi: nat)
    requires lo <= mid <= hi <= |s|
    ensures Cleared(Cleared(s, lo, mid), mid, hi) == Cleared(s, lo, hi)
  {}

  /** The first part is freed; the second one still names whole units. */
  lemma DropRest(s: seq<Slot>, left: seq<Slot>, start: nat, others: map<int, Content>, m: Memory, u: map<int, nat>)
    requires start <= |s| && Runs(s, start, |s|, u) && left == Cleared(s, 0, start) &&
             Freeing(left, start, start, others, m, u)
    ensures Freeing(left, start, |s|, others, m, m.unit)
  {
    forall i | start <= i < |s| ensures left[i] == s[i] {}
    RunsSame(s, left, start, |s|, u, m.unit);
  }

  // ---------- From one cycle to the next ----------

  /** What a fully populated vector holds. */
  function Now(s: seq<Slot>, m: Memory): (w: Contents)
    ensures |w| == |s|
    ensures forall i | 0 <= i < |s| && s[i].Page? && s[i].frame in m.content :: w[i] == Some(m.content[s[i].frame])
  {
    seq(|s|, i requires 0 <= i < |s| =>
        if s[i].Page? && s[i].frame in m.content then Some(m.content[s[i].frame]) else None)
  }

  lemma ReadyForBackup(s: seq<Slot>, want: Contents, others: map<int, Content>, m: Memory)
    requires Restored(s, |s|, want, m) && Books(s, 0, 0, others, m)
    ensures BackingUp(s, 0, Now(s, m), others, m)
  {}
}
