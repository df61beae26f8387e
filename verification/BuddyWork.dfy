/**
  Depth-first traversals driven by a list of pending nodes, as the `dfs` loops do it, and their
  agreement with the recursion over the tree.
 */
module BuddyWork {
  import opened Common
  import opened Powers
  import opened BuddyTree
  import opened BuddyLists
  import opened BuddyRange

  /** The entries are blocks, none inside another. */
  predicate Worklist(t: Tree, work: seq<Path>) {
    (forall i | 0 <= i < |work| :: BlockAt(t, work[i])) &&
    (forall i, j {:trigger Pair(i, j)} | 0 <= i < j < |work| && Pair(i, j) :: Apart(work[i], work[j]))
  }

  lemma WorklistRest(t: Tree, work: seq<Path>, x: Tree)
    requires Worklist(t, work) && work != []
    ensures Worklist(Put(t, work[0], x), work[1..])
  {
    forall i | 0 <= i < |work[1..]| ensures BlockAt(Put(t, work[0], x), work[1..][i]) {
      assert Pair(0, 1 + i);
      PutApart(t, work[0], x, work[1 + i]);
    }
    forall i, j | 0 <= i < j < |work[1..]| && Pair(i, j) ensures Apart(work[1..][i], work[1..][j]) {
      assert Pair(i + 1, j + 1);
    }
  }

  lemma WorklistPush(t: Tree, work: seq<Path>, u: Tree)
    requires Worklist(t, work) && work != [] && u.Split? && WF(u)
    ensures var p := work[0]; Worklist(Put(t, p, u), [p + [false], p + [true]] + work[1..])
  {
    var p := work[0];
    var v := Put(t, p, u);
    var w := [p + [false], p + [true]] + work[1..];
    WorklistRest(t, work, u);
    PutChildren(t, p, u);
    forall i | 0 <= i < |w| ensures BlockAt(v, w[i]) {
      if i >= 2 { assert w[i] == work[1..][i - 2]; }
    }
    forall i, j | 0 <= i < j < |w| && Pair(i, j) ensures Apart(w[i], w[j]) {
      if j >= 2 {
        assert w[j] == work[j - 1];
        if i < 2 {
          assert Pair(0, j - 1);
          ApartBelow(p, [i == 1], w[j]);
        } else {
          assert w[i] == work[i - 1] && Pair(i - 1, j - 1);
        }
      } else {
        assert w[0][|p|] != w[1][|p|];
      }
    }
  }

  lemma ApartBelow(p: Path, d: Path, q: Path)
    requires Apart(p, q)
    ensures Apart(p + d, q)
  {
    PrefixBelow(p, d, q);
  }

  lemma PrefixBelow(p: Path, d: Path, q: Path)
    ensures Prefix(p + d, q) ==> Prefix(p, q)
    ensures Prefix(q, p + d) ==> Prefix(p, q) || Prefix(q, p)
  {
    if Prefix(p + d, q) { assert q[..|p|] == q[..|p + d|][..|p|]; }
    if Prefix(q, p + d) {
      if |q| <= |p| { assert p[..|q|] == (p + d)[..|q|]; } else { assert q[..|p|] == (p + d)[..|q|][..|p|]; }
    }
  }

  lemma PutChildren(t: Tree, p: Path, u: Tree)
    requires Has(t, p) && u.Inner?()
    ensures var v := Put(t, p, u);
            Has(v, p) && Has(v, p + [false]) && Has(v, p + [true]) &&
            At(v, p + [false]) == u.left && At(v, p + [true]) == u.right &&
            Off(v, p + [false]) == Off(v, p) && Off(v, p + [true]) == Off(v, p) + Size(u.left)
  {
    var v := Put(t, p, u);
    PutAt(t, p, u);
    OneStep(u, false);
    OneStep(u, true);
    AppendPath(v, p, [false]);
    AppendPath(v, p, [true]);
  }

  lemma {:induction false} OffPutSelf(t: Tree, p: Path, x: Tree)
    requires Has(t, p)
    ensures Has(Put(t, p, x), p) && Off(Put(t, p, x), p) == Off(t, p)
  {
    if p != [] { OffPutSelf(Child(t, p[0]), p[1..], x); }
  }

  /** Overwriting the two children of a node is overwriting the node. */
  lemma PutTwo(t: Tree, p: Path, u: Tree, x: Tree, y: Tree)
    requires Has(t, p) && u.Inner?()
    ensures var v := Put(t, p, u);
            Has(v, p + [false]) &&
            (var w := Put(v, p + [false], x);
             w == Put(t, p, u.(left := x)) && Has(w, p + [true]) && At(w, p + [true]) == u.right &&
             Put(w, p + [true], y) == Put(t, p, u.(left := x, right := y)))
  {
    var v := Put(t, p, u);
    PutChildren(t, p, u);
    PutBelow(v, p, [false], x);
    PutAt(t, p, u);
    PutPut(t, p, u, u.(left := x));
    OneStepPut(u, false, x);
    var w := Put(v, p + [false], x);
    var u' := u.(left := x);
    PutChildren(t, p, u');
    PutAt(t, p, u');
    PutBelow(w, p, [true], y);
    OneStepPut(u', true, y);
    PutPut(t, p, u', u.(left := x, right := y));
  }

  lemma OneStepPut(t: Tree, b: bool, x: Tree)
    requires t.Inner?()
    ensures Has(t, [b]) && Put(t, [b], x) == WithChild(t, b, x)
  {
    assert [b][1..] == [];
  }

  // ---------- Taking a range ----------

  /** Working through the pending nodes in order. */
  function TakeAll(t: Tree, work: seq<Path>, s: int, e: int, clear: int): Outcome
    requires WF(t) && Worklist(t, work)
    decreases |work|
  {
    if work == [] then Outcome(true, t, [], clear)
    else
      var p := work[0];
      var r := TakeOne(t, p, s, e, clear);
      WorklistRest(t, work, r.tree);
      PutTaken(t, p, s, e, clear);
      Then(t, p, r, if r.ok then TakeAll(Put(t, p, r.tree), work[1..], s, e, r.clear) else r)
  }

  function TakeOne(t: Tree, p: Path, s: int, e: int, clear: int): Outcome
    requires Has(t, p)
  {
    Take(At(t, p), Off(t, p), s, e, clear)
  }

  /** The outcome `r` at node `p`, followed by `rest` if the traversal goes on. */
  function Then(t: Tree, p: Path, r: Outcome, rest: Outcome): Outcome
    requires Has(t, p)
  {
    if r.ok then rest.(taken := Under(p, r.taken) + rest.taken)
    else Outcome(false, Put(t, p, r.tree), Under(p, r.taken), r.clear)
  }

  lemma PutTaken(t: Tree, p: Path, s: int, e: int, clear: int)
    requires WF(t) && BlockAt(t, p)
    ensures var u := Put(t, p, TakeOne(t, p, s, e, clear).tree); WF(u) && SameRoots(t, u) && Size(u) == Size(t)
  {
    WFAt(t, p);
    TakeKeeps(At(t, p), Off(t, p), s, e, clear);
    PutKeeps(t, p, TakeOne(t, p, s, e, clear).tree);
  }

  /** What the loop does at a node it descends into: replace the node by its two children. */
  predicate OpensTo(t: Tree, u: Tree, off: nat, s: int, e: int, clear: int) {
    u.Split? && Take(t, off, s, e, clear) == Both(u, Take(u.left, off, s, e, clear),
      Take(u.right, off + Size(u.left), s, e, Take(u.left, off, s, e, clear).clear))
  }

  lemma OpensSplit(t: Tree, off: nat, s: int, e: int, clear: int)
    requires t.Split? && !Stops(t, off, s, e, clear)
    ensures OpensTo(t, t, off, s, e, clear)
  {}

  lemma OpensFree(o: nat, c: bool, off: nat, s: int, e: int, clear: int)
    requires Overlaps(s, e, off, off + Pow2(o)) && !Contains(s, e, off, off + Pow2(o))
    ensures o > 0 && OpensTo(Free(o, c), Halved(o, c), off, s, e, clear)
  {
    hide Carve;
    hide Take;
    CarveSplits(o, c, off, s, e);
    TakeFree(o, c, off, s, e, clear);
    TakeFree(o - 1, c, off, s, e, clear);
    TakeFree(o - 1, c, off + Pow2(o - 1), s, e, Take(Free(o - 1, c), off, s, e, clear).clear);
  }

  lemma CarveSplits(o: nat, c: bool, off: nat, s: int, e: int)
    requires Overlaps(s, e, off, off + Pow2(o)) && !Contains(s, e, off, off + Pow2(o))
    ensures o > 0 &&
            Carve(o, c, off, s, e) ==
              Split(o, false, Carve(o - 1, c, off, s, e), Carve(o - 1, c, off + Pow2(o - 1), s, e))
  {}

  lemma TakeFree(o: nat, c: bool, off: nat, s: int, e: int, clear: int)
    ensures var u := Carve(o, c, off, s, e);
            Take(Free(o, c), off, s, e, clear) ==
              Outcome(true, u, Useds(u), clear - ClearSize(Free(o, c)) + ClearSize(u))
  {}

  lemma TakeAllStep(t: Tree, work: seq<Path>, s: int, e: int, clear: int)
    requires WF(t) && Worklist(t, work) && work != []
    ensures var p := work[0]; var r := TakeOne(t, p, s, e, clear); var t' := Put(t, p, r.tree);
            WF(t') && Worklist(t', work[1..]) &&
            TakeAll(t, work, s, e, clear) ==
            Then(t, p, r, if r.ok then TakeAll(t', work[1..], s, e, r.clear) else r)
  {
    WorklistRest(t, work, TakeOne(t, work[0], s, e, clear).tree);
    PutTaken(t, work[0], s, e, clear);
  }

  lemma TakeAllOpens(t: Tree, work: seq<Path>, u: Tree, s: int, e: int, clear: int)
    requires WF(t) && Worklist(t, work) && work != []
    requires WF(u) && u.Split? && u.order == At(t, work[0]).order
    requires OpensTo(At(t, work[0]), u, Off(t, work[0]), s, e, clear)
    ensures var p := work[0]; var v := Put(t, p, u); var w := [p + [false], p + [true]] + work[1..];
            WF(v) && Worklist(v, w) && TakeAll(t, work, s, e, clear) == TakeAll(v, w, s, e, clear)
  {
    hide Take;
    hide TakeAll;
    var p := work[0];
    var pl, ph := p + [false], p + [true];
    var v := Put(t, p, u);
    var w := [pl, ph] + work[1..];
    PutKeeps(t, p, u);
    WorklistPush(t, work, u);
    HalvesTaken(t, p, u, s, e, clear);
    var l := TakeOne(v, pl, s, e, clear);
    var t' := Put(v, pl, l.tree);
    var h := TakeOne(t', ph, s, e, l.clear);
    TakeAllStep(t, work, s, e, clear);
    TakeAllStep(v, w, s, e, clear);
    assert w[1..] == [ph] + work[1..];
    var tail := Outcome(true, t, [], 0);
    if l.ok {
      TakeAllStep(t', w[1..], s, e, l.clear);
      assert w[1..][1..] == work[1..];
      PutTwo(t, p, u, l.tree, h.tree);
      if h.ok { tail := TakeAll(Put(t', ph, h.tree), work[1..], s, e, h.clear); }
    }
    ThenTwice(t, p, u, l, h, tail);
  }

  lemma HalvesTaken(t: Tree, p: Path, u: Tree, s: int, e: int, clear: int)
    requires WF(t) && BlockAt(t, p) && WF(u) && u.Split? && u.order == At(t, p).order
    requires OpensTo(At(t, p), u, Off(t, p), s, e, clear)
    ensures var v := Put(t, p, u); var pl, ph := p + [false], p + [true];
            Has(v, pl) &&
            (var l := TakeOne(v, pl, s, e, clear); var t' := Put(v, pl, l.tree);
             Has(t', ph) && TakeOne(t, p, s, e, clear) == Both(u, l, TakeOne(t', ph, s, e, l.clear)))
  {
    hide Take;
    var x := Take(u.left, Off(t, p), s, e, clear).tree;
    assert Size(x) == Size(u.left) by { TakeKeeps(u.left, Off(t, p), s, e, clear); }
    HalvesPlaced(t, p, u, x);
    var v, pl, ph := Put(t, p, u), p + [false], p + [true];
    OpenedAt(At(t, p), Off(t, p), u, At(v, pl), Off(v, pl), At(Put(v, pl, x), ph), Off(Put(v, pl, x), ph), s, e, clear);
  }

  /** `OpensTo`, in terms of the two halves wherever they are found. */
  lemma OpenedAt(x: Tree, off: nat, u: Tree, l: Tree, lo: nat, h: Tree, ho: nat, s: int, e: int, clear: int)
    requires OpensTo(x, u, off, s, e, clear) && l == u.left && lo == off && h == u.right && ho == off + Size(u.left)
    ensures var r := Take(l, lo, s, e, clear);
            r == Take(u.left, off, s, e, clear) && Take(x, off, s, e, clear) == Both(u, r, Take(h, ho, s, e, r.clear))
  {
    hide Take;
  }

  lemma HalvesPlaced(t: Tree, p: Path, u: Tree, x: Tree)
    requires Has(t, p) && u.Inner?() && Size(x) == Size(u.left)
    ensures var v := Put(t, p, u); var pl, ph := p + [false], p + [true];
            Has(v, pl) && At(v, pl) == u.left && Off(v, pl) == Off(t, p) && Has(Put(v, pl, x), ph) &&
            At(Put(v, pl, x), ph) == u.right && Off(Put(v, pl, x), ph) == Off(t, p) + Size(u.left)
  {
    PutChildren(t, p, u);
    OffPutSelf(t, p, u);
    PutTwo(t, p, u, x, x);
    PutChildren(t, p, u.(left := x));
    OffPutSelf(t, p, u.(left := x));
  }

  lemma ThenTwice(t: Tree, p: Path, u: Tree, l: Outcome, h: Outcome, tail: Outcome)
    requires Has(t, p) && u.Inner?()
    ensures var v := Put(t, p, u); var pl, ph := p + [false], p + [true];
            Has(v, pl) && Has(Put(v, pl, l.tree), ph) &&
            Then(t, p, Both(u, l, h), if l.ok && h.ok then tail else Both(u, l, h)) ==
            Then(v, pl, l, if l.ok then Then(Put(v, pl, l.tree), ph, h, if h.ok then tail else h) else l)
  {
    PutTwo(t, p, u, l.tree, h.tree);
    UnderUnder(p, [false], l.taken);
    UnderUnder(p, [true], h.taken);
    UnderJoin(p, Under([false], l.taken), Under([true], h.taken));
    var a, b := Under(p + [false], l.taken), Under(p + [true], h.taken);
    assert a + (b + tail.taken) == (a + b) + tail.taken;
  }

  // ---------- Starting from the roots ----------

  /** Working through the root array is traversing the whole forest. */
  lemma {:induction false} TakeAllRoots(t: Tree, p: Path, s: int, e: int, clear: int)
    requires WF(t) && Has(t, p) && (At(t, p).Roots? || At(t, p).End?)
    ensures var work := Under(p, RootPaths(At(t, p))); var r := TakeOne(t, p, s, e, clear);
            Worklist(t, work) &&
            TakeAll(t, work, s, e, clear) == Outcome(r.ok, Put(t, p, r.tree), Under(p, r.taken), r.clear)
    decreases At(t, p)
  {
    hide Take;
    hide TakeAll;
    var row := At(t, p);
    var work := Under(p, RootPaths(row));
    RootWorklist(t, p);
    if row.End? {
      PutPut(t, p, row, row);
      TakeNothing(t, Off(t, p), s, e, clear);
    } else {
      TakeInner(row, Off(t, p), s, e, clear);
      var pl, ph := p + [false], p + [true];
      OneStep(row, false);
      OneStep(row, true);
      AppendPath(t, p, [false]);
      AppendPath(t, p, [true]);
      WFAt(t, p);
      assert work[0] == pl;
      UnderUnder(p, [true], RootPaths(row.right));
      assert work[1..] == Under(ph, RootPaths(row.right));
      TakeAllStep(t, work, s, e, clear);
      var l := TakeOne(t, pl, s, e, clear);
      assert l == Take(row.left, Off(t, p), s, e, clear);
      var h := Take(row.right, Off(t, p) + Size(row.left), s, e, l.clear);
      PutPut(t, p, row, row);
      PutTwo(t, p, row, l.tree, h.tree);
      var t' := Put(t, pl, l.tree);
      if l.ok {
        PutTaken(t, pl, s, e, clear);
        OffStable(t, t', ph);
        TakeAllRoots(t', ph, s, e, l.clear);
      }
      ThenRoots(t, p, row, l, h);
    }
  }

  lemma TakeNothing(t: Tree, off: nat, s: int, e: int, clear: int)
    requires WF(t)
    ensures Take(End, off, s, e, clear) == Outcome(true, End, [], clear) &&
            TakeAll(t, [], s, e, clear) == Outcome(true, t, [], clear)
  {}

  lemma ThenRoots(t: Tree, p: Path, u: Tree, l: Outcome, h: Outcome)
    requires Has(t, p) && u.Inner?() && At(t, p) == u
    ensures var pl, ph := p + [false], p + [true]; var r := Both(u, l, h);
            Has(t, pl) && Has(Put(t, pl, l.tree), ph) &&
            Outcome(r.ok, Put(t, p, r.tree), Under(p, r.taken), r.clear) ==
            Then(t, pl, l, if l.ok then Outcome(h.ok, Put(Put(t, pl, l.tree), ph, h.tree), Under(ph, h.taken), h.clear)
                 else l)
  {
    PutPut(t, p, u, u);
    PutTwo(t, p, u, l.tree, h.tree);
    UnderUnder(p, [false], l.taken);
    UnderUnder(p, [true], h.taken);
    UnderJoin(p, Under([false], l.taken), Under([true], h.taken));
  }

  lemma {:induction false} RootWorklist(t: Tree, p: Path)
    requires WF(t) && Has(t, p) && (At(t, p).Roots? || At(t, p).End?)
    ensures Worklist(t, Under(p, RootPaths(At(t, p))))
    decreases At(t, p)
  {
    var row := At(t, p);
    if row.Roots? {
      var pl, ph := p + [false], p + [true];
      OneStep(row, false);
      OneStep(row, true);
      AppendPath(t, p, [false]);
      AppendPath(t, p, [true]);
      WFAt(t, p);
      RootWorklist(t, ph);
      UnderUnder(p, [true], RootPaths(row.right));
      var rest := Under(ph, RootPaths(row.right));
      var work := Under(p, RootPaths(row));
      assert work == [pl] + rest;
      forall i, j | 0 <= i < j < |work| && Pair(i, j) ensures Apart(work[i], work[j]) {
        if i == 0 {
          assert work[j] == rest[j - 1] == ph + RootPaths(row.right)[j - 1];
          assert work[j][|p|] != pl[|p|];
        } else {
          assert Pair(i - 1, j - 1) && work[i] == rest[i - 1] && work[j] == rest[j - 1];
        }
      }
    }
  }

  // ---------- What one visit of the loop does ----------

  /** The outcome of the rest of the traversal, told from before `took` was taken. */
  function After(took: seq<Path>, r: Outcome): Outcome { r.(taken := took + r.taken) }

  lemma VisitSkips(t: Tree, work: seq<Path>, s: int, e: int, clear: int)
    requires WF(t) && Worklist(t, work) && work != []
    requires !Overlaps(s, e, Off(t, work[0]), Off(t, work[0]) + Size(At(t, work[0])))
    ensures Worklist(t, work[1..])
    ensures TakeAll(t, work, s, e, clear) == After([], TakeAll(t, work[1..], s, e, clear))
  {
    var p := work[0];
    WFAt(t, p);
    var x := At(t, p);
    if x.Free? {
      SizeOfBlock(x);
      assert Carve(x.order, x.clear, Off(t, p), s, e) == x;
    }
    assert TakeOne(t, p, s, e, clear) == Outcome(true, x, [], clear);
    PutPut(t, p, x, x);
    TakeAllStep(t, work, s, e, clear);
  }

  lemma TakeWhole(x: Tree, off: nat, s: int, e: int, clear: int)
    requires x.Free? && Overlaps(s, e, off, off + Pow2(x.order)) && Contains(s, e, off, off + Pow2(x.order))
    ensures Take(x, off, s, e, clear) ==
            Outcome(true, Allocated(x.order, x.clear), [[]], clear - if x.clear then Pow2(x.order) else 0)
  {}

  lemma VisitTakes(t: Tree, work: seq<Path>, s: int, e: int, clear: int)
    requires WF(t) && Worklist(t, work) && work != [] && At(t, work[0]).Free?
    requires var p := work[0]; var x := At(t, p);
             Overlaps(s, e, Off(t, p), Off(t, p) + Pow2(x.order)) &&
             Contains(s, e, Off(t, p), Off(t, p) + Pow2(x.order))
    ensures var p := work[0]; var x := At(t, p); var u := Put(t, p, Allocated(x.order, x.clear));
            WF(u) && Worklist(u, work[1..]) &&
            TakeAll(t, work, s, e, clear) ==
            After([p], TakeAll(u, work[1..], s, e, clear - if x.clear then Pow2(x.order) else 0))
  {
    hide Take;
    hide TakeAll;
    var p := work[0];
    var x := At(t, p);
    TakeWhole(x, Off(t, p), s, e, clear);
    TakeAllStep(t, work, s, e, clear);
    assert Under(p, [[]]) == [p] by { assert p + [] == p; }
  }

  lemma VisitFails(t: Tree, work: seq<Path>, s: int, e: int, clear: int)
    requires WF(t) && Worklist(t, work) && work != []
    requires var p := work[0]; var x := At(t, p); var a, b := Off(t, p), Off(t, p) + Size(x);
             Overlaps(s, e, a, b) && (x.Allocated? || (x.Split? && Contains(s, e, a, b) && clear == 0))
    ensures TakeAll(t, work, s, e, clear) == Outcome(false, t, [], clear)
  {
    var p := work[0];
    assert TakeOne(t, p, s, e, clear) == Outcome(false, At(t, p), [], clear);
    PutPut(t, p, At(t, p), At(t, p));
    TakeAllStep(t, work, s, e, clear);
  }

  /** An upper bound on the visits of a node and of what may become of it. */
  function Weight(t: Tree, p: Path): nat { if SizeAt(t, p) == 0 then 0 else 2 * SizeAt(t, p) - 1 }

  function Effort(t: Tree, work: seq<Path>): nat {
    if work == [] then 0 else Weight(t, work[0]) + Effort(t, work[1..])
  }

  lemma {:induction false} EffortStable(t: Tree, u: Tree, work: seq<Path>)
    requires WF(t) && WF(u) && SameRoots(t, u)
    requires forall i | 0 <= i < |work| :: BlockAt(t, work[i]) && BlockAt(u, work[i])
    ensures Effort(t, work) == Effort(u, work)
  {
    if work != [] {
      OffStable(t, u, work[0]);
      WFAt(t, work[0]);
      WFAt(u, work[0]);
      SameRootsSize(At(t, work[0]), At(u, work[0]));
      EffortStable(t, u, work[1..]);
    }
  }

  lemma WeightSplits(t: Tree, u: Tree, p: Path)
    requires WF(t) && WF(u) && SameRoots(t, u) && BlockAt(t, p) && Has(u, p + [false]) && Has(u, p + [true])
    ensures Weight(u, p + [false]) + Weight(u, p + [true]) < Weight(t, p)
  {
    PrefixHas(u, p, p + [true]);
    OneStep(At(u, p), false);
    OneStep(At(u, p), true);
    AppendPath(u, p, [false]);
    AppendPath(u, p, [true]);
    OffStable(t, u, p);
    WFAt(t, p);
    WFAt(u, p);
    SizeOfBlock(At(t, p));
    SizeOfBlock(At(u, p));
    SizeOfBlock(At(u, p).left);
    SizeOfBlock(At(u, p).right);
  }

  lemma EffortSkip(t: Tree, u: Tree, work: seq<Path>)
    requires WF(t) && WF(u) && SameRoots(t, u) && Worklist(t, work) && work != [] && Worklist(u, work[1..])
    ensures Effort(u, work[1..]) < Effort(t, work)
  {
    WFAt(t, work[0]);
    SizeOfBlock(At(t, work[0]));
    EffortStable(t, u, work[1..]);
  }

  lemma EffortPush(t: Tree, u: Tree, work: seq<Path>)
    requires WF(t) && WF(u) && SameRoots(t, u) && Worklist(t, work) && work != []
    requires Worklist(u, [work[0] + [false], work[0] + [true]] + work[1..])
    ensures Effort(u, [work[0] + [false], work[0] + [true]] + work[1..]) < Effort(t, work)
  {
    var p := work[0];
    var tail := work[1..];
    var rest := [p + [false], p + [true]] + tail;
    assert rest[0] == p + [false] && rest[1] == p + [true];
    forall i | 0 <= i < |tail| ensures BlockAt(u, tail[i]) { assert rest[i + 2] == tail[i]; }
    EffortStable(t, u, tail);
    WeightSplits(t, u, p);
    EffortCons(u, p + [false], [p + [true]] + tail);
    EffortCons(u, p + [true], tail);
    assert rest == [p + [false]] + ([p + [true]] + tail);
  }

  lemma EffortCons(t: Tree, p: Path, tail: seq<Path>)
    ensures Effort(t, [p] + tail) == Weight(t, p) + Effort(t, tail)
  {
    assert ([p] + tail)[1..] == tail;
  }
}
