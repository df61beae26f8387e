/** The dependencies collected on a job before it is armed. */
module SchedDeps {
  /** A fence, by its timeline and its place on it. */
  datatype Stamp = Stamp(context: nat, seqno: nat)

  /** No two fences of one timeline. */
  predicate OneEach(deps: seq<Stamp>) {
    forall i, j | 0 <= i < j < |deps| :: deps[i].context != deps[j].context
  }

  /** Waiting for `deps` means waiting for `f` at least. */
  predicate Covers(deps: seq<Stamp>, f: Stamp) {
    exists d | d in deps :: d.context == f.context && d.seqno >= f.seqno
  }

  /** `drm_sched_job_add_dependency`; it fails exactly if the table has to grow and there is no memory. */
  method AddDependency(deps: seq<Stamp>, f: Stamp, noMemory: bool) returns (ok: bool, r: seq<Stamp>)
    requires OneEach(deps)
    ensures OneEach(r) && (ok ==> Covers(r, f)) && (!ok ==> r == deps)
    ensures ok <==> !noMemory || exists d | d in deps :: d.context == f.context
    ensures forall g | Covers(deps, g) :: Covers(r, g)
    ensures forall d | d in r :: d in deps || d == f
  {
    var i := 0;
    while i < |deps|
      invariant 0 <= i <= |deps| && forall k | 0 <= k < i :: deps[k].context != f.context
    {
      if deps[i].context == f.context {
        r := if f.seqno > deps[i].seqno then deps[i := f] else deps;
        assert r[i] in r && r[i].context == f.context && r[i].seqno >= f.seqno && r[i].seqno >= deps[i].seqno;
        forall g | Covers(deps, g) ensures Covers(r, g) {
          var d :| d in deps && d.context == g.context && d.seqno >= g.seqno;
          var k :| 0 <= k < |deps| && deps[k] == d;
          assert r[k] in r && (k != i ==> r[k] == d);
        }
        return true, r;
      }
      i := i + 1;
    }
    if noMemory { return false, deps; }
    r := deps + [f];
    assert r[|deps|] == f;
    forall g | Covers(deps, g) ensures Covers(r, g) {
      var d :| d in deps && d.context == g.context && d.seqno >= g.seqno;
      assert d in r;
    }
    return true, r;
  }

  /** Whatever fences are added in whatever order, there is one per timeline, the latest of those added. */
  method AddAll(fences: seq<Stamp>, noMemory: seq<bool>) returns (ok: bool, r: seq<Stamp>)
    requires |noMemory| == |fences|
    ensures OneEach(r) && forall d | d in r :: d in fences
    ensures ok ==> forall f | f in fences :: Covers(r, f)
    ensures true !in noMemory ==> ok
  {
    r, ok := [], true;
    var i := 0;
    while i < |fences| && ok
      invariant 0 <= i <= |fences| && OneEach(r) && forall d | d in r :: d in fences
      invariant ok ==> forall k | 0 <= k < i :: Covers(r, fences[k])
      invariant true !in noMemory ==> ok
    {
      ok, r := AddDependency(r, fences[i], noMemory[i]);
      i := i + 1;
    }
  }
}
