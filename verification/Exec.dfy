/** The lock collector of `drm_exec.c`: it locks any number of objects and starts over on contention. */
module Exec {
  import opened Common

  type Object = nat

  datatype Errno = Ok | EDEADLK | EALREADY | EINTR | ENOMEM

  /** `exec->contended`: the dummy of a new collector, none, or an object that has to be locked first. */
  datatype Contended = Dummy | Nobody | By(who: Object)

  /** What happens to an attempt to lock an object: contention, a signal while waiting, no memory to track it. */
  datatype Luck = Luck(contention: bool, interrupted: bool, noMemory: bool)

  /** No error: at most contention. */
  predicate Clean(l: Luck) { !l.interrupted && !l.noMemory }

  predicate Good(l: Luck) { !l.contention && Clean(l) }

  const PAGE_SLOTS: nat := 512

  /** The references a collector has to hold on `o`. */
  ghost function Due(o: Object, held: seq<Object>, c: Contended, p: Option<Object>): nat {
    (if o in held then 1 else 0) + (if c == By(o) then 1 else 0) + (if p == Some(o) then 1 else 0)
  }

  lemma LastOf(s: seq<Object>)
    requires s != [] && NoDup(s)
    ensures var r, o := s[..|s| - 1], s[|s| - 1]; o !in r && NoDup(r) && forall x :: x in s <==> x in r || x == o
  {
    var r, n := s[..|s| - 1], |s| - 1;
    assert s == r + [s[n]];
    forall i, j | 0 <= i < j < n && Pair(i, j) ensures r[i] != r[j] { assert s[i] == r[i] && s[j] == r[j]; }
    forall i | 0 <= i < n ensures r[i] != s[n] { assert Pair(i, n); }
  }

  /** The entries without the one at `i`. */
  function RemoveAt(s: seq<Object>, i: nat): seq<Object>
    requires i < |s|
  {
    s[..i] + s[i + 1..]
  }

  lemma RemovedOne(s: seq<Object>, i: nat)
    requires i < |s| && NoDup(s)
    ensures NoDup(RemoveAt(s, i)) && forall x :: x in RemoveAt(s, i) <==> x in s && x != s[i]
  {
    var r := RemoveAt(s, i);
    forall j | 0 <= j < |r| ensures r[j] == s[if j < i then j else j + 1] && r[j] != s[i] {
      assert Pair(j, i) || Pair(i, j + 1);
    }
    forall j, k | 0 <= j < k < |r| && Pair(j, k) ensures r[j] != r[k] {
      assert Pair(if j < i then j else j + 1, if k < i then k else k + 1);
    }
    forall x | x in s && x != s[i] ensures x in r {
      var j :| 0 <= j < |s| && s[j] == x;
      assert r[if j < i then j else j - 1] == x;
    }
  }

  class Collector {
    var interruptible: bool
    var ignoreDuplicates: bool
    var objects: array<Object>
    var num: nat
    var contended: Contended
    var prelocked: Option<Object>
    /** The references and the locks this collector holds. */
    ghost var refs: multiset<Object>
    ghost var locks: set<Object>
    /** The locks that were held each time the slow path was taken. */
    ghost var waits: seq<set<Object>>

    ghost predicate Bounded()
      reads this
    {
      num <= objects.Length
    }

    ghost function Held(): seq<Object>
      reads this, objects
      requires Bounded()
    {
      objects[..num]
    }

    /** A reference per entry, one for the contended and one for the prelocked object; a lock per entry. */
    ghost predicate Valid()
      reads this, objects
    {
      Bounded() && NoDup(Held()) &&
      (forall o :: refs[o] == Due(o, Held(), contended, prelocked)) && (forall o :: o in locks <==> o in Held()) &&
      forall w | w in waits :: w == {}
    }

    /** The prelocked object is among the locked ones. */
    ghost predicate Synced()
      reads this, objects
      requires Bounded()
    {
      prelocked.Some? ==> prelocked.value in Held()
    }

    /** The caller went through the retry loop after the last contention. */
    predicate Calm()
      reads this
    {
      contended != Dummy && (contended.By? ==> num == 0 && prelocked.None?)
    }

    /** `drm_exec_init` */
    constructor (interruptible: bool, ignoreDuplicates: bool, nr: nat, noMemory: bool)
      ensures Valid() && Synced() && Held() == [] && contended == Dummy && prelocked == None
      ensures refs == multiset{} && locks == {} && fresh(objects)
      ensures this.interruptible == interruptible && this.ignoreDuplicates == ignoreDuplicates
    {
      this.interruptible, this.ignoreDuplicates := interruptible, ignoreDuplicates;
      var size := if noMemory then 0 else if nr == 0 then PAGE_SLOTS else nr;
      objects := new Object[size](_ => 0);
      num, contended, prelocked, refs, locks, waits := 0, Dummy, None, multiset{}, {}, [];
    }

    /** `drm_exec_obj_locked`: a reference and an entry for an object that has just been locked. */
    method Track(o: Object, luck: Luck) returns (err: Errno)
      requires Bounded()
      modifies this`objects, this`num, this`refs, objects
      ensures Bounded() && (objects == old(objects) || fresh(objects))
      ensures err == Ok ==> Held() == old(Held()) + [o] && refs == old(refs)[o := old(refs)[o] + 1]
      ensures err != Ok ==> err == ENOMEM && Held() == old(Held()) && refs == old(refs) && num == old(num)
      ensures err == Ok <==> !luck.noMemory || old(num < objects.Length)
      ensures objects.Length == old(objects.Length) + if err == Ok && old(num == objects.Length) then PAGE_SLOTS else 0
    {
      if num == objects.Length {
        if luck.noMemory { return ENOMEM; }
        var tmp := new Object[objects.Length + PAGE_SLOTS](i reads this, objects =>
                                                           if 0 <= i < objects.Length then objects[i] else 0);
        assert tmp[..num] == objects[..num];
        objects := tmp;
      }
      refs := refs[o := refs[o] + 1];
      objects[num] := o;
      num := num + 1;
      return Ok;
    }

    /** `drm_exec_unlock_all`: from the last entry to the first, then the reference on the prelocked object. */
    method UnlockAll()
      requires Valid()
      modifies this`prelocked, this`refs, this`locks
      ensures prelocked == None && locks == {} && forall o :: refs[o] == Due(o, [], contended, None)
    {
      var i := num;
      ghost var left := Held();
      while i > 0
        invariant 0 <= i <= num && left == objects[..i] && NoDup(left)
        invariant forall o :: refs[o] == Due(o, left, contended, prelocked)
        invariant forall o :: o in locks <==> o in left
      {
        i := i - 1;
        var o := objects[i];
        LastOf(left);
        left := left[..i];
        locks := locks - {o};
        refs := refs[o := refs[o] - 1];
      }
      if prelocked.Some? { refs := refs[prelocked.value := refs[prelocked.value] - 1]; }
      prelocked := None;
    }

    /** `drm_exec_cleanup`: whether to go through the loop (once more). */
    method Cleanup() returns (again: bool)
      requires Valid()
      modifies this`num, this`contended, this`prelocked, this`refs, this`locks
      ensures Valid() && Calm() && objects == old(objects)
      ensures again <==> old(contended) != Nobody
      ensures !again ==> Held() == old(Held()) && contended == Nobody && prelocked == old(prelocked)
      ensures old(contended).By? ==> Held() == [] && contended == old(contended) && prelocked == None
      ensures old(contended) == Dummy ==> Held() == old(Held()) && contended == Nobody && prelocked == old(prelocked)
    {
      if contended == Nobody { return false; }
      if contended == Dummy {
        contended := Nobody;
        return true;
      }
      UnlockAll();
      num := 0;
      assert Held() == [];
      return true;
    }

    /** `drm_exec_fini`: nothing is held afterwards. */
    method Fini()
      requires Valid()
      modifies this`prelocked, this`refs, this`locks
      ensures refs == multiset{} && locks == {}
    {
      UnlockAll();
      if contended.By? { refs := refs[contended.who := refs[contended.who] - 1]; }
      assert forall o :: refs[o] == 0;
    }

    // ---------- Locking ----------

    /** Whether this collector's ticket holds the lock of `o` already. */
    method Holds(o: Object) returns (b: bool)
      requires Valid()
      ensures b <==> o in locks
    {
      var i := 0;
      while i < num
        invariant 0 <= i <= num && o !in objects[..i]
      {
        if objects[i] == o { assert Held()[i] == o; return true; }
        i := i + 1;
      }
      return false;
    }

    /** An object that has just been locked is tracked, or unlocked again. */
    method LockAndTrack(o: Object, luck: Luck) returns (err: Errno)
      requires Valid() && o !in locks
      modifies this`objects, this`num, this`refs, this`locks, objects
      ensures Valid() && (objects == old(objects) || fresh(objects))
      ensures if err == Ok then Held() == old(Held()) + [o]
              else err == ENOMEM && Held() == old(Held()) && num == old(num)
      ensures err == Ok <==> !luck.noMemory || old(num < objects.Length)
      ensures objects.Length == old(objects.Length) + if err == Ok && old(num == objects.Length) then PAGE_SLOTS else 0
    {
      locks := locks + {o};
      err := Track(o, luck);
      if err != Ok { locks := locks - {o}; }
    }

    /** `drm_exec_lock_contended`: the slow path, which is taken only while nothing is locked. */
    method LockContended(luck: Luck) returns (err: Errno)
      requires Valid() && Calm()
      modifies this`objects, this`num, this`contended, this`prelocked, this`refs, this`locks, this`waits, objects
      ensures Valid() && (objects == old(objects) || fresh(objects)) && contended == Nobody && err != EDEADLK
      ensures old(contended) == Nobody ==> err == Ok && Held() == old(Held()) && prelocked == old(prelocked)
      ensures old(contended).By? ==>
                if err == Ok then Held() == [old(contended).who] && prelocked == Some(old(contended).who)
                else Held() == [] && prelocked == None
      ensures waits == old(waits) + if old(contended).By? then [old(locks)] else []
      ensures old(contended).By? && interruptible && luck.interrupted ==> err == EINTR
      ensures err == EINTR ==> interruptible && luck.interrupted
      ensures err == ENOMEM <==>
                old(contended).By? && !(interruptible && luck.interrupted) && luck.noMemory && old(objects.Length) == 0
      ensures err in {Ok, EINTR, ENOMEM}
      ensures err == Ok ==>
                objects.Length == if old(contended.By? && objects.Length == 0) then PAGE_SLOTS else old(objects.Length)
    {
      if contended == Nobody { return Ok; }
      var o := contended.who;
      waits := waits + [locks];
      if interruptible && luck.interrupted {
        DropContended();
        return EINTR;
      }
      err := LockAndTrack(o, luck);
      if err == Ok {
        contended, prelocked := Nobody, Some(o);
      } else {
        DropContended();
      }
    }

    /** The contended object is given up, and the reference on it. */
    method DropContended()
      requires Valid() && contended.By?
      modifies this`contended, this`refs
      ensures Valid() && contended == Nobody
    {
      refs := refs[contended.who := refs[contended.who] - 1];
      contended := Nobody;
    }

    /** Why an attempt to lock `o` fails, with `held` locked already and room for `room` entries. */
    predicate Refusal(o: Object, luck: Luck, held: seq<Object>, room: nat, err: Errno)
      reads this`interruptible, this`ignoreDuplicates
    {
      (err == EALREADY <==> o in held && !ignoreDuplicates) &&
      (err == EDEADLK <==> o !in held && luck.contention) &&
      (err == EINTR <==> o !in held && !luck.contention && interruptible && luck.interrupted) &&
      (err == ENOMEM <==> o !in held && !luck.contention && !(interruptible && luck.interrupted) &&
                          luck.noMemory && |held| >= room)
    }

    /** The fast path of `drm_exec_lock_obj`. */
    method LockFast(o: Object, luck: Luck) returns (err: Errno)
      requires Valid() && contended == Nobody
      modifies this`objects, this`num, this`contended, this`refs, this`locks, objects
      ensures Valid() && (objects == old(objects) || fresh(objects))
      ensures contended == if err == EDEADLK then By(o) else Nobody
      ensures Refusal(o, luck, old(Held()), old(objects.Length), err)
      ensures Held() == if err == Ok && o !in old(Held()) then old(Held()) + [o] else old(Held())
    {
      var already := Holds(o);
      if already { return if ignoreDuplicates then Ok else EALREADY; }
      if luck.contention {
        refs := refs[o := refs[o] + 1];
        contended := By(o);
        return EDEADLK;
      }
      if interruptible && luck.interrupted { return EINTR; }
      err := LockAndTrack(o, luck);
    }

    /** The prelocked object is asked for: its entry stays, the extra reference goes. */
    method DropPrelocked()
      requires Valid() && prelocked.Some?
      modifies this`prelocked, this`refs
      ensures Valid() && prelocked == None
    {
      var o := prelocked.value;
      refs := refs[o := refs[o] - 1];
      prelocked := None;
    }

    /** What is locked and what is prelocked once the contended object has been dealt with. */
    ghost function First(): (seq<Object>, Option<Object>)
      reads this, objects
      requires Bounded()
    {
      if contended.By? then ([contended.who], Some(contended.who)) else (Held(), prelocked)
    }

    /** The contended object cannot be locked. */
    predicate Stuck(slow: Luck)
      reads this
    {
      contended.By? && ((interruptible && slow.interrupted) || (slow.noMemory && objects.Length == 0))
    }

    /**
      The outcome of an attempt to lock `o`: the contended object comes first, the prelocked object is taken as locked,
      and any other is locked unless there is a reason not to.
     */
    twostate predicate Attempted(o: Object, slow: Luck, fast: Luck, err: Errno)
      reads this, objects
      requires old(Bounded()) && Bounded()
    {
      var (held, first) := old(First());
      contended == (if err == EDEADLK then By(o) else Nobody) &&
      if old(Stuck(slow)) then
        err == (if interruptible && slow.interrupted then EINTR else ENOMEM) && Held() == [] && prelocked == None
      else if first == Some(o) then
        err == Ok && Held() == held && prelocked == None
      else
        var room := if old(contended.By? && objects.Length == 0) then PAGE_SLOTS else old(objects.Length);
        prelocked == first && Held() == (if err == Ok && o !in held then held + [o] else held) &&
        Refusal(o, fast, held, room, err)
    }

    /**
      `drm_exec_lock_obj`: success means that the object is locked, unless it is the prelocked object and
      was unlocked by hand before.
     */
    method LockObject(o: Object, slow: Luck, fast: Luck) returns (err: Errno)
      requires Valid() && Calm()
      modifies this`objects, this`num, this`contended, this`prelocked, this`refs, this`locks, this`waits, objects
      ensures Valid() && (old(Synced()) ==> Synced()) && (objects == old(objects) || fresh(objects))
      ensures err == Ok ==> (o in Held() <==> old(Synced() || prelocked != Some(o)))
      ensures Attempted(o, slow, fast, err)
    {
      hide Due;
      hide NoDup;
      err := LockContended(slow);
      if err != Ok { return; }
      if prelocked == Some(o) {
        DropPrelocked();
        return Ok;
      }
      err := LockFast(o, fast);
    }

    // ---------- Unlocking one object ----------

    /** The entries behind `i` move down by one. */
    method CloseGap(i: nat)
      requires Bounded() && i < num
      modifies this`num, objects
      ensures Bounded() && Held() == RemoveAt(old(Held()), i)
    {
      var k := i + 1;
      while k < num
        invariant i + 1 <= k <= num && num == old(num)
        invariant forall j | 0 <= j < num ::
                    objects[j] == if i <= j < k - 1 then old(objects[j + 1]) else old(objects[j])
      {
        objects[k - 1] := objects[k];
        k := k + 1;
      }
      num := num - 1;
      assert Held() == RemoveAt(old(Held()), i);
    }

    /** `drm_exec_unlock_obj`; the prelocked object gets out of step if it is unlocked this way. */
    method UnlockObject(o: Object)
      requires Valid()
      modifies this`num, this`refs, this`locks, objects
      ensures Valid() && o !in Held() && (forall x :: x in Held() <==> x in old(Held()) && x != o)
      ensures o !in old(Held()) ==> Held() == old(Held())
      ensures o in old(Held()) ==>
                exists i :: 0 <= i < |old(Held())| && old(Held())[i] == o && Held() == RemoveAt(old(Held()), i)
      ensures old(Synced()) ==> (Synced() <==> prelocked != Some(o))
    {
      var i := num;
      while i > 0
        invariant 0 <= i <= num && o !in objects[i..num]
      {
        i := i - 1;
        if objects[i] == o {
          ghost var was := Held();
          assert was[i] == o;
          RemovedOne(was, i);
          locks := locks - {o};
          refs := refs[o := refs[o] - 1];
          CloseGap(i);
          return;
        }
      }
      assert objects[0..num] == Held();
    }

    /** The object was locked, and was unlocked again; nothing else has. */
    twostate predicate Released(o: Object)
      reads this, objects
      requires old(Bounded()) && Bounded()
    {
      o !in Held() && forall x | x != o :: x in Held() <==> x in old(First()).0
    }

    /** `drm_exec_prepare_obj`: lock and reserve fence slots, or leave the object unlocked. */
    method PrepareObject(o: Object, slow: Luck, fast: Luck, noSlots: bool) returns (err: Errno)
      requires Valid() && Calm()
      modifies this`objects, this`num, this`contended, this`prelocked, this`refs, this`locks, this`waits, objects
      ensures Valid() && (old(Synced()) ==> Synced()) && (objects == old(objects) || fresh(objects)) &&
              contended != Dummy
      ensures err == Ok ==> contended == Nobody && (o in Held() <==> old(Synced() || prelocked != Some(o)))
      ensures contended.By? ==> err == EDEADLK && contended == By(o)
      ensures !noSlots ==> Attempted(o, slow, fast, err)
      ensures noSlots ==> err != Ok && (Attempted(o, slow, fast, err) || (err == ENOMEM && Released(o)))
    {
      err := LockObject(o, slow, fast);
      if err != Ok { return; }
      if noSlots {
        assert Attempted(o, slow, fast, Ok);
        UnlockObject(o);
        return ENOMEM;
      }
    }

    // ---------- The retry loop ----------

    /** One pass over the objects: all locked, or stopped by contention or by an error. */
    method LockPass(wanted: seq<Object>, luck: seq<(Luck, Luck)>) returns (err: Errno)
      requires Valid() && Calm() && Synced() && wanted != [] && |luck| == |wanted|
      requires Held() == [] && prelocked == None && (contended.By? ==> contended.who in wanted)
      modifies this`objects, this`num, this`contended, this`prelocked, this`refs, this`locks, this`waits, objects
      ensures Valid() && Synced() && contended != Dummy && (objects == old(objects) || fresh(objects))
      ensures err == EDEADLK <==> contended.By?
      ensures contended.By? ==> contended.who in wanted
      ensures err == Ok ==> forall x :: x in wanted <==> x in Held()
      ensures (ignoreDuplicates || NoDup(wanted)) && AllClean(luck) ==> err in {Ok, EDEADLK}
      ensures (ignoreDuplicates || NoDup(wanted)) && AllGood(luck) ==> err == Ok
    {
      var i := 0;
      err := Ok;
      while i < |wanted|
        invariant 0 <= i <= |wanted| && Valid() && Synced() && Calm() && (objects == old(objects) || fresh(objects))
        invariant err == Ok && (i > 0 ==> contended == Nobody) && forall x | x in wanted[..i] :: x in Held()
        invariant contended.By? ==> contended.who in wanted
        invariant prelocked.Some? ==> prelocked.value in wanted
        invariant forall x | x in Held() :: x in wanted[..i] || prelocked == Some(x)
      {
        if NoDup(wanted) { FirstMet(wanted, i); }
        err := LockObject(wanted[i], luck[i].0, luck[i].1);
        if err != Ok { return; }
        assert wanted[..i + 1] == wanted[..i] + [wanted[i]];
        i := i + 1;
      }
    }
  }

  predicate AllClean(luck: seq<(Luck, Luck)>) { forall l | l in luck :: Clean(l.0) && Clean(l.1) }

  /** No error, and no contention on the way. */
  predicate AllGood(luck: seq<(Luck, Luck)>) { forall l | l in luck :: Clean(l.0) && Good(l.1) }

  lemma FirstMet(s: seq<Object>, i: nat)
    requires NoDup(s) && i < |s|
    ensures s[i] !in s[..i]
  {
    if s[i] in s[..i] {
      var j :| 0 <= j < i && s[..i][j] == s[i];
      assert Pair(j, i);
    }
  }

  /**
    A client that locks `wanted`, with a pass over it for every entry of `luck`. Done means that exactly the
    wanted objects are locked, and contention alone only delays this: it is reached as soon as one pass meets none.
   */
  method LockAll(wanted: seq<Object>, interruptible: bool, ignoreDuplicates: bool, nr: nat, noMemory: bool,
                 luck: seq<seq<(Luck, Luck)>>)
    returns (c: Collector, done: bool)
    requires wanted != [] && forall l | l in luck :: |l| == |wanted|
    ensures fresh(c) && fresh(c.objects) && c.Valid()
    ensures done ==> c.contended == Nobody && forall x :: x in c.Held() <==> x in wanted
    ensures (ignoreDuplicates || NoDup(wanted)) && (forall l | l in luck :: AllClean(l)) ==>
              (exists l | l in luck :: AllGood(l)) ==> done
  {
    c := new Collector(interruptible, ignoreDuplicates, nr, noMemory);
    ghost var steady := (ignoreDuplicates || NoDup(wanted)) && (forall l | l in luck :: AllClean(l));
    var again := c.Cleanup();
    var err := Ok;
    var i := 0;
    while i < |luck| && again && err == Ok
      invariant 0 <= i <= |luck| && fresh(c) && fresh(c.objects) && c.Valid() && c.Synced()
      invariant c.ignoreDuplicates == ignoreDuplicates
      invariant again && err == Ok ==>
                  c.Calm() && c.Held() == [] && c.prelocked == None && (c.contended.By? ==> c.contended.who in wanted)
      invariant !again ==> c.contended == Nobody && forall x :: x in wanted <==> x in c.Held()
      invariant steady ==> err == Ok && (again ==> forall l | l in luck[..i] :: !AllGood(l))
    {
      assert luck[i] in luck;
      err := c.LockPass(wanted, luck[i]);
      if err == Ok || err == EDEADLK {
        again := c.Cleanup();
        err := Ok;
      }
      assert luck[..i + 1] == luck[..i] + [luck[i]];
      i := i + 1;
    }
    assert i == |luck| ==> luck[..i] == luck;
    done := !again;
  }

  // ---------- Runs ----------

  datatype Op =
    | Retry
    | Lock(o: Object, slow: Luck, fast: Luck)
    | Prepare(o: Object, slow: Luck, fast: Luck, noSlots: bool)
    | Unlock(o: Object)

  /** One operation; locking does nothing before the caller has gone through the loop after a contention. */
  method Perform(c: Collector, op: Op)
    requires c.Valid()
    modifies c, c.objects
    ensures c.Valid() && (c.objects == old(c.objects) || fresh(c.objects))
  {
    match op {
      case Retry => var again := c.Cleanup();
      case Lock(o, slow, fast) =>
        if c.Calm() { var err := c.LockObject(o, slow, fast); }
      case Prepare(o, slow, fast, noSlots) =>
        if c.Calm() { var err := c.PrepareObject(o, slow, fast, noSlots); }
      case Unlock(o) => c.UnlockObject(o);
    }
  }

  /**
    After any run of a collector its references and locks are what they should be, and no slow path was taken
    with a lock held; `Fini` gives back the rest.
   */
  method Run(interruptible: bool, ignoreDuplicates: bool, nr: nat, noMemory: bool, ops: seq<Op>)
    returns (c: Collector)
    ensures fresh(c) && fresh(c.objects) && c.Valid()
  {
    c := new Collector(interruptible, ignoreDuplicates, nr, noMemory);
    var i := 0;
    while i < |ops|
      invariant 0 <= i <= |ops| && fresh(c) && fresh(c.objects) && c.Valid()
    {
      Perform(c, ops[i]);
      i := i + 1;
    }
  }

  /**
    Out of step: `a` is met with contention, locked first on the next pass and unlocked by hand. A request for
    `a` now succeeds and does not lock it, by the contract of `LockObject`.
   */
  method Unlocked(a: Object, b: Object, good: Luck, bad: Luck) returns (c: Collector)
    requires a != b && Good(good) && bad.contention
    ensures c.Valid() && c.Calm() && c.contended == Nobody && c.prelocked == Some(a) && !c.Synced()
  {
    c := new Collector(false, false, 0, false);
    var again := c.Cleanup();
    var err := c.LockObject(a, good, bad);
    again := c.Cleanup();
    err := c.LockObject(b, good, good);
    c.UnlockObject(a);
  }
}
