/**
  Jobs, fences and entities of the GPU scheduler, and what a state of one scheduler has to satisfy.

  A job is named by the order in which it was armed. Its record outlives the job, so that fences can
  still be asked about.
 */
module SchedState {
  import opened Common

  type JobId = nat
  type EntityId = nat

  /** A fence of somebody else, or one of the two fences of a job of this scheduler. */
  datatype Fence = External(id: nat) | Scheduled(job: JobId) | Finished(job: JobId)

  /**
    `s_fence->parent`: no fence, one that has not signalled, with or without the scheduler's callback
    on it, or one that has.
   */
  datatype Hardware = Absent | Running(callback: bool) | Signaled

  /**
    Where a job is: in its entity's queue, on the pending list, taken off it by the timeout handler,
    taken off it for good but kept for the handler, waiting to be killed, freed, or forgotten.
   */
  datatype Stage = Queued | Pending | Suspect | Guilty | Dying | Freed | Lost

  datatype Job = Job(
    entity: EntityId,
    credits: nat,
    submit: int,
    deps: seq<Fence>,
    next: nat,
    stage: Stage,
    hw: Hardware,
    scheduled: bool,
    finished: Option<int>,
    frees: nat,
    after: Option<JobId>,
    /** Whether `run_job` was called for it. */
    ran: bool)

  datatype Entity = Entity(
    prio: nat,
    queue: seq<JobId>,
    waiting: Option<Fence>,
    stopped: bool,
    queued: bool,
    key: int,
    last: Option<JobId>)

  // ---------- Jobs ----------

  /** The job's credits are in the scheduler's count: the hardware has it and the callback is armed. */
  predicate Charged(j: Job) { j.hw == Running(true) }

  /** The job left its queue without going to the hardware. */
  predicate Killed(j: Job) { j.stage != Queued && !j.ran }

  predicate JobOk(j: Job, paused: bool) {
    (j.finished.Some? ==> j.scheduled) && j.frees == (if j.stage == Freed then 1 else 0) &&
    (j.after.Some? ==> Killed(j)) && (Killed(j) ==> j.stage == Dying || j.stage == Freed) &&
    (j.ran ==> j.stage != Queued && j.stage != Dying && j.scheduled) &&
    match j.stage
    case Queued => !j.scheduled && j.hw == Absent && j.next <= |j.deps|
    case Dying => !j.scheduled && j.hw == Absent && j.next <= |j.deps|
    case Pending =>
      j.scheduled && (if paused then !Charged(j) && j.finished.None? else j.finished.Some? <==> !Charged(j))
    case Suspect => j.scheduled && (j.finished.Some? <==> !Charged(j))
    case Guilty => j.finished.Some? && !Charged(j)
    case Freed => j.finished.Some? && !Charged(j)
    case Lost => j.scheduled && (j.finished.Some? <==> !Charged(j))
  }

  predicate JobsOk(jobs: seq<Job>, paused: bool) {
    forall j | 0 <= j < |jobs| :: JobOk(jobs[j], paused)
  }

  /** The credits of all jobs the hardware is working on. */
  function Charge(jobs: seq<Job>): nat {
    if jobs == [] then 0
    else Charge(jobs[..|jobs| - 1]) + if Charged(jobs[|jobs| - 1]) then jobs[|jobs| - 1].credits else 0
  }

  /** The credits a job has left once it is cut down to the limit. */
  function Least(credits: nat, limit: nat): nat { if credits > limit then limit else credits }

  function Cost(j: Job): nat { if Charged(j) then j.credits else 0 }

  lemma {:induction false} ChargeUpdate(jobs: seq<Job>, j: JobId, x: Job)
    requires j < |jobs|
    ensures Charge(jobs[j := x]) == Charge(jobs) - Cost(jobs[j]) + Cost(x)
  {
    var n := |jobs| - 1;
    if j == n {
      assert jobs[j := x][..n] == jobs[..n];
    } else {
      assert jobs[j := x][..n] == jobs[..n][j := x];
      ChargeUpdate(jobs[..n], j, x);
    }
  }

  lemma ChargeAppend(jobs: seq<Job>, x: Job)
    ensures Charge(jobs + [x]) == Charge(jobs) + Cost(x)
  {
    assert (jobs + [x])[..|jobs|] == jobs;
  }

  /** The credits of the jobs in a list. */
  function Load(list: seq<JobId>, jobs: seq<Job>): nat
    requires forall i | 0 <= i < |list| :: list[i] < |jobs|
  {
    if list == [] then 0 else jobs[list[0]].credits + Load(list[1..], jobs)
  }

  // ---------- Lists of jobs ----------

  predicate Listed(list: seq<nat>, j: nat) { j in list }

  /** The list names exactly the jobs of that stage, each once. */
  predicate Lists(list: seq<JobId>, jobs: seq<Job>, stage: Stage) {
    NoDup(list) && (forall i | 0 <= i < |list| :: list[i] < |jobs| && jobs[list[i]].stage == stage) &&
    (forall j {:trigger Listed(list, j)} | 0 <= j < |jobs| && jobs[j].stage == stage :: Listed(list, j))
  }

  /** The queues name exactly the queued jobs, each once, in the queue of its entity. */
  predicate QueuesOk(entities: seq<Entity>, jobs: seq<Job>) {
    (forall e | 0 <= e < |entities| :: NoDup(entities[e].queue)) &&
    (forall e, i | 0 <= e < |entities| && 0 <= i < |entities[e].queue| ::
       var j := entities[e].queue[i]; j < |jobs| && jobs[j].stage == Queued && jobs[j].entity == e) &&
    (forall j | 0 <= j < |jobs| :: jobs[j].entity < |entities|) &&
    (forall e | 0 <= e < |entities| && entities[e].last.Some? :: entities[e].last.value < |jobs|) &&
    (forall j {:trigger Listed(entities[jobs[j].entity].queue, j)} | 0 <= j < |jobs| && jobs[j].stage == Queued ::
       Listed(entities[jobs[j].entity].queue, j))
  }

  // ---------- The order of jobs ----------

  /** Of the jobs of `e` that went to the hardware `r` is the newest, or there are none. */
  predicate IsNewest(jobs: seq<Job>, e: EntityId, r: Option<JobId>) {
    (r.Some? ==> r.value < |jobs| && jobs[r.value].entity == e && jobs[r.value].ran) &&
    forall j | 0 <= j < |jobs| && jobs[j].entity == e && jobs[j].ran :: r.Some? && j <= r.value
  }

  function Newest(jobs: seq<Job>, e: EntityId): (r: Option<JobId>)
    ensures IsNewest(jobs, e, r)
  {
    var n := |jobs| - 1;
    if jobs == [] then None
    else if jobs[n].entity == e && jobs[n].ran then Some(n)
    else
      var r := Newest(jobs[..n], e);
      assert forall j | 0 <= j < n :: jobs[..n][j] == jobs[j];
      r
  }

  /** A killed job waits for the newest job on the hardware, or for a killed job before it. */
  predicate Linked(after: Option<JobId>, j: JobId, x: Entity, e: EntityId, jobs: seq<Job>) {
    after == x.last ||
    (after.Some? && after.value < j && after.value < |jobs| && jobs[after.value].entity == e &&
     Killed(jobs[after.value]))
  }

  /**
    The jobs of an entity go to the hardware in the order in which they were pushed, the entity knows the last one
    that did, and killed jobs are behind it. None does once a job was killed.
   */
  predicate InOrder(entities: seq<Entity>, jobs: seq<Job>) {
    (forall j | 0 <= j < |jobs| :: jobs[j].entity < |entities|) &&
    (forall e, i, k {:trigger entities[e].queue[i], entities[e].queue[k]} |
       0 <= e < |entities| && 0 <= i < k < |entities[e].queue| :: entities[e].queue[i] < entities[e].queue[k]) &&
    (forall j, k | 0 <= j <= k < |jobs| && jobs[j].stage == Queued && jobs[k].entity == jobs[j].entity ::
     !jobs[k].ran) &&
    (forall e | 0 <= e < |entities| :: IsNewest(jobs, e, entities[e].last)) &&
    (forall j | 0 <= j < |jobs| && Killed(jobs[j]) ::
       entities[jobs[j].entity].stopped &&
       Linked(jobs[j].after, j, entities[jobs[j].entity], jobs[j].entity, jobs))
  }

  /** Jobs and entities change without effect on the order. */
  predicate OrderKept(entities: seq<Entity>, jobs: seq<Job>, entities': seq<Entity>, jobs': seq<Job>) {
    |entities'| == |entities| && |jobs'| == |jobs| &&
    (forall e | 0 <= e < |entities| ::
       entities'[e].queue == entities[e].queue && entities'[e].last == entities[e].last &&
       (entities[e].stopped ==> entities'[e].stopped)) &&
    (forall j | 0 <= j < |jobs| ::
       jobs'[j].entity == jobs[j].entity && jobs'[j].ran == jobs[j].ran && jobs'[j].after == jobs[j].after &&
       (jobs'[j].stage == Queued <==> jobs[j].stage == Queued))
  }

  lemma OrderStays(entities: seq<Entity>, jobs: seq<Job>, entities': seq<Entity>, jobs': seq<Job>)
    requires InOrder(entities, jobs) && OrderKept(entities, jobs, entities', jobs')
    ensures InOrder(entities', jobs')
  {}

  lemma OrderPushed(entities: seq<Entity>, jobs: seq<Job>, e: EntityId, x: Entity, y: Job)
    requires InOrder(entities, jobs) && e < |entities| && y.entity == e && y.stage == Queued && !y.ran
    requires x == entities[e].(queue := entities[e].queue + [|jobs|]) && forall j | j in entities[e].queue :: j < |jobs|
    ensures InOrder(entities[e := x], jobs + [y])
  {
    var es, js := entities[e := x], jobs + [y];
    forall d | 0 <= d < |es| ensures IsNewest(js, d, es[d].last) {
      assert IsNewest(jobs, d, entities[d].last);
    }
    forall d, i, k | 0 <= d < |es| && 0 <= i < k < |es[d].queue| ensures es[d].queue[i] < es[d].queue[k] {
      if d == e && k == |entities[e].queue| {
        assert entities[e].queue[i] in entities[e].queue;
      } else {
        assert es[d].queue[i] == entities[d].queue[i] && es[d].queue[k] == entities[d].queue[k];
      }
    }
    forall j | 0 <= j < |js| && Killed(js[j])
      ensures es[js[j].entity].stopped && Linked(js[j].after, j, es[js[j].entity], js[j].entity, js)
    {
      assert j < |jobs| && Linked(jobs[j].after, j, entities[jobs[j].entity], jobs[j].entity, jobs);
    }
  }

  /** The first job of `e` goes to the hardware. */
  lemma OrderLaunched(entities: seq<Entity>, jobs: seq<Job>, e: EntityId, x: Entity, y: Job)
    requires InOrder(entities, jobs) && QueuesOk(entities, jobs) && e < |entities| && entities[e].queue != []
    requires !entities[e].stopped && x.queue == entities[e].queue[1..] && x.last == Some(entities[e].queue[0])
    requires y.entity == e && y.stage != Queued && y.ran && y.after == jobs[entities[e].queue[0]].after
    ensures InOrder(entities[e := x], jobs[entities[e].queue[0] := y])
  {
    var h := entities[e].queue[0];
    var es, js := entities[e := x], jobs[h := y];
    forall d | 0 <= d < |es| ensures IsNewest(js, d, es[d].last) {
      assert IsNewest(jobs, d, entities[d].last);
    }
    forall j | 0 <= j < |js| && js[j].stage == Queued && js[j].entity == e ensures j > h {
      assert Listed(entities[e].queue, j);
      var k :| 0 <= k < |entities[e].queue| && entities[e].queue[k] == j;
      assert k > 0;
    }
  }

  /** The first job of `e` is killed. */
  lemma OrderCondemned(entities: seq<Entity>, jobs: seq<Job>, e: EntityId, x: Entity, y: Job)
    requires InOrder(entities, jobs) && QueuesOk(entities, jobs) && e < |entities| && entities[e].queue != []
    requires x == entities[e].(queue := entities[e].queue[1..]) && x.stopped
    requires y.entity == e && y.stage != Queued && !y.ran && Linked(y.after, entities[e].queue[0], x, e, jobs)
    ensures InOrder(entities[e := x], jobs[entities[e].queue[0] := y])
  {
    var es, js := entities[e := x], jobs[entities[e].queue[0] := y];
    forall d | 0 <= d < |es| ensures IsNewest(js, d, es[d].last) {
      assert IsNewest(jobs, d, entities[d].last);
    }
  }

  lemma NewestUnique(entities: seq<Entity>, jobs: seq<Job>, e: EntityId)
    requires InOrder(entities, jobs) && e < |entities|
    ensures entities[e].last == Newest(jobs, e)
  {
    assert IsNewest(jobs, e, entities[e].last);
  }

  /** The second job of a queue was pushed after the first. */
  lemma NextInOrder(entities: seq<Entity>, jobs: seq<Job>, e: EntityId)
    requires InOrder(entities, jobs) && QueuesOk(entities, jobs) && e < |entities| && entities[e].queue != []
    ensures jobs[entities[e].queue[0]].entity == e && !jobs[entities[e].queue[0]].ran
    ensures |entities[e].queue| > 1 ==> entities[e].queue[0] < entities[e].queue[1]
  {}

  /** What the order is for: no killed job is signalled before the newest job of its entity on the hardware is done. */
  lemma {:induction false} KilledAfterNewest(entities: seq<Entity>, jobs: seq<Job>, ext: set<nat>, j: JobId)
    requires InOrder(entities, jobs) && KillOk(jobs, ext) && j < |jobs| && Killed(jobs[j]) && jobs[j].finished.Some?
    ensures var r := Newest(jobs, jobs[j].entity); r.Some? ==> jobs[r.value].finished.Some?
  {
    var e, after := jobs[j].entity, jobs[j].after;
    assert IsNewest(jobs, e, entities[e].last);
    assert AfterDone(jobs[j], jobs);
    if after != entities[e].last { KilledAfterNewest(entities, jobs, ext, after.value); }
  }

  // ---------- Fences ----------

  predicate Signalled(f: Fence, jobs: seq<Job>, ext: set<nat>) {
    match f
    case External(id) => id in ext
    case Scheduled(j) => j < |jobs| && jobs[j].scheduled
    case Finished(j) => j < |jobs| && jobs[j].finished.Some?
  }

  /** A dependency that need not hold up a job of entity `e` any more. */
  predicate Harmless(f: Fence, e: EntityId, jobs: seq<Job>, ext: set<nat>) {
    Signalled(f, jobs, ext) ||
    (!f.External? && f.job < |jobs| && (jobs[f.job].entity == e || jobs[f.job].scheduled))
  }

  /** A dependency that may hold up a job of entity `e`. */
  predicate Blocks(f: Fence, e: EntityId, jobs: seq<Job>, ext: set<nat>) {
    !Signalled(f, jobs, ext) && !(!f.External? && f.job < |jobs| && jobs[f.job].entity == e)
  }

  /** Waiting for `w` is waiting for the dependency `f`, or for the job of `f` to be scheduled. */
  predicate StandsFor(w: Fence, f: Fence) {
    w == f || (!f.External? && w == Scheduled(f.job))
  }

  /** The dependencies passed over so far are harmless, but for one the entity may be waiting for. */
  predicate HeadOk(e: EntityId, x: Entity, jobs: seq<Job>, ext: set<nat>)
    requires x.queue != [] && x.queue[0] < |jobs|
  {
    var j := jobs[x.queue[0]];
    j.next <= |j.deps| &&
    forall i | 0 <= i < j.next ::
      Harmless(j.deps[i], e, jobs, ext) || (x.waiting.Some? && i == j.next - 1 && StandsFor(x.waiting.value, j.deps[i]))
  }

  predicate DepsOk(entities: seq<Entity>, jobs: seq<Job>, ext: set<nat>)
    requires QueuesOk(entities, jobs)
  {
    (forall e | 0 <= e < |entities| && entities[e].queue != [] :: HeadOk(e, entities[e], jobs, ext)) &&
    (forall e, i | 0 <= e < |entities| && 0 < i < |entities[e].queue| :: jobs[entities[e].queue[i]].next == 0)
  }

  /** Fences only ever signal. */
  predicate Later(jobs: seq<Job>, jobs': seq<Job>, ext: set<nat>, ext': set<nat>) {
    |jobs| <= |jobs'| && ext <= ext' &&
    forall j | 0 <= j < |jobs| ::
      jobs'[j].entity == jobs[j].entity && (jobs[j].scheduled ==> jobs'[j].scheduled) &&
      (jobs[j].finished.Some? ==> jobs'[j].finished == jobs[j].finished)
  }

  lemma HarmlessStays(f: Fence, e: EntityId, jobs: seq<Job>, jobs': seq<Job>, ext: set<nat>, ext': set<nat>)
    requires Later(jobs, jobs', ext, ext') && Harmless(f, e, jobs, ext)
    ensures Harmless(f, e, jobs', ext')
  {}

  // ---------- Run queues ----------

  /** The tree of a run queue, in order. */
  predicate Sorted(rq: seq<EntityId>, entities: seq<Entity>) {
    (forall i | 0 <= i < |rq| :: rq[i] < |entities|) &&
    forall i, j | 0 <= i < j < |rq| :: entities[rq[i]].key <= entities[rq[j]].key
  }

  /** The trees hold exactly the entities that are on a run queue, each once, in the order of their keys. */
  predicate TreeShape(rqs: seq<seq<EntityId>>, entities: seq<Entity>) {
    (forall p | 0 <= p < |rqs| :: NoDup(rqs[p]) && Sorted(rqs[p], entities)) &&
    (forall p, i | 0 <= p < |rqs| && 0 <= i < |rqs[p]| ::
       rqs[p][i] < |entities| && entities[rqs[p][i]].queued && entities[rqs[p][i]].prio == p) &&
    (forall e | 0 <= e < |entities| :: entities[e].prio < |rqs|) &&
    (forall e {:trigger Listed(rqs[entities[e].prio], e)} | 0 <= e < |entities| && entities[e].queued ::
       Listed(rqs[entities[e].prio], e)) &&
    (forall e | 0 <= e < |entities| && entities[e].stopped :: !entities[e].queued)
  }

  /** An entity with jobs is on its run queue, under the time its first job was submitted. */
  predicate TreeKeys(entities: seq<Entity>, jobs: seq<Job>) {
    forall e | 0 <= e < |entities| && !entities[e].stopped && entities[e].queue != [] ::
      entities[e].queued && entities[e].queue[0] < |jobs| && entities[e].key == jobs[entities[e].queue[0]].submit
  }

  predicate TreesOk(rqs: seq<seq<EntityId>>, entities: seq<Entity>, jobs: seq<Job>) {
    TreeShape(rqs, entities) && TreeKeys(entities, jobs)
  }

  // ---------- The two halves of a state ----------

  /** Entities, queues and run queues. */
  predicate Waiting(rqs: seq<seq<EntityId>>, entities: seq<Entity>, jobs: seq<Job>, ext: set<nat>) {
    QueuesOk(entities, jobs) && DepsOk(entities, jobs, ext) && TreesOk(rqs, entities, jobs) && InOrder(entities, jobs)
  }

  /** A scheduler without jobs. */
  lemma EmptyWaiting(rqs: seq<seq<EntityId>>, entities: seq<Entity>, levels: nat)
    requires |rqs| == levels && forall p | 0 <= p < levels :: rqs[p] == []
    requires forall e | 0 <= e < |entities| ::
               var x := entities[e]; x.prio < levels && x.queue == [] && x.last.None? && !x.stopped && !x.queued
    ensures Waiting(rqs, entities, [], {})
  {}

  /** The pending list, the credit count and the timeout handler. */
  predicate Executing(jobs: seq<Job>, pending: seq<JobId>, count: int, limit: nat, paused: bool, bad: Option<JobId>,
                      guilty: bool)
  {
    JobsOk(jobs, paused) && Lists(pending, jobs, Pending) && count == Charge(jobs) && count <= limit &&
    (paused ==> count + Load(pending, jobs) <= limit) && TimeoutOk(jobs, bad, guilty)
  }

  predicate TimeoutOk(jobs: seq<Job>, bad: Option<JobId>, guilty: bool) {
    (guilty ==> bad.Some? && bad.value < |jobs| && jobs[bad.value].stage == Guilty) &&
    (bad.Some? ==> bad.value < |jobs|) &&
    forall j | 0 <= j < |jobs| && (jobs[j].stage == Suspect || jobs[j].stage == Guilty) ::
      bad == Some(j) && (jobs[j].stage == Guilty ==> guilty)
  }

  /** Queued jobs keep everything but their credits, which may be cut down to the limit. */
  predicate QueuedKept(jobs: seq<Job>, jobs': seq<Job>) {
    |jobs| == |jobs'| &&
    forall j | 0 <= j < |jobs| ::
      (jobs'[j].stage == Queued <==> jobs[j].stage == Queued) &&
      jobs'[j].ran == jobs[j].ran && jobs'[j].after == jobs[j].after &&
      (jobs[j].stage == Queued ==> jobs'[j] == jobs[j].(credits := jobs'[j].credits))
  }

  /** Steps that leave the queued jobs alone do not disturb the queues. */
  lemma WaitingStays(rqs: seq<seq<EntityId>>, entities: seq<Entity>, jobs: seq<Job>, jobs': seq<Job>, ext: set<nat>,
                     ext': set<nat>)
    requires Waiting(rqs, entities, jobs, ext) && QueuedKept(jobs, jobs') && Later(jobs, jobs', ext, ext')
    ensures Waiting(rqs, entities, jobs', ext')
  {
    hide InOrder;
    OrderStays(entities, jobs, entities, jobs');
    forall e | 0 <= e < |entities| && entities[e].queue != [] ensures HeadOk(e, entities[e], jobs', ext') {
      HeadStays(e, entities[e], jobs, jobs', ext, ext');
    }
  }

  lemma HeadStays(e: EntityId, x: Entity, jobs: seq<Job>, jobs': seq<Job>, ext: set<nat>, ext': set<nat>)
    requires x.queue != [] && x.queue[0] < |jobs| <= |jobs'| && HeadOk(e, x, jobs, ext) && Later(jobs, jobs', ext, ext')
    requires jobs'[x.queue[0]].deps == jobs[x.queue[0]].deps && jobs'[x.queue[0]].next == jobs[x.queue[0]].next
    ensures HeadOk(e, x, jobs', ext')
  {
    var j := jobs[x.queue[0]];
    forall i | 0 <= i < j.next
      ensures Harmless(j.deps[i], e, jobs', ext') ||
              (x.waiting.Some? && i == j.next - 1 && StandsFor(x.waiting.value, j.deps[i]))
    {
      if Harmless(j.deps[i], e, jobs, ext) { HarmlessStays(j.deps[i], e, jobs, jobs', ext, ext'); }
    }
  }

  // ---------- One job at a time ----------

  /** A job that is not queued, before or after, moves on. */
  predicate Moves(x: Job, y: Job) {
    x.stage != Queued && y.stage != Queued && y.entity == x.entity && y.ran == x.ran && y.after == x.after &&
    (x.scheduled ==> y.scheduled) && (x.finished.Some? ==> y.finished == x.finished)
  }

  lemma MoveOn(rqs: seq<seq<EntityId>>, entities: seq<Entity>, jobs: seq<Job>, ext: set<nat>, j: JobId, y: Job)
    requires Waiting(rqs, entities, jobs, ext) && j < |jobs| && Moves(jobs[j], y)
    ensures Waiting(rqs, entities, jobs[j := y], ext)
  {
    WaitingStays(rqs, entities, jobs, jobs[j := y], ext, ext);
  }

  /** The stage of `j` changes, or not; the list follows. */
  lemma ListsSame(list: seq<JobId>, jobs: seq<Job>, j: JobId, y: Job, stage: Stage)
    requires Lists(list, jobs, stage) && j < |jobs| && (jobs[j].stage == stage <==> y.stage == stage)
    ensures Lists(list, jobs[j := y], stage)
  {}

  lemma NoDupMore(list: seq<nat>, x: nat)
    requires NoDup(list) && x !in list
    ensures NoDup([x] + list) && NoDup(list + [x])
  {
    var s := [x] + list;
    forall i, j | 0 <= i < j < |s| && Pair(i, j) ensures s[i] != s[j] {
      if i == 0 {
        assert s[j] == list[j - 1];
      } else {
        assert Pair(i - 1, j - 1) && s[i] == list[i - 1] && s[j] == list[j - 1];
      }
    }
    var t := list + [x];
    forall i, j | 0 <= i < j < |t| && Pair(i, j) ensures t[i] != t[j] {
      assert t[i] == list[i];
    }
  }

  function Without(list: seq<nat>, j: nat): (r: seq<nat>)
    ensures forall x :: x in r <==> x in list && x != j
    ensures NoDup(list) ==> NoDup(r)
    ensures |r| <= |list|
  {
    if list == [] then []
    else
      var r := Without(list[1..], j);
      assert NoDup(list) ==> NoDup(list[1..]) && list[0] !in list[1..] by { if NoDup(list) { NoDupTail(list); } }
      assert NoDup(list) ==> NoDup([list[0]] + r) by { if NoDup(list) { NoDupMore(r, list[0]); } }
      if list[0] == j then r else [list[0]] + r
  }

  lemma ListsLess(list: seq<JobId>, jobs: seq<Job>, j: JobId, y: Job, stage: Stage)
    requires Lists(list, jobs, stage) && j < |jobs| && y.stage != stage
    ensures Lists(Without(list, j), jobs[j := y], stage)
  {
    var r := Without(list, j);
    forall i | 0 <= i < |r| ensures r[i] < |jobs| && jobs[j := y][r[i]].stage == stage {
      assert r[i] in r;
      var k :| 0 <= k < |list| && list[k] == r[i];
    }
    forall k | 0 <= k < |jobs| && jobs[j := y][k].stage == stage ensures Listed(r, k) { assert Listed(list, k); }
  }

  lemma ListsMore(list: seq<JobId>, jobs: seq<Job>, j: JobId, y: Job, stage: Stage)
    requires Lists(list, jobs, stage) && j < |jobs| && jobs[j].stage != stage && y.stage == stage
    ensures Lists(list + [j], jobs[j := y], stage) && Lists([j] + list, jobs[j := y], stage)
  {
    assert j !in list;
    NoDupMore(list, j);
    forall k | 0 <= k < |jobs| && jobs[j := y][k].stage == stage
      ensures Listed(list + [j], k) && Listed([j] + list, k)
    {
      assert k != j ==> Listed(list, k);
    }
  }

  lemma {:induction false} LoadSame(list: seq<JobId>, jobs: seq<Job>, jobs': seq<Job>)
    requires forall i | 0 <= i < |list| ::
               list[i] < |jobs| && list[i] < |jobs'| && jobs'[list[i]].credits == jobs[list[i]].credits
    ensures Load(list, jobs') == Load(list, jobs)
  {
    if list != [] { LoadSame(list[1..], jobs, jobs'); }
  }

  // ---------- Leaving the pending list ----------

  lemma NoDupHead(list: seq<nat>)
    requires list != [] && NoDup(list)
    ensures Without(list, list[0]) == list[1..]
  {
    NoDupTail(list);
    WithoutAbsent(list[1..], list[0]);
  }

  lemma {:induction false} WithoutAbsent(list: seq<nat>, j: nat)
    requires j !in list
    ensures Without(list, j) == list
  {
    if list != [] { WithoutAbsent(list[1..], j); }
  }

  /** The first job of the pending list leaves it. */
  lemma HeadLeaves(jobs: seq<Job>, pending: seq<JobId>, count: int, limit: nat, bad: Option<JobId>, guilty: bool,
                   y: Job, bad': Option<JobId>)
    requires Executing(jobs, pending, count, limit, false, bad, guilty) && pending != [] && y.stage != Pending
    requires JobOk(y, false) && Cost(y) == Cost(jobs[pending[0]])
    requires TimeoutOk(jobs[pending[0] := y], bad', guilty)
    ensures Executing(jobs[pending[0] := y], pending[1..], count, limit, false, bad', guilty)
  {
    var j := pending[0];
    ChargeUpdate(jobs, j, y);
    ListsLess(pending, jobs, j, y, Pending);
    NoDupHead(pending);
  }

  // ---------- Stopping and starting ----------

  /** The first part of the pending list is active, the rest is not and its credits are not counted. */
  predicate Halfway(jobs: seq<Job>, active: seq<JobId>, idle: seq<JobId>, count: int, limit: nat) {
    Lists(active + idle, jobs, Pending) &&
    (forall i | 0 <= i < |active| :: active[i] < |jobs| && JobOk(jobs[active[i]], false)) &&
    (forall i | 0 <= i < |idle| :: idle[i] < |jobs| && JobOk(jobs[idle[i]], true)) &&
    (forall j | 0 <= j < |jobs| && jobs[j].stage != Pending :: JobOk(jobs[j], false)) &&
    count == Charge(jobs) && count + Load(idle, jobs) <= limit
  }

  // ---------- What stopping and starting make of the jobs ----------

  /**
    A job whose callback can be removed stays, without its fence; one that is done is freed, or kept for the timeout
    handler.
   */
  function Halted(x: Job, named: bool): Job {
    if Charged(x) then x.(hw := Absent) else if named then x.(stage := Guilty)
    else x.(stage := Freed, frees := x.frees + 1)
  }

  /** The jobs of a list that the hardware has not finished, in their order. */
  function Unfinished(list: seq<JobId>, jobs: seq<Job>): seq<JobId>
    requires forall i | 0 <= i < |list| :: list[i] < |jobs|
  {
    if list == [] then [] else (if Charged(jobs[list[0]]) then [list[0]] else []) + Unfinished(list[1..], jobs)
  }

  /** The jobs of `list` have been halted, all others are as they were. */
  predicate AllHalted(jobs: seq<Job>, jobs': seq<Job>, list: seq<JobId>, named: Option<JobId>) {
    |jobs'| == |jobs| &&
    forall j: JobId | j < |jobs| :: jobs'[j] == if j in list then Halted(jobs[j], named == Some(j)) else jobs[j]
  }

  /**
    What starting makes of a job: without a fence it is done with an error, else it gets its callback back, or is done.
   */
  predicate Resumed(x: Job, y: Job, errno: int) {
    match x.hw
    case Absent => y == x.(finished := Some(if errno != 0 then errno else -125))
    case Running(_) => y == x.(hw := Running(true))
    case Signaled => y.finished.Some? && y == x.(finished := y.finished)
  }

  predicate AllResumed(jobs: seq<Job>, jobs': seq<Job>, list: seq<JobId>, errno: int) {
    |jobs'| == |jobs| &&
    forall j: JobId | j < |jobs| :: if j in list then Resumed(jobs[j], jobs'[j], errno) else jobs'[j] == jobs[j]
  }

  /** One more job, the one before those halted so far. */
  lemma HaltedMore(jobs: seq<Job>, now: seq<Job>, next: seq<Job>, list: seq<JobId>, i: nat, named: Option<JobId>)
    requires NoDup(list) && i < |list| && list[i] < |jobs| && AllHalted(jobs, now, list[i + 1..], named)
    requires next == now[list[i] := Halted(now[list[i]], named == Some(list[i]))]
    ensures now[list[i]] == jobs[list[i]] && AllHalted(jobs, next, list[i..], named)
  {
    forall k | i < k < |list| ensures list[k] != list[i] { Differ(list, i, k); }
    assert list[i..] == [list[i]] + list[i + 1..];
  }

  lemma UnfinishedNone(jobs: seq<Job>)
    ensures Unfinished([], jobs) == []
  {}

  lemma UnfinishedMore(list: seq<JobId>, i: nat, jobs: seq<Job>)
    requires i < |list| && forall k | 0 <= k < |list| :: list[k] < |jobs|
    ensures Unfinished(list[i..], jobs) ==
              (if Charged(jobs[list[i]]) then [list[i]] else []) + Unfinished(list[i + 1..], jobs)
  {
    assert list[i..][0] == list[i] && list[i..][1..] == list[i + 1..];
  }

  lemma ResumedMore(jobs: seq<Job>, now: seq<Job>, next: seq<Job>, list: seq<JobId>, i: nat, errno: int, y: Job)
    requires NoDup(list) && i < |list| && list[i] < |jobs| && AllResumed(jobs, now, list[..i], errno)
    requires Resumed(now[list[i]], y, errno) && next == now[list[i] := y]
    ensures AllResumed(jobs, next, list[..i + 1], errno)
  {
    forall k | 0 <= k < i ensures list[k] != list[i] { Differ(list, i, k); }
    assert list[..i + 1] == list[..i] + [list[i]];
  }

  lemma HalfList(jobs: seq<Job>, active: seq<JobId>, idle: seq<JobId>, count: int, limit: nat)
    requires Halfway(jobs, active, idle, count, limit)
    ensures NoDup(active + idle) && forall i | 0 <= i < |active + idle| :: (active + idle)[i] < |jobs|
  {}

  /** The parts of a list without duplicates have nothing in common. */
  lemma PartsApart(a: seq<nat>, b: seq<nat>, i: nat, k: nat)
    requires NoDup(a + b) && i < |a| && k < |b|
    ensures a[i] != b[k]
  {
    assert Pair(i, |a| + k) && (a + b)[i] == a[i] && (a + b)[|a| + k] == b[k];
  }

  lemma SameParts(a: seq<nat>, b: seq<nat>, i: nat, k: nat)
    requires NoDup(a + b) && i < k < |a|
    ensures a[i] != a[k]
  {
    assert Pair(i, k) && (a + b)[i] == a[i] && (a + b)[k] == a[k];
  }

  /** The callback of the last active job could be removed: its credits are taken off the count. */
  lemma HalfIdle(jobs: seq<Job>, active: seq<JobId>, idle: seq<JobId>, count: int, limit: nat)
    requires Halfway(jobs, active, idle, count, limit) && active != [] && Charged(jobs[active[|active| - 1]])
    ensures var n := |active| - 1; var j := active[n]; var y := jobs[j].(hw := Absent);
            Halfway(jobs[j := y], active[..n], [j] + idle, count - jobs[j].credits, limit)
  {
    var n := |active| - 1;
    var j := active[n];
    var y := jobs[j].(hw := Absent);
    var jobs' := jobs[j := y];
    assert active[..n] + ([j] + idle) == active + idle;
    assert (active + idle)[n] == j;
    ListsSame(active + idle, jobs, j, y, Pending);
    ChargeUpdate(jobs, j, y);
    forall i | 0 <= i < n ensures active[..n][i] != j { SameParts(active, idle, i, n); }
    forall i | 0 <= i < |idle| ensures idle[i] != j { PartsApart(active, idle, n, i); }
    LoadSame(idle, jobs, jobs');
    assert ([j] + idle)[1..] == idle;
  }

  /** The last active job was done already: it leaves the list. */
  lemma HalfLeaves(jobs: seq<Job>, active: seq<JobId>, idle: seq<JobId>, count: int, limit: nat, y: Job)
    requires Halfway(jobs, active, idle, count, limit) && active != [] && !Charged(jobs[active[|active| - 1]])
    requires y.stage != Pending && JobOk(y, false) && !Charged(y)
    ensures var n := |active| - 1; Halfway(jobs[active[n] := y], active[..n], idle, count, limit)
  {
    var n := |active| - 1;
    var j := active[n];
    ListsMiddle(jobs, active, idle, y);
    ChargeUpdate(jobs, j, y);
    forall i | 0 <= i < n ensures active[..n][i] != j { SameParts(active, idle, i, n); }
    forall i | 0 <= i < |idle| ensures idle[i] != j { PartsApart(active, idle, n, i); }
    LoadSame(idle, jobs, jobs[j := y]);
  }

  lemma ListsMiddle(jobs: seq<Job>, active: seq<JobId>, idle: seq<JobId>, y: Job)
    requires Lists(active + idle, jobs, Pending) && active != [] && y.stage != Pending
    ensures var n := |active| - 1; active[n] < |jobs| && Lists(active[..n] + idle, jobs[active[n] := y], Pending)
  {
    var n := |active| - 1;
    var j := active[n];
    assert (active + idle)[n] == j;
    assert active[..n] + [j] + idle == active + idle;
    WithoutMiddle(active[..n], j, idle);
    ListsLess(active + idle, jobs, j, y, Pending);
  }

  lemma {:induction false} WithoutMiddle(a: seq<nat>, j: nat, b: seq<nat>)
    requires NoDup(a + [j] + b)
    ensures Without(a + [j] + b, j) == a + b
  {
    var s := a + [j] + b;
    if a == [] {
      assert s == [j] + b && s[1..] == b;
      NoDupTail(s);
      WithoutAbsent(b, j);
    } else {
      assert s[1..] == a[1..] + [j] + b;
      NoDupTail(s);
      assert s[0] == a[0] && s[|a|] == j && Pair(0, |a|);
      WithoutMiddle(a[1..], j, b);
      assert a + b == [a[0]] + (a[1..] + b);
    }
  }

  /** The first idle job is active again, or done. */
  lemma HalfActive(jobs: seq<Job>, active: seq<JobId>, idle: seq<JobId>, count: int, limit: nat, y: Job)
    requires Halfway(jobs, active, idle, count, limit) && idle != []
    requires y.stage == Pending && JobOk(y, false) && y.credits == jobs[idle[0]].credits
    ensures Halfway(jobs[idle[0] := y], active + [idle[0]], idle[1..], count + Cost(y), limit)
  {
    var j, n := idle[0], |active|;
    assert active + [j] + idle[1..] == active + idle;
    assert (active + idle)[n] == j;
    ListsSame(active + idle, jobs, j, y, Pending);
    ChargeUpdate(jobs, j, y);
    forall i | 0 <= i < n ensures active[i] != j { PartsApart(active, idle, i, 0); }
    forall i | 0 <= i < |idle| - 1 ensures idle[1..][i] != j {
      assert Pair(n, n + i + 1) && (active + idle)[n + i + 1] == idle[i + 1];
    }
    LoadSame(idle[1..], jobs, jobs[j := y]);
  }

  // ---------- Killed jobs ----------

  /** What a killed job waits for: the finished fence, where a dependency is a scheduled fence. */
  function Final(f: Fence): Fence { if f.Scheduled? then Finished(f.job) else f }

  predicate AfterDone(j: Job, jobs: seq<Job>) {
    j.after.None? || (j.after.value < |jobs| && jobs[j.after.value].finished.Some?)
  }

  /** Killed jobs finish in the order of the queue, and wait for their dependencies one by one. */
  predicate KillOk(jobs: seq<Job>, ext: set<nat>) {
    (forall j | 0 <= j < |jobs| && jobs[j].after.Some? :: jobs[j].after.value < |jobs|) &&
    (forall j | 0 <= j < |jobs| && jobs[j].finished.Some? :: AfterDone(jobs[j], jobs)) &&
    (forall j | 0 <= j < |jobs| && jobs[j].stage == Dying :: Progress(jobs[j], jobs, ext))
  }

  predicate Progress(x: Job, jobs: seq<Job>, ext: set<nat>) {
    x.next <= |x.deps| && (x.next > 0 ==> AfterDone(x, jobs)) &&
    forall i | 0 <= i < x.next :: Signalled(Final(x.deps[i]), jobs, ext)
  }

  lemma ProgressStays(x: Job, jobs: seq<Job>, jobs': seq<Job>, ext: set<nat>, ext': set<nat>)
    requires Progress(x, jobs, ext) && Later(jobs, jobs', ext, ext')
    ensures Progress(x, jobs', ext')
  {
    forall i | 0 <= i < x.next ensures Signalled(Final(x.deps[i]), jobs', ext') {
      assert Signalled(Final(x.deps[i]), jobs, ext);
    }
  }

  /** One job changes, and does not become a dying one. */
  lemma KillMove(jobs: seq<Job>, ext: set<nat>, j: JobId, y: Job)
    requires KillOk(jobs, ext) && j < |jobs| && y.stage != Dying && y.after == jobs[j].after &&
             y.entity == jobs[j].entity
    requires jobs[j].scheduled ==> y.scheduled
    requires jobs[j].finished.Some? ==> y.finished == jobs[j].finished
    requires y.finished.Some? ==> AfterDone(jobs[j], jobs)
    ensures KillOk(jobs[j := y], ext)
  {
    var jobs' := jobs[j := y];
    forall k | 0 <= k < |jobs'| && jobs'[k].stage == Dying ensures Progress(jobs'[k], jobs', ext) {
      ProgressStays(jobs[k], jobs, jobs', ext, ext);
    }
  }

  /** A job changes without entering or leaving the pending list. */
  lemma DoneKeeps(jobs: seq<Job>, pending: seq<JobId>, count: int, limit: nat, paused: bool, bad: Option<JobId>,
                  guilty: bool, j: JobId, y: Job)
    requires Executing(jobs, pending, count, limit, paused, bad, guilty) && j < |jobs|
    requires JobOk(y, paused) && (y.stage == Pending <==> jobs[j].stage == Pending) && y.credits == jobs[j].credits
    requires !Charged(y) || Charged(jobs[j])
    ensures JobsOk(jobs[j := y], paused) && Lists(pending, jobs[j := y], Pending)
    ensures Charge(jobs[j := y]) == count - Cost(jobs[j]) + Cost(y) <= limit
    ensures paused ==> Charge(jobs[j := y]) + Load(pending, jobs[j := y]) <= limit
    ensures TimeoutOk(jobs[j := y], bad, guilty) || y.stage != jobs[j].stage
  {
    ChargeUpdate(jobs, j, y);
    ListsSame(pending, jobs, j, y, Pending);
    LoadSame(pending, jobs, jobs[j := y]);
  }

  /** The job the timeout handler had taken goes back to the head of the list. */
  lemma Reinserted(jobs: seq<Job>, pending: seq<JobId>, count: int, limit: nat, bad: Option<JobId>, guilty: bool,
                   j: JobId, y: Job)
    requires Executing(jobs, pending, count, limit, false, bad, guilty) && j < |jobs| && jobs[j].stage == Suspect &&
             y == jobs[j].(stage := Pending)
    ensures Executing(jobs[j := y], [j] + pending, count, limit, false, bad, guilty)
  {
    ChargeUpdate(jobs, j, y);
    ListsMore(pending, jobs, j, y, Pending);
  }

  lemma AllActive(jobs: seq<Job>, pending: seq<JobId>, count: int, limit: nat, bad: Option<JobId>, guilty: bool)
    requires Executing(jobs, pending, count, limit, false, bad, guilty)
    ensures Halfway(jobs, pending, [], count, limit)
  {
    assert pending + [] == pending;
  }

  lemma AllIdle(jobs: seq<Job>, pending: seq<JobId>, count: int, limit: nat, bad: Option<JobId>, guilty: bool)
    requires Halfway(jobs, [], pending, count, limit) && TimeoutOk(jobs, bad, guilty)
    ensures Executing(jobs, pending, count, limit, true, bad, guilty)
  {
    assert [] + pending == pending;
    forall j | 0 <= j < |jobs| ensures JobOk(jobs[j], true) {
      if jobs[j].stage == Pending {
        assert Listed(pending, j);
        var i :| 0 <= i < |pending| && pending[i] == j;
      } else {
        assert JobOk(jobs[j], false);
      }
    }
  }

  lemma NoneActive(jobs: seq<Job>, pending: seq<JobId>, count: int, limit: nat, bad: Option<JobId>, guilty: bool)
    requires Executing(jobs, pending, count, limit, true, bad, guilty)
    ensures Halfway(jobs, [], pending, count, limit)
  {
    assert [] + pending == pending;
  }

  lemma EndActive(jobs: seq<Job>, pending: seq<JobId>, count: int, limit: nat, bad: Option<JobId>, guilty: bool)
    requires Halfway(jobs, pending, [], count, limit) && TimeoutOk(jobs, bad, guilty)
    ensures Executing(jobs, pending, count, limit, false, bad, guilty)
  {
    assert pending + [] == pending;
    forall j | 0 <= j < |jobs| ensures JobOk(jobs[j], false) {
      if jobs[j].stage == Pending {
        assert Listed(pending, j);
        var i :| 0 <= i < |pending| && pending[i] == j;
      }
    }
  }

  // ---------- Moving in the tree of a run queue ----------

  /** `e` goes behind the first `i` entities of the tree, from which it has been removed. */
  function Place(rq: seq<EntityId>, e: EntityId, i: nat): seq<EntityId>
    requires i <= |rq|
  {
    rq[..i] + [e] + rq[i..]
  }

  lemma NoDupPlace(rq: seq<EntityId>, e: EntityId, i: nat)
    requires NoDup(rq) && e !in rq && i <= |rq|
    ensures NoDup(Place(rq, e, i)) && forall x :: x in Place(rq, e, i) <==> x in rq || x == e
  {
    var s := Place(rq, e, i);
    forall a, b | 0 <= a < b < |s| && Pair(a, b) ensures s[a] != s[b] {
      var a', b' := if a < i then a else a - 1, if b < i then b else b - 1;
      if a != i && b != i { assert s[a] == rq[a'] && s[b] == rq[b'] && Pair(a', b'); }
    }
    assert rq == rq[..i] + rq[i..];
  }

  lemma SortedPlace(rq: seq<EntityId>, entities: seq<Entity>, e: EntityId, i: nat, x: Entity)
    requires Sorted(rq, entities) && e < |entities| && e !in rq && i <= |rq|
    requires forall k | 0 <= k < i :: entities[rq[k]].key <= x.key
    requires i < |rq| ==> x.key < entities[rq[i]].key
    ensures Sorted(Place(rq, e, i), entities[e := x])
  {
    var s, es := Place(rq, e, i), entities[e := x];
    forall a | 0 <= a < |s|
      ensures s[a] < |es| &&
              es[s[a]].key == (if a < i then entities[rq[a]].key else if a == i then x.key else entities[rq[a - 1]].key)
    {
      if a < i { assert s[a] == rq[a]; } else if a > i { assert s[a] == rq[a - 1]; }
    }
    forall a, b | 0 <= a < b < |s| ensures es[s[a]].key <= es[s[b]].key {
      if a == i && b > i { assert entities[rq[i]].key <= entities[rq[b - 1]].key; }
    }
  }

  lemma {:induction false} SortedWithout(rq: seq<EntityId>, entities: seq<Entity>, e: EntityId)
    requires Sorted(rq, entities)
    ensures Sorted(Without(rq, e), entities)
  {
    if rq != [] {
      assert Sorted(rq[1..], entities);
      SortedWithout(rq[1..], entities, e);
      var r := Without(rq[1..], e);
      if rq[0] != e {
        var s := [rq[0]] + r;
        forall a, b | 0 <= a < b < |s| ensures entities[s[a]].key <= entities[s[b]].key {
          if a == 0 {
            assert s[b] == r[b - 1] && r[b - 1] in r;
            var k :| 0 <= k < |rq[1..]| && rq[1..][k] == s[b];
            assert rq[k + 1] == s[b];
          }
        }
      }
    }
  }

  /** Other trees do not name `e`. */
  lemma OneTree(rqs: seq<seq<EntityId>>, entities: seq<Entity>, e: EntityId, p: nat)
    requires TreeShape(rqs, entities) && e < |entities| && p < |rqs| && p != entities[e].prio
    ensures e !in rqs[p]
  {}

  lemma SortedStays(rq: seq<EntityId>, entities: seq<Entity>, e: EntityId, x: Entity)
    requires Sorted(rq, entities) && e < |entities| && (e !in rq || x.key == entities[e].key)
    ensures Sorted(rq, entities[e := x])
  {
    forall i | 0 <= i < |rq|
      ensures rq[i] < |entities| && entities[e := x][rq[i]].key == entities[rq[i]].key
    {
      assert rq[i] in rq;
    }
  }

  lemma TreeUpdated(rqs: seq<seq<EntityId>>, entities: seq<Entity>, e: EntityId, x: Entity, i: nat)
    requires TreeShape(rqs, entities) && e < |entities| && x.queued && !x.stopped && x.prio == entities[e].prio
    requires var rq := Without(rqs[x.prio], e);
             i <= |rq| && (forall k | 0 <= k < i :: rq[k] < |entities| && entities[rq[k]].key <= x.key) &&
             (i < |rq| ==> rq[i] < |entities| && x.key < entities[rq[i]].key)
    ensures TreeShape(rqs[x.prio := Place(Without(rqs[x.prio], e), e, i)], entities[e := x])
  {
    hide Without;
    hide Place;
    var p, rq, es := x.prio, Without(rqs[x.prio], e), entities[e := x];
    var rqs' := rqs[p := Place(rq, e, i)];
    SortedWithout(rqs[p], entities, e);
    NoDupPlace(rq, e, i);
    SortedPlace(rq, entities, e, i, x);
    forall q | 0 <= q < |rqs'| && q != p ensures Sorted(rqs'[q], es) && e !in rqs[q] {
      OneTree(rqs, entities, e, q);
      SortedStays(rqs[q], entities, e, x);
    }
    forall q, k | 0 <= q < |rqs'| && 0 <= k < |rqs'[q]|
      ensures rqs'[q][k] < |es| && es[rqs'[q][k]].queued && es[rqs'[q][k]].prio == q
    {
      MemberOk(rqs, entities, e, x, q, rqs'[q], k);
    }
    forall d | 0 <= d < |es| && es[d].queued ensures Listed(rqs'[es[d].prio], d) {
      if d != e { assert Listed(rqs[entities[d].prio], d); }
    }
  }

  lemma MemberOk(rqs: seq<seq<EntityId>>, entities: seq<Entity>, e: EntityId, x: Entity, q: nat, rq: seq<EntityId>,
                 k: nat)
    requires TreeShape(rqs, entities) && e < |entities| && q < |rqs| && k < |rq| && x.prio == entities[e].prio
    requires forall d :: d in rq ==> d in rqs[q] || (d == e && q == x.prio)
    requires e in rq ==> x.queued && q == x.prio
    ensures rq[k] < |entities| && entities[e := x][rq[k]].queued && entities[e := x][rq[k]].prio == q
  {
    assert rq[k] in rq;
    if rq[k] != e {
      var i :| 0 <= i < |rqs[q]| && rqs[q][i] == rq[k];
    }
  }

  lemma TreeRemoved(rqs: seq<seq<EntityId>>, entities: seq<Entity>, e: EntityId, x: Entity)
    requires TreeShape(rqs, entities) && e < |entities| && !x.queued && x.prio == entities[e].prio
    ensures TreeShape(rqs[x.prio := Without(rqs[x.prio], e)], entities[e := x])
  {
    var p, es := x.prio, entities[e := x];
    var rqs' := rqs[p := Without(rqs[p], e)];
    SortedWithout(rqs[p], entities, e);
    forall q | 0 <= q < |rqs'| ensures Sorted(rqs'[q], es) && e !in rqs'[q] {
      if q != p { OneTree(rqs, entities, e, q); }
      SortedStays(rqs'[q], entities, e, x);
    }
    forall q, k | 0 <= q < |rqs'| && 0 <= k < |rqs'[q]|
      ensures rqs'[q][k] < |es| && es[rqs'[q][k]].queued && es[rqs'[q][k]].prio == q
    {
      MemberOk(rqs, entities, e, x, q, rqs'[q], k);
    }
    forall d | 0 <= d < |es| && es[d].queued ensures Listed(rqs'[es[d].prio], d) {
      assert Listed(rqs[entities[d].prio], d);
    }
  }

  lemma TreeSame(rqs: seq<seq<EntityId>>, entities: seq<Entity>, e: EntityId, x: Entity)
    requires TreeShape(rqs, entities) && e < |entities|
    requires x.prio == entities[e].prio && x.key == entities[e].key && x.queued == entities[e].queued &&
             x.stopped == entities[e].stopped
    ensures TreeShape(rqs, entities[e := x])
  {
    var es := entities[e := x];
    forall q | 0 <= q < |rqs| ensures Sorted(rqs[q], es) { SortedStays(rqs[q], entities, e, x); }
    forall d | 0 <= d < |es| && es[d].queued ensures Listed(rqs[es[d].prio], d) {
      assert Listed(rqs[entities[d].prio], d);
    }
  }

  // ---------- Queues ----------

  lemma NoneStays(entities: seq<Entity>, jobs: seq<Job>, jobs': seq<Job>, ext: set<nat>, e: EntityId)
    requires QueuesOk(entities, jobs) && DepsOk(entities, jobs, ext) && Later(jobs, jobs', ext, ext) && e < |entities|
    requires entities[e].queue != [] && jobs'[entities[e].queue[0]] == jobs[entities[e].queue[0]]
    ensures HeadOk(e, entities[e], jobs', ext)
  {
    HeadStays(e, entities[e], jobs, jobs', ext, ext);
  }

  /** A new job at the end of the queue of `e`. */
  lemma Pushed(entities: seq<Entity>, jobs: seq<Job>, ext: set<nat>, e: EntityId, x: Entity, y: Job)
    requires QueuesOk(entities, jobs) && DepsOk(entities, jobs, ext) && e < |entities|
    requires x.queue == entities[e].queue + [|jobs|] && x.waiting == entities[e].waiting && x.last == entities[e].last
    requires y.stage == Queued && y.entity == e && y.next == 0
    ensures QueuesOk(entities[e := x], jobs + [y]) && DepsOk(entities[e := x], jobs + [y], ext)
  {
    PushedQueues(entities, jobs, e, x, y);
    var es, js := entities[e := x], jobs + [y];
    forall d | 0 <= d < |es| && es[d].queue != [] ensures HeadOk(d, es[d], js, ext) {
      if entities[d].queue != [] {
        NoneStays(entities, jobs, js, ext, d);
        assert es[d].queue[0] == entities[d].queue[0];
      }
    }
    forall d, i | 0 <= d < |es| && 0 < i < |es[d].queue| ensures js[es[d].queue[i]].next == 0 {
      if i < |entities[d].queue| { assert es[d].queue[i] == entities[d].queue[i]; }
    }
  }

  lemma PushedQueues(entities: seq<Entity>, jobs: seq<Job>, e: EntityId, x: Entity, y: Job)
    requires QueuesOk(entities, jobs) && e < |entities| && x.queue == entities[e].queue + [|jobs|] &&
             x.last == entities[e].last
    requires y.stage == Queued && y.entity == e
    ensures QueuesOk(entities[e := x], jobs + [y])
  {
    var es, js := entities[e := x], jobs + [y];
    assert |jobs| !in entities[e].queue;
    NoDupMore(entities[e].queue, |jobs|);
    forall d, i | 0 <= d < |es| && 0 <= i < |es[d].queue|
      ensures es[d].queue[i] < |js| && js[es[d].queue[i]].stage == Queued && js[es[d].queue[i]].entity == d
    {
      if i < |entities[d].queue| { assert es[d].queue[i] == entities[d].queue[i]; }
    }
    forall j | 0 <= j < |js| && js[j].stage == Queued ensures Listed(es[js[j].entity].queue, j) {
      if j < |jobs| {
        assert Listed(entities[jobs[j].entity].queue, j);
      } else {
        assert x.queue[|x.queue| - 1] == j;
      }
    }
  }

  /** The first job of `e` leaves the queue. */
  lemma Popped(entities: seq<Entity>, jobs: seq<Job>, ext: set<nat>, e: EntityId, x: Entity, y: Job)
    requires QueuesOk(entities, jobs) && DepsOk(entities, jobs, ext) && e < |entities| && entities[e].queue != []
    requires x.queue == entities[e].queue[1..] && y.stage != Queued && y.entity == e &&
             jobs[entities[e].queue[0]].finished.None?
    requires x.last.Some? ==> x.last.value < |jobs|
    requires jobs[entities[e].queue[0]].scheduled ==> y.scheduled
    ensures var j := entities[e].queue[0];
            QueuesOk(entities[e := x], jobs[j := y]) && DepsOk(entities[e := x], jobs[j := y], ext)
  {
    var j := entities[e].queue[0];
    var es, js := entities[e := x], jobs[j := y];
    PoppedQueues(entities, jobs, e, x, y);
    forall d | 0 <= d < |es| && es[d].queue != [] ensures HeadOk(d, es[d], js, ext) {
      if d == e {
        assert es[d].queue[0] == entities[e].queue[1];
      } else {
        NoneStays(entities, jobs, js, ext, d);
      }
    }
    forall d, i | 0 <= d < |es| && 0 < i < |es[d].queue| ensures js[es[d].queue[i]].next == 0 {
      if d == e { assert es[d].queue[i] == entities[d].queue[i + 1]; }
    }
  }

  lemma PoppedQueues(entities: seq<Entity>, jobs: seq<Job>, e: EntityId, x: Entity, y: Job)
    requires QueuesOk(entities, jobs) && e < |entities| && entities[e].queue != []
    requires x.queue == entities[e].queue[1..] && y.stage != Queued && y.entity == e
    requires x.last.Some? ==> x.last.value < |jobs|
    ensures var j := entities[e].queue[0]; QueuesOk(entities[e := x], jobs[j := y])
    ensures forall i | 0 <= i < |x.queue| :: x.queue[i] != entities[e].queue[0]
    ensures forall d, i | 0 <= d < |entities| && d != e && 0 <= i < |entities[d].queue| ::
              entities[d].queue[i] != entities[e].queue[0]
  {
    var j := entities[e].queue[0];
    var es, js := entities[e := x], jobs[j := y];
    NoDupTail(entities[e].queue);
    forall i | 0 <= i < |x.queue| ensures x.queue[i] != j { assert x.queue[i] in x.queue; }
    forall d, i | 0 <= d < |es| && 0 <= i < |es[d].queue|
      ensures es[d].queue[i] < |js| && js[es[d].queue[i]].stage == Queued && js[es[d].queue[i]].entity == d
    {
      if d == e { assert es[d].queue[i] == entities[d].queue[i + 1]; }
    }
    forall k | 0 <= k < |js| && js[k].stage == Queued ensures Listed(es[js[k].entity].queue, k) {
      assert Listed(entities[jobs[k].entity].queue, k);
    }
  }

  // ---------- The first job of a queue ----------

  /** The first job of `e` passed over a dependency, or `e` waits for another fence. */
  lemma HeadAdvanced(rqs: seq<seq<EntityId>>, entities: seq<Entity>, jobs: seq<Job>, ext: set<nat>, e: EntityId,
                     x: Entity, y: Job)
    requires Waiting(rqs, entities, jobs, ext) && e < |entities| && entities[e].queue != []
    requires x == entities[e].(waiting := x.waiting)
    requires var j := entities[e].queue[0];
             y == jobs[j].(next := y.next, credits := y.credits) && HeadOk(e, x, jobs[j := y], ext)
    ensures Waiting(rqs, entities[e := x], jobs[entities[e].queue[0] := y], ext)
  {
    var j := entities[e].queue[0];
    var es, js := entities[e := x], jobs[j := y];
    hide InOrder;
    HeadQueues(entities, jobs, e, x, y);
    TreeSame(rqs, entities, e, x);
    OrderStays(entities, jobs, es, js);
    forall d | 0 <= d < |es| && es[d].queue != [] ensures HeadOk(d, es[d], js, ext) {
      if d != e { NoneStays(entities, jobs, js, ext, d); }
    }
  }

  lemma HeadQueues(entities: seq<Entity>, jobs: seq<Job>, e: EntityId, x: Entity, y: Job)
    requires QueuesOk(entities, jobs) && e < |entities| && entities[e].queue != [] && x.queue == entities[e].queue &&
             x.last == entities[e].last
    requires y == jobs[entities[e].queue[0]].(next := y.next, credits := y.credits)
    ensures QueuesOk(entities[e := x], jobs[entities[e].queue[0] := y])
    ensures forall d, i | 0 <= d < |entities| && 0 <= i < |entities[d].queue| && (d != e || i > 0) ::
              entities[d].queue[i] != entities[e].queue[0]
  {
    var es, js := entities[e := x], jobs[entities[e].queue[0] := y];
    forall k | 0 <= k < |js| && js[k].stage == Queued ensures Listed(es[js[k].entity].queue, k) {
      assert Listed(entities[jobs[k].entity].queue, k);
    }
    NoDupTail(entities[e].queue);
    forall i | 0 < i < |entities[e].queue| ensures entities[e].queue[i] != entities[e].queue[0] {
      assert entities[e].queue[1..][i - 1] == entities[e].queue[i];
    }
  }

  /** The entity has a job and is not waiting for a fence. */
  predicate Ready(e: EntityId, entities: seq<Entity>) {
    e < |entities| && entities[e].queue != [] && entities[e].waiting.None?
  }

  lemma IdleCleared(rqs: seq<seq<EntityId>>, entities: seq<Entity>, jobs: seq<Job>, ext: set<nat>, e: EntityId,
                    x: Entity)
    requires Waiting(rqs, entities, jobs, ext) && e < |entities| && entities[e].queue == [] &&
             x == entities[e].(waiting := x.waiting)
    ensures Waiting(rqs, entities[e := x], jobs, ext)
  {
    hide InOrder;
    var es := entities[e := x];
    TreeSame(rqs, entities, e, x);
    OrderStays(entities, jobs, es, jobs);
    forall k | 0 <= k < |jobs| && jobs[k].stage == Queued ensures Listed(es[jobs[k].entity].queue, k) {
      assert Listed(entities[jobs[k].entity].queue, k);
    }
  }

  lemma CutDown(jobs: seq<Job>, pending: seq<JobId>, count: int, limit: nat, paused: bool, bad: Option<JobId>,
                guilty: bool, j: JobId, y: Job)
    requires Executing(jobs, pending, count, limit, paused, bad, guilty) && j < |jobs| && jobs[j].stage == Queued
    requires y == jobs[j].(credits := y.credits)
    ensures Executing(jobs[j := y], pending, count, limit, paused, bad, guilty)
  {
    ChargeUpdate(jobs, j, y);
    ListsSame(pending, jobs, j, y, Pending);
    LoadSame(pending, jobs, jobs[j := y]);
  }

  // ---------- From the queue to the hardware ----------

  lemma KeysButOne(entities: seq<Entity>, jobs: seq<Job>, e: EntityId, x: Entity, j: JobId, y: Job)
    requires TreeKeys(entities, jobs) && e < |entities| && j < |jobs| && y.submit == jobs[j].submit
    ensures forall d | 0 <= d < |entities| && d != e && !entities[d].stopped && entities[d].queue != [] ::
              entities[d].queued && entities[d].queue[0] < |jobs| &&
              entities[d].key == jobs[j := y][entities[d].queue[0]].submit
  {}

  /** Only the place of `e` in its tree changes. */
  lemma KeyOnly(entities: seq<Entity>, jobs: seq<Job>, ext: set<nat>, e: EntityId, x: Entity)
    requires QueuesOk(entities, jobs) && DepsOk(entities, jobs, ext) && e < |entities|
    requires x == entities[e].(queued := x.queued, key := x.key, stopped := x.stopped)
    ensures QueuesOk(entities[e := x], jobs) && DepsOk(entities[e := x], jobs, ext)
  {
    var es := entities[e := x];
    forall k | 0 <= k < |jobs| && jobs[k].stage == Queued ensures Listed(es[jobs[k].entity].queue, k) {
      assert Listed(entities[jobs[k].entity].queue, k);
    }
    forall d | 0 <= d < |es| && es[d].queue != [] ensures HeadOk(d, es[d], jobs, ext) {
      assert HeadOk(d, entities[d], jobs, ext);
    }
  }

  lemma Started(jobs: seq<Job>, pending: seq<JobId>, count: int, limit: nat, bad: Option<JobId>, guilty: bool,
                j: JobId, y: Job)
    requires Executing(jobs, pending, count, limit, false, bad, guilty) && j < |jobs| && jobs[j].stage == Queued
    requires y == jobs[j].(stage := Pending, hw := Running(true), scheduled := true, ran := true)
    requires count + y.credits <= limit
    ensures Executing(jobs[j := y], pending + [j], count + y.credits, limit, false, bad, guilty)
  {
    ChargeUpdate(jobs, j, y);
    ListsMore(pending, jobs, j, y, Pending);
  }

  /** Only credits and dependency counters have changed since. */
  lemma HarmlessBefore(e: EntityId, jobs: seq<Job>, jobs': seq<Job>, ext: set<nat>)
    requires |jobs| == |jobs'| &&
             (forall j | 0 <= j < |jobs| :: jobs'[j] == jobs[j].(credits := jobs'[j].credits, next := jobs'[j].next))
    ensures forall f :: Harmless(f, e, jobs', ext) <==> Harmless(f, e, jobs, ext)
    ensures forall f :: Blocks(f, e, jobs', ext) <==> Blocks(f, e, jobs, ext)
  {}

  // ---------- New jobs and killed jobs ----------

  lemma ExecutingMore(jobs: seq<Job>, pending: seq<JobId>, count: int, limit: nat, paused: bool, bad: Option<JobId>,
                      guilty: bool, y: Job)
    requires Executing(jobs, pending, count, limit, paused, bad, guilty) && y.stage == Queued && JobOk(y, paused)
    ensures Executing(jobs + [y], pending, count, limit, paused, bad, guilty)
  {
    ChargeAppend(jobs, y);
    LoadSame(pending, jobs, jobs + [y]);
    forall j | 0 <= j < |jobs + [y]| && (jobs + [y])[j].stage == Pending ensures Listed(pending, j) {
      assert j < |jobs|;
    }
  }

  lemma KillMore(jobs: seq<Job>, ext: set<nat>, y: Job)
    requires KillOk(jobs, ext) && y.stage == Queued && y.after.None? && y.finished.None?
    ensures KillOk(jobs + [y], ext)
  {
    var js := jobs + [y];
    forall k | 0 <= k < |js| && js[k].stage == Dying ensures Progress(js[k], js, ext) {
      ProgressStays(jobs[k], jobs, js, ext, ext);
    }
  }

  /** A job outside the pending list changes without becoming, or ceasing to be, charged or suspect. */
  lemma ExecutingSame(jobs: seq<Job>, pending: seq<JobId>, count: int, limit: nat, paused: bool, bad: Option<JobId>,
                      guilty: bool, j: JobId, y: Job)
    requires Executing(jobs, pending, count, limit, paused, bad, guilty) && j < |jobs|
    requires (jobs[j].stage == Queued || jobs[j].stage == Dying) && (y.stage == Dying || y.stage == Freed)
    requires JobOk(y, paused) && !Charged(y)
    ensures Executing(jobs[j := y], pending, count, limit, paused, bad, guilty)
  {
    ChargeUpdate(jobs, j, y);
    ListsSame(pending, jobs, j, y, Pending);
    LoadSame(pending, jobs, jobs[j := y]);
  }

  /** A queued job is condemned: it will have to wait for the job `y.after`. */
  lemma Condemned(jobs: seq<Job>, ext: set<nat>, j: JobId, y: Job)
    requires KillOk(jobs, ext) && j < |jobs| && jobs[j].finished.None?
    requires y == jobs[j].(stage := Dying, next := 0, after := y.after) && (y.after.Some? ==> y.after.value < |jobs|)
    ensures KillOk(jobs[j := y], ext)
  {
    var js := jobs[j := y];
    forall k | 0 <= k < |js| && js[k].stage == Dying ensures Progress(js[k], js, ext) {
      if k != j { ProgressStays(jobs[k], jobs, js, ext, ext); }
    }
  }

  /** A dying job got past a dependency, or is signalled and freed. */
  lemma DyingMoves(jobs: seq<Job>, ext: set<nat>, j: JobId, y: Job)
    requires KillOk(jobs, ext) && j < |jobs| && jobs[j].finished.None? && AfterDone(jobs[j], jobs)
    requires y.after == jobs[j].after && y.entity == jobs[j].entity && (jobs[j].scheduled ==> y.scheduled)
    requires y.stage == Freed || (y.stage == Dying && y.finished.None? && Progress(y, jobs, ext))
    ensures KillOk(jobs[j := y], ext)
  {
    var js := jobs[j := y];
    forall k | 0 <= k < |js| && js[k].stage == Dying ensures Progress(js[k], js, ext) {
      if k != j { ProgressStays(jobs[k], jobs, js, ext, ext); } else { ProgressStays(y, jobs, js, ext, ext); }
    }
  }

  /** The first `n` jobs of the queue `q` are condemned, each to wait for the one before it. */
  predicate Chained(jobs: seq<Job>, q: seq<JobId>, n: nat, last: Option<JobId>)
    requires n <= |q|
  {
    forall i | 0 <= i < n ::
      q[i] < |jobs| && jobs[q[i]].stage == Dying && jobs[q[i]].next == 0 &&
      jobs[q[i]].after == if i == 0 then last else Some(q[i - 1])
  }

  /** A new fence of the hardware, on which there is no callback yet. */
  function Unhooked(hw: Hardware): Hardware { if hw.Running? then Running(false) else hw }

  /** The jobs of the list have the fences that running them again has given, and nothing else has changed. */
  predicate Resubmitted(jobs: seq<Job>, jobs': seq<Job>, list: seq<JobId>, answers: JobId -> Hardware) {
    |jobs'| == |jobs| &&
    forall j: JobId | j < |jobs| :: jobs'[j] == if j in list then jobs[j].(hw := Unhooked(answers(j))) else jobs[j]
  }

  lemma ResubmittedMore(jobs: seq<Job>, now: seq<Job>, jobs': seq<Job>, list: seq<JobId>, n: nat,
                        answers: JobId -> Hardware)
    requires n < |list| && list[n] < |jobs| && Resubmitted(jobs, now, list[..n], answers)
    requires jobs' == now[list[n] := now[list[n]].(hw := Unhooked(answers(list[n])))]
    ensures Resubmitted(jobs, jobs', list[..n + 1], answers)
  {
    assert list[..n + 1] == list[..n] + [list[n]];
  }

  /** The jobs of the list are condemned, and no other job has changed. */
  predicate AllCondemned(jobs: seq<Job>, jobs': seq<Job>, list: seq<JobId>) {
    |jobs'| == |jobs| &&
    forall j: JobId | j < |jobs| ::
      jobs'[j] == if j in list then jobs[j].(stage := Dying, next := 0, after := jobs'[j].after) else jobs[j]
  }

  lemma CondemnedMore(jobs: seq<Job>, now: seq<Job>, jobs': seq<Job>, q: seq<JobId>, n: nat)
    requires n < |q| && NoDup(q) && AllCondemned(jobs, now, q[..n]) && q[n] < |now| == |jobs'|
    requires jobs' == now[q[n] := now[q[n]].(stage := Dying, next := 0, after := jobs'[q[n]].after)]
    ensures AllCondemned(jobs, jobs', q[..n + 1])
  {
    assert q[..n + 1] == q[..n] + [q[n]];
    if q[n] in q[..n] {
      var i :| 0 <= i < n && q[..n][i] == q[n];
      assert Pair(i, n);
    }
  }

  lemma NoneCondemned(jobs: seq<Job>, q: seq<JobId>, last: Option<JobId>)
    ensures AllCondemned(jobs, jobs, q[..0]) && Chained(jobs, q, 0, last)
  {}

  lemma ChainedMore(jobs: seq<Job>, q: seq<JobId>, n: nat, last: Option<JobId>, jobs': seq<Job>)
    requires n < |q| && Chained(jobs, q, n, last) && q[n] < |jobs| && jobs[q[n]].stage == Queued
    requires jobs' ==
               jobs[q[n] := jobs[q[n]].(stage := Dying, next := 0, after := if n == 0 then last else Some(q[n - 1]))]
    ensures Chained(jobs', q, n + 1, last)
  {}

  lemma TimeoutSame(jobs: seq<Job>, bad: Option<JobId>, guilty: bool, j: JobId, y: Job)
    requires TimeoutOk(jobs, bad, guilty) && j < |jobs| && y.stage == jobs[j].stage
    ensures TimeoutOk(jobs[j := y], bad, guilty)
  {}

  lemma TimeoutOver(jobs: seq<Job>, bad: Option<JobId>, guilty: bool, j: JobId, y: Job)
    requires TimeoutOk(jobs, bad, guilty) && j < |jobs| && (jobs[j].stage == Suspect || jobs[j].stage == Guilty)
    requires y.stage != Suspect && y.stage != Guilty
    ensures TimeoutOk(jobs[j := y], None, false)
  {}
}
