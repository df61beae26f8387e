/** One GPU scheduler: every step its workers, its driver and its clients can take. */
module Sched {
  import opened Common
  import opened SchedState

  /** The steps of a run. */
  datatype Step =
    | Submit(entity: EntityId, credits: nat, deps: seq<Fence>, now: int)
    | Run(extra: Option<Fence>, answer: Hardware, error: int)
    | External(id: nat)
    | Dependency(entity: EntityId)
    | Complete(job: JobId, result: int)
    | Free
    | Timeout
    | TimeoutDone
    | Stop(reinsert: bool)
    | Resubmit(answers: JobId -> Hardware)
    | Start(errno: int)
    | Kill(entity: EntityId)
    | KillNext(job: JobId)

  class Scheduler {
    var limit: nat
    var count: int
    var jobs: seq<Job>
    var entities: seq<Entity>
    var rqs: seq<seq<EntityId>>
    var pending: seq<JobId>
    var paused: bool
    var bad: Option<JobId>
    var guilty: bool
    var ext: set<nat>

    ghost predicate Valid()
      reads this
    {
      Waiting(rqs, entities, jobs, ext) && KillOk(jobs, ext) &&
      Executing(jobs, pending, count, limit, paused, bad, guilty)
    }

    // ---------- Completion ----------

    /** `drm_sched_job_done` for a job whose credits are in the count; `hw` is what becomes of its fence. */
    method JobDone(j: JobId, result: int, hw: Hardware)
      requires Valid() && j < |jobs| && Charged(jobs[j]) && !hw.Running?
      modifies this`jobs, this`count
      ensures Valid() && jobs == old(jobs)[j := old(jobs[j]).(hw := hw, finished := Some(result))]
      ensures count == old(count) - old(jobs[j].credits)
    {
      hide InOrder;
      hide Charge;
      hide Load;
      var x := jobs[j];
      var y := x.(hw := hw, finished := Some(result));
      DoneKeeps(jobs, pending, count, limit, paused, bad, guilty, j, y);
      MoveOn(rqs, entities, jobs, ext, j, y);
      KillMove(jobs, ext, j, y);
      count := count - x.credits;
      jobs := jobs[j := y];
    }

    /** The hardware signals a job's fence; the scheduler hears of it if its callback is there. */
    method HardwareSignals(j: JobId, result: int)
      requires Valid() && j < |jobs| && jobs[j].hw.Running?
      modifies this`jobs, this`count
      ensures Valid()
      ensures jobs ==
                old(jobs)[j := if old(Charged(jobs[j])) then old(jobs[j]).(hw := Signaled, finished := Some(result))
                                     else old(jobs[j]).(hw := Signaled)]
      ensures count == old(count) - Cost(old(jobs[j]))
    {
      hide InOrder;
      hide Charge;
      hide Load;
      if jobs[j].hw.callback {
        JobDone(j, result, Signaled);
      } else {
        var y := jobs[j].(hw := Signaled);
        DoneKeeps(jobs, pending, count, limit, paused, bad, guilty, j, y);
        MoveOn(rqs, entities, jobs, ext, j, y);
        KillMove(jobs, ext, j, y);
        jobs := jobs[j := y];
      }
    }

    /** `drm_sched_free_job_work`: the first pending job is freed if it has finished. */
    method FreeWorker() returns (freed: Option<JobId>)
      requires Valid() && !paused
      modifies this`jobs, this`pending
      ensures Valid()
      ensures freed.Some? ==>
        var j := freed.value;
        j < |old(jobs)| && old(pending) == [j] + pending && old(jobs[j].finished.Some? && jobs[j].frees == 0) &&
        jobs == old(jobs)[j := old(jobs[j]).(stage := Freed, frees := 1)]
      ensures freed.None? ==> jobs == old(jobs) && pending == old(pending)
      ensures freed.None? <==> old(pending == [] || jobs[pending[0]].finished.None?)
    {
      hide Waiting;
      hide Charge;
      hide Load;
      freed := None;
      if pending != [] && jobs[pending[0]].finished.Some? {
        var j := pending[0];
        var y := jobs[j].(stage := Freed, frees := jobs[j].frees + 1);
        HeadLeaves(jobs, pending, count, limit, bad, guilty, y, bad);
        MoveOn(rqs, entities, jobs, ext, j, y);
        KillMove(jobs, ext, j, y);
        jobs := jobs[j := y];
        pending := pending[1..];
        freed := Some(j);
      }
    }

    // ---------- Timeouts ----------

    /** The start of `drm_sched_job_timedout`: the first pending job is taken off the list. */
    method TimeoutBegin()
      requires Valid() && !paused && bad.None?
      modifies this`jobs, this`pending, this`bad
      ensures Valid()
      ensures old(pending) == [] ==> bad.None? && jobs == old(jobs) && pending == []
      ensures old(pending) != [] ==>
                bad == Some(old(pending[0])) && pending == old(pending)[1..] && bad.value < |old(jobs)| &&
                jobs == old(jobs)[bad.value := old(jobs)[bad.value].(stage := Suspect)]
    {
      hide Waiting;
      hide Charge;
      hide Load;
      if pending != [] {
        var j := pending[0];
        var y := jobs[j].(stage := Suspect);
        HeadLeaves(jobs, pending, count, limit, bad, guilty, y, Some(j));
        MoveOn(rqs, entities, jobs, ext, j, y);
        KillMove(jobs, ext, j, y);
        jobs := jobs[j := y];
        pending := pending[1..];
        bad := Some(j);
      }
    }

    /** A job that is neither queued, pending nor dying changes its stage. */
    method Conclude(j: JobId, y: Job)
      requires Valid() && j < |jobs| && (jobs[j].stage == Suspect || jobs[j].stage == Guilty)
      requires y == jobs[j].(stage := y.stage, frees := y.frees) && (y.stage == Freed || y.stage == Lost) &&
               JobOk(y, paused)
      modifies this`jobs, this`bad, this`guilty
      ensures Valid() && bad.None? && !guilty && jobs == old(jobs)[j := y]
    {
      hide InOrder;
      hide Charge;
      hide Load;
      DoneKeeps(jobs, pending, count, limit, paused, bad, guilty, j, y);
      TimeoutOver(jobs, bad, guilty, j, y);
      MoveOn(rqs, entities, jobs, ext, j, y);
      KillMove(jobs, ext, j, y);
      jobs := jobs[j := y];
      guilty := false;
      bad := None;
    }

    /** The end of `drm_sched_job_timedout`: the job is freed if `drm_sched_stop` left it to the handler. */
    method TimeoutEnd() returns (freed: bool)
      requires Valid() && bad.Some?
      modifies this`jobs, this`bad, this`guilty
      ensures Valid() && bad.None? && !guilty && freed == old(guilty)
      ensures freed ==>
                old(jobs[bad.value].finished.Some? && jobs[bad.value].frees == 0) &&
                jobs == old(jobs)[old(bad.value) := old(jobs[bad.value]).(stage := Freed, frees := 1)]
      ensures !freed ==>
                jobs == if old(jobs[bad.value].stage) != Suspect then old(jobs)
                        else old(jobs)[old(bad.value) := old(jobs[bad.value]).(stage := Lost)]
    {
      var j := bad.value;
      freed := guilty;
      if guilty {
        Conclude(j, jobs[j].(stage := Freed, frees := jobs[j].frees + 1));
      } else if jobs[j].stage == Suspect {
        Conclude(j, jobs[j].(stage := Lost));
      } else {
        bad := None;
      }
    }

    // ---------- Reset ----------

    /** The parts of the state that stopping and starting do not have to take apart. */
    ghost predicate Apart()
      reads this
    {
      Waiting(rqs, entities, jobs, ext) && KillOk(jobs, ext) && TimeoutOk(jobs, bad, guilty)
    }

    /** `drm_sched_stop`, for a job whose callback can be removed. */
    method Deactivate(j: JobId, ghost active: seq<JobId>, ghost idle: seq<JobId>)
      requires Apart() && active != [] && j == active[|active| - 1] && Halfway(jobs, active, idle, count, limit) &&
               Charged(jobs[j])
      modifies this`jobs, this`count
      ensures Apart() && Halfway(jobs, active[..|active| - 1], [j] + idle, count, limit)
      ensures jobs == old(jobs)[j := Halted(old(jobs[j]), false)]
    {
      hide Waiting;
      hide Charge;
      hide Load;
      var x := jobs[j];
      var y := x.(hw := Absent);
      assert (active + idle)[|active| - 1] == j;
      HalfIdle(jobs, active, idle, count, limit);
      TimeoutSame(jobs, bad, guilty, j, y);
      MoveOn(rqs, entities, jobs, ext, j, y);
      KillMove(jobs, ext, j, y);
      count := count - x.credits;
      jobs := jobs[j := y];
    }

    /**
      `drm_sched_stop`, for a job that is done: it leaves the list and is freed, unless it is the job that the caller
      has named.
     */
    method Retire(j: JobId, named: Option<JobId>, ghost active: seq<JobId>, ghost idle: seq<JobId>)
      requires Apart() && active != [] && j == active[|active| - 1] && Halfway(jobs, active, idle, count, limit) &&
               !Charged(jobs[j])
      requires named.Some? ==> named == bad
      modifies this`jobs, this`guilty
      ensures Apart() && Halfway(jobs, active[..|active| - 1], idle, count, limit)
      ensures jobs == old(jobs)[j := Halted(old(jobs[j]), named == Some(j))] && old(jobs[j].finished.Some?)
    {
      hide Waiting;
      hide KillOk;
      hide Charge;
      hide Load;
      var x := jobs[j];
      var y := if named == Some(j) then x.(stage := Guilty) else x.(stage := Freed, frees := x.frees + 1);
      assert (active + idle)[|active| - 1] == j;
      HalfLeaves(jobs, active, idle, count, limit, y);
      MoveOn(rqs, entities, jobs, ext, j, y);
      KillMove(jobs, ext, j, y);
      jobs := jobs[j := y];
      if named == Some(j) { guilty := true; }
    }

    /** The job the timeout handler had taken goes back to the head of the list. */
    method Reinsert()
      requires Valid() && !paused && bad.Some? && jobs[bad.value].stage == Suspect
      modifies this`jobs, this`pending
      ensures Valid() && pending == [bad.value] + old(pending) &&
              jobs == old(jobs)[bad.value := old(jobs[bad.value]).(stage := Pending)]
    {
      hide Waiting;
      hide Charge;
      hide Load;
      var j := bad.value;
      var y := jobs[j].(stage := Pending);
      Reinserted(jobs, pending, count, limit, bad, guilty, j, y);
      MoveOn(rqs, entities, jobs, ext, j, y);
      KillMove(jobs, ext, j, y);
      jobs := jobs[j := y];
      pending := [j] + pending;
    }

    /** One round of the loop of `drm_sched_stop`, for the job at `i`, between those before it and those dealt with. */
    method StopAt(i: nat, j: JobId, named: Option<JobId>, ghost before: seq<JobId>, ghost idle: seq<JobId>)
      returns (ghost idle': seq<JobId>)
      requires Apart() && i == |before| && pending == before + [j] + idle
      requires Halfway(jobs, before + [j], idle, count, limit) && (named.Some? ==> named == bad)
      modifies this`jobs, this`count, this`pending, this`guilty
      ensures Apart() && pending == before + idle' && Halfway(jobs, before, idle', count, limit)
      ensures j < |old(jobs)| && jobs == old(jobs)[j := Halted(old(jobs)[j], named == Some(j))]
      ensures idle' == (if Charged(old(jobs)[j]) then [j] else []) + idle
    {
      hide Halfway;
      hide Waiting;
      hide KillOk;
      hide TimeoutOk;
      ghost var active := before + [j];
      HalfList(jobs, active, idle, count, limit);
      assert active[..i] == before && active[i] == j && (active + idle)[i] == j;
      if jobs[j].hw == Running(true) {
        Deactivate(j, active, idle);
        idle' := [j] + idle;
        assert before + idle' == before + [j] + idle;
      } else {
        Retire(j, named, active, idle);
        pending := pending[..i] + pending[i + 1..];
        idle' := idle;
      }
    }

    /** The loop of `drm_sched_stop`, from the last job to the first. */
    method StopJobs(named: Option<JobId>)
      requires Apart() && Halfway(jobs, pending, [], count, limit) && (named.Some? ==> named == bad)
      modifies this`jobs, this`count, this`pending, this`guilty
      ensures Apart() && Halfway(jobs, [], pending, count, limit) && AllHalted(old(jobs), jobs, old(pending), named)
      ensures (forall i | 0 <= i < |old(pending)| :: old(pending)[i] < |old(jobs)|) &&
              pending == Unfinished(old(pending), old(jobs))
    {
      hide Waiting;
      hide KillOk;
      hide TimeoutOk;
      hide Halfway;
      hide Charge;
      hide Load;
      hide Unfinished;
      var i := |pending|;
      ghost var idle: seq<JobId>, list, was := [], pending, jobs;
      HalfList(jobs, pending, [], count, limit);
      UnfinishedNone(was);
      assert list[..i] == list == list + [] && list[i..] == [];
      while i > 0
        invariant 0 <= i <= |list| && pending == list[..i] + idle && Apart()
        invariant Halfway(jobs, list[..i], idle, count, limit)
        invariant AllHalted(was, jobs, list[i..], named) && idle == Unfinished(list[i..], was)
      {
        i := i - 1;
        ghost var now := jobs;
        assert list[..i + 1] == list[..i] + [list[i]];
        idle := StopAt(i, pending[i], named, list[..i], idle);
        HaltedMore(was, now, jobs, list, i, named);
        UnfinishedMore(list, i, was);
      }
      assert list[..0] == [] && list[0..] == list && pending == idle;
    }

    /**
      `drm_sched_stop`: afterwards the pending list holds the jobs that have not finished, without
      their callbacks, and the credits of none of them are counted. With `reinsert` it is called for the job
      that the timeout handler has taken off the list.
     */
    method Stop(reinsert: bool)
      requires Valid() && !paused && (reinsert ==> bad.Some? && jobs[bad.value].stage == Suspect)
      modifies this`jobs, this`count, this`pending, this`guilty, this`paused
      ensures Valid() && paused
      ensures var named := if reinsert then bad else None;
              var list := (if reinsert then [bad.value] else []) + old(pending);
              var was := if reinsert then old(jobs)[bad.value := old(jobs[bad.value]).(stage := Pending)]
              else old(jobs);
              (forall i | 0 <= i < |list| :: list[i] < |was|) && pending == Unfinished(list, was) &&
              AllHalted(was, jobs, list, named)
    {
      hide Charge;
      hide Load;
      hide Unfinished;
      if reinsert { Reinsert(); }
      assert [] + old(pending) == old(pending);
      AllActive(jobs, pending, count, limit, bad, guilty);
      paused := true;
      StopJobs(if reinsert then bad else None);
      AllIdle(jobs, pending, count, limit, bad, guilty);
    }

    /** `drm_sched_resubmit_jobs`: the driver runs the pending jobs again, and the hardware answers as it likes. */
    method Resubmit(answers: JobId -> Hardware)
      requires Valid() && paused
      modifies this`jobs
      ensures Valid() && Resubmitted(old(jobs), jobs, pending, answers)
    {
      hide Waiting;
      hide KillOk;
      hide Charge;
      hide Load;
      var i := 0;
      while i < |pending|
        invariant 0 <= i <= |pending| && Valid() && Resubmitted(old(jobs), jobs, pending[..i], answers)
      {
        ghost var js, j := jobs, pending[i];
        var hw := answers(pending[i]);
        if hw.Running? { hw := Running(false); }
        Rerun(pending[i], hw);
        assert pending[..i + 1] == pending[..i] + [j];
        assert Resubmitted(old(jobs), jobs, pending[..i + 1],
                           answers) by { ResubmittedMore(old(jobs), js, jobs, pending, i, answers); }
        i := i + 1;
      }
      assert pending[..i] == pending;
    }

    method Rerun(j: JobId, hw: Hardware)
      requires Valid() && paused && j < |jobs| && jobs[j].stage == Pending && hw != Running(true)
      modifies this`jobs
      ensures Valid() && jobs == old(jobs)[j := old(jobs[j]).(hw := hw)]
    {
      hide Waiting;
      hide Charge;
      hide Load;
      var y := jobs[j].(hw := hw);
      DoneKeeps(jobs, pending, count, limit, paused, bad, guilty, j, y);
      MoveOn(rqs, entities, jobs, ext, j, y);
      KillMove(jobs, ext, j, y);
      jobs := jobs[j := y];
    }

    /** The first idle job becomes `y`: active again, or done. */
    method Revive(j: JobId, y: Job, ghost active: seq<JobId>, ghost idle: seq<JobId>)
      requires Apart() && idle != [] && j == idle[0] && Halfway(jobs, active, idle, count, limit)
      requires y == jobs[j].(hw := y.hw, finished := y.finished) && JobOk(y, false)
      modifies this`jobs, this`count
      ensures Apart() && Halfway(jobs, active + [j], idle[1..], count, limit) && jobs == old(jobs)[j := y]
    {
      hide Waiting;
      hide Charge;
      assert (active + idle)[|active|] == j;
      HalfActive(jobs, active, idle, count, limit, y);
      TimeoutSame(jobs, bad, guilty, j, y);
      MoveOn(rqs, entities, jobs, ext, j, y);
      KillMove(jobs, ext, j, y);
      count := count + y.credits;
      assert count <= limit;  // also while the list is half done
      if !Charged(y) { count := count - y.credits; }
      jobs := jobs[j := y];
    }

    /** One job of `drm_sched_start`: its callback is put back, or it is done. */
    method Restart(j: JobId, errno: int, ghost active: seq<JobId>, ghost idle: seq<JobId>)
      requires Apart() && idle != [] && j == idle[0] && Halfway(jobs, active, idle, count, limit)
      modifies this`jobs, this`count
      ensures Apart() && Halfway(jobs, active + [j], idle[1..], count, limit)
      ensures j < |jobs| == |old(jobs)| && Resumed(old(jobs)[j], jobs[j], errno) && jobs == old(jobs)[j := jobs[j]]
    {
      var x := jobs[j];
      assert (active + idle)[|active|] == j;
      if x.hw == Absent {
        Revive(j, x.(finished := Some(if errno != 0 then errno else -125)), active, idle);
      } else if x.hw == Running(false) {
        Revive(j, x.(hw := Running(true)), active, idle);
      } else {
        var error: int := *;
        Revive(j, x.(finished := Some(error)), active, idle);
      }
    }

    /** The loop of `drm_sched_start`, from the first job to the last. */
    method StartJobs(errno: int)
      requires Apart() && Halfway(jobs, [], pending, count, limit)
      modifies this`jobs, this`count
      ensures Apart() && Halfway(jobs, pending, [], count, limit) && AllResumed(old(jobs), jobs, pending, errno)
    {
      hide Waiting;
      hide KillOk;
      hide TimeoutOk;
      hide Halfway;
      var i := 0;
      ghost var active, idle: seq<JobId> := [], pending;
      HalfList(jobs, [], pending, count, limit);
      assert [] + pending == pending;
      while i < |pending|
        invariant 0 <= i <= |pending| && active == pending[..i] && idle == pending[i..] && Apart()
        invariant Halfway(jobs, active, idle, count, limit) && AllResumed(old(jobs), jobs, active, errno)
      {
        var j := pending[i];
        ghost var now := jobs;
        Restart(j, errno, active, idle);
        ResumedMore(old(jobs), now, jobs, pending, i, errno, jobs[j]);
        active, idle := active + [j], idle[1..];
        i := i + 1;
      }
      assert active == pending && idle == [];
    }

    /** `drm_sched_start` */
    method Start(errno: int)
      requires Valid() && paused
      modifies this`jobs, this`count, this`paused
      ensures Valid() && !paused && AllResumed(old(jobs), jobs, pending, errno)
    {
      hide Waiting;
      hide KillOk;
      hide Charge;
      hide Load;
      NoneActive(jobs, pending, count, limit, bad, guilty);
      StartJobs(errno);
      EndActive(jobs, pending, count, limit, bad, guilty);
      paused := false;
    }

    // ---------- Dependencies ----------

    /** The first job of `e` has passed over `next` dependencies, and `e` waits for `w`. */
    method SetHead(e: EntityId, next: nat, w: Option<Fence>)
      requires Valid() && e < |entities| && entities[e].queue != [] && next <= |jobs[entities[e].queue[0]].deps|
      requires var j := entities[e].queue[0];
               HeadOk(e, entities[e].(waiting := w), jobs[j := jobs[j].(next := next)], ext)
      modifies this`jobs, this`entities
      ensures Valid() && entities == old(entities)[e := old(entities[e]).(waiting := w)]
      ensures var j := old(entities[e].queue[0]); jobs == old(jobs)[j := old(jobs[j]).(next := next)]
    {
      var j := entities[e].queue[0];
      var y := jobs[j].(next := next);
      HeadAdvanced(rqs, entities, jobs, ext, e, entities[e].(waiting := w), y);
      DoneKeeps(jobs, pending, count, limit, paused, bad, guilty, j, y);
      KillMove(jobs, ext, j, y);
      entities := entities[e := entities[e].(waiting := w)];
      jobs := jobs[j := y];
    }

    /** `drm_sched_entity_add_dependency_cb`: the fence to wait for instead of `f`, if any. */
    method WaitFor(e: EntityId, f: Fence) returns (w: Option<Fence>)
      requires Valid() && e < |entities|
      ensures w.Some? ==> StandsFor(w.value, f) && !Signalled(w.value, jobs, ext) && Blocks(f, e, jobs, ext)
      ensures w.None? ==> Harmless(f, e, jobs, ext)
    {
      if !f.External? && f.job < |jobs| && jobs[f.job].entity == e { return None; }
      var pipelined: bool := *;
      var failed := !f.External? && f.job < |jobs| && jobs[f.job].finished.Some? && jobs[f.job].finished.value != 0;
      if !f.External? && pipelined && !failed {
        return if Signalled(Scheduled(f.job), jobs, ext) then None else Some(Scheduled(f.job));
      }
      return if Signalled(f, jobs, ext) then None else Some(f);
    }

    /** Only the dependency counter of the first job of `e` and the fence `e` waits for have changed. */
    twostate predicate HeadOnly(e: EntityId)
      reads this
      requires e < |old(entities)| && old(entities[e].queue) != [] && old(entities[e].queue[0]) < |old(jobs)|
    {
      |entities| == |old(entities)| &&
      entities == old(entities)[e := old(entities[e]).(waiting := entities[e].waiting)] &&
      var j := old(entities[e].queue[0]);
      |jobs| == |old(jobs)| && jobs == old(jobs)[j := old(jobs[j]).(next := jobs[j].next)]
    }

    /** One round of the loop of `drm_sched_entity_pop_job`. */
    method PassOne(e: EntityId, f: Fence, next: nat)
      requires Valid() && Ready(e, entities)
      requires var j := jobs[entities[e].queue[0]];
               next <= |j.deps| && (next == j.next || (next == j.next + 1 && f == j.deps[j.next]))
      modifies this`jobs, this`entities
      ensures Valid() && HeadOnly(e) && jobs[old(entities[e].queue[0])].next == next
      ensures if entities[e].waiting.Some? then Blocks(f, e, old(jobs), ext) else Harmless(f, e, old(jobs), ext)
    {
      hide InOrder;
      hide Executing;
      hide KillOk;
      var w := WaitFor(e, f);
      SetHead(e, next, w);
    }

    /**
      The loop of `drm_sched_entity_pop_job`: it ends with the entity waiting because of a dependency that has not
      signalled, or with every dependency of its first job out of the way. The driver may add one of its own.
     */
    method PassDependencies(e: EntityId, extra: Option<Fence>) returns (blocked: bool)
      requires Valid() && Ready(e, entities)
      modifies this`jobs, this`entities
      ensures Valid() && HeadOnly(e) && (blocked <==> entities[e].waiting.Some?)
      ensures var j := old(jobs[entities[e].queue[0]]);
              if blocked then exists f | f in j.deps || extra == Some(f) :: Blocks(f, e, old(jobs), ext)
              else forall f | f in j.deps || extra == Some(f) :: Harmless(f, e, old(jobs), ext)
    {
      hide InOrder;
      hide KillOk;
      hide Charge;
      hide Load;
      var j := entities[e].queue[0];
      ghost var deps := jobs[j].deps;
      while entities[e].waiting.None? && jobs[j].next < |jobs[j].deps|
        invariant Valid() && HeadOnly(e)
        invariant entities[e].waiting.Some? ==> exists f | f in deps :: Blocks(f, e, old(jobs), ext)
        decreases |jobs[j].deps| - jobs[j].next
      {
        HarmlessBefore(e, old(jobs), jobs, ext);
        ghost var f := jobs[j].deps[jobs[j].next];
        PassOne(e, jobs[j].deps[jobs[j].next], jobs[j].next + 1);
        assert f in deps;
      }
      HarmlessBefore(e, old(jobs), jobs, ext);
      if entities[e].waiting.None? {
        assert HeadOk(e, entities[e], jobs, ext);
        if extra.Some? { PassOne(e, extra.value, jobs[j].next); }
      }
      blocked := entities[e].waiting.Some?;
    }

    /** The callback on the fence an entity waits for. */
    method DependencySignals(e: EntityId)
      requires Valid() && e < |entities| && entities[e].waiting.Some? && Signalled(entities[e].waiting.value, jobs, ext)
      modifies this`jobs, this`entities
      ensures Valid() && entities == old(entities)[e := old(entities[e]).(waiting := None)] && jobs == old(jobs)
    {
      hide InOrder;
      hide KillOk;
      hide Executing;
      if entities[e].queue != [] {
        SetHead(e, jobs[entities[e].queue[0]].next, None);
      } else {
        var x := entities[e].(waiting := None);
        IdleCleared(rqs, entities, jobs, ext, e, x);
        entities := entities[e := x];
      }
    }

    // ---------- Choosing an entity ----------

    /** `drm_sched_can_queue`: a job that asks for more than the limit is cut down to it. */
    method CanQueue(e: EntityId) returns (fits: bool)
      requires Valid() && Ready(e, entities)
      modifies this`jobs
      ensures Valid()
      ensures var j := entities[e].queue[0];
              jobs == old(jobs)[j := old(jobs[j]).(credits := Least(old(jobs[j].credits), limit))] &&
              (fits <==> count + jobs[j].credits <= limit)
    {
      hide InOrder;
      hide DepsOk;
      hide TreesOk;
      hide KillOk;
      hide Charge;
      hide Load;
      var j := entities[e].queue[0];
      if jobs[j].credits > limit {
        var y := jobs[j].(credits := limit);
        CutDown(jobs, pending, count, limit, paused, bad, guilty, j, y);
        WaitingStays(rqs, entities, jobs, jobs[j := y], ext, ext);
        KillMove(jobs, ext, j, y);
        jobs := jobs[j := y];
      }
      fits := limit - count >= jobs[j].credits;
    }

    /** `e` comes before every other ready entity. */
    ghost predicate First(e: EntityId)
      reads this
    {
      Ready(e, entities) && entities[e].queued &&
      forall d: EntityId | Ready(d, entities) && entities[d].queued ::
        entities[e].prio < entities[d].prio ||
        (entities[e].prio == entities[d].prio && entities[e].key <= entities[d].key)
    }

    /** The first ready entity of a run queue. */
    method FirstReady(p: nat) returns (found: bool, e: EntityId)
      requires Valid() && p < |rqs|
      ensures found ==> Ready(e, entities) && entities[e].queued && entities[e].prio == p
      ensures found ==>
                forall d: EntityId | Ready(d, entities) && entities[d].queued && entities[d].prio == p ::
                  entities[e].key <= entities[d].key
      ensures !found ==> forall d: EntityId | Ready(d, entities) && entities[d].queued :: entities[d].prio != p
    {
      hide InOrder;
      hide DepsOk;
      hide Executing;
      hide KillOk;
      var rq, i := rqs[p], 0;
      found, e := false, 0;
      while i < |rq| && !found
        invariant 0 <= i <= |rq|
        invariant if found then i > 0 && e == rq[i - 1] && Ready(e, entities)
                  else forall k | 0 <= k < i :: !Ready(rq[k], entities)
        invariant forall k | 0 <= k < i - 1 :: !Ready(rq[k], entities)
      {
        e := rq[i];
        found := Ready(e, entities);
        i := i + 1;
      }
      forall d: EntityId | Ready(d, entities) && entities[d].queued && entities[d].prio == p
        ensures found && entities[e].key <= entities[d].key
      {
        assert Listed(rqs[p], d);
        var k :| 0 <= k < |rq| && rq[k] == d;
        assert k >= i - 1;
      }
    }

    /** The loop of `drm_sched_select_entity` over the run queues, the highest priority first. */
    method FindFirst() returns (found: bool, e: EntityId)
      requires Valid()
      ensures found ==> First(e)
      ensures !found ==> forall d: EntityId | Ready(d, entities) :: !entities[d].queued
    {
      var p := 0;
      found, e := false, 0;
      while p < |rqs| && !found
        invariant 0 <= p <= |rqs|
        invariant if found then First(e)
                  else forall d: EntityId | Ready(d, entities) && entities[d].queued :: entities[d].prio >= p
      {
        found, e := FirstReady(p);
        p := p + 1;
      }
    }

    /**
      `drm_sched_select_entity` with the FIFO policy: the oldest ready entity of the highest priority that
      has one. If that one's job does not fit, nothing is chosen in its place.
     */
    method SelectEntity() returns (found: bool, short: bool, e: EntityId)
      requires Valid()
      modifies this`jobs
      ensures Valid() && !(found && short)
      ensures found || short ==>
                First(e) && !entities[e].stopped && entities[e].queue[0] < |old(jobs)| &&
                var j := entities[e].queue[0];
                old(jobs[j].stage) == Queued && old(jobs[j].entity) == e &&
                jobs == old(jobs)[j := old(jobs[j]).(credits := Least(old(jobs[j].credits), limit))] &&
                (found <==> count + jobs[j].credits <= limit)
      ensures !found && !short ==> jobs == old(jobs) && forall d: EntityId | Ready(d, entities) :: !entities[d].queued
    {
      var ready;
      ready, e := FindFirst();
      found, short := false, false;
      if ready {
        found := CanQueue(e);
        short := !found;
      }
    }

    // ---------- Running ----------

    /** `drm_sched_rq_update_fifo_locked` */
    method UpdateFifo(e: EntityId, ts: int)
      requires TreeShape(rqs, entities) && e < |entities| && !entities[e].stopped
      modifies this`rqs, this`entities
      ensures TreeShape(rqs, entities) && entities == old(entities)[e := old(entities[e]).(queued := true, key := ts)]
    {
      var p := entities[e].prio;
      var rq := Without(rqs[p], e);
      forall k | 0 <= k < |rq| ensures rq[k] < |entities| { assert rq[k] in rq; assert rq[k] in rqs[p]; }
      var i := 0;
      while i < |rq| && entities[rq[i]].key <= ts
        invariant 0 <= i <= |rq| && forall k | 0 <= k < i :: entities[rq[k]].key <= ts
      {
        i := i + 1;
      }
      var x := entities[e].(queued := true, key := ts);
      TreeUpdated(rqs, entities, e, x, i);
      rqs := rqs[p := Place(rq, e, i)];
      entities := entities[e := x];
    }

    /** The end of `drm_sched_entity_pop_job`: the first job leaves the queue of `e`, which moves in its tree. */
    method Dequeue(e: EntityId, y: Job)
      requires Waiting(rqs, entities, jobs, ext) && e < |entities| && entities[e].queue != []
      requires jobs[entities[e].queue[0]].finished.None? && !jobs[entities[e].queue[0]].scheduled
      requires y.stage != Queued && y.entity == e && y.submit == jobs[entities[e].queue[0]].submit
      requires if y.ran then y.after == jobs[entities[e].queue[0]].after && !entities[e].stopped
               else entities[e].stopped && Linked(y.after, entities[e].queue[0], entities[e], e, jobs)
      modifies this`rqs, this`entities, this`jobs
      ensures Waiting(rqs, entities, jobs, ext) && jobs == old(jobs)[old(entities[e].queue[0]) := y]
      ensures |entities| == |old(entities)| && entities == old(entities)[e := entities[e]]
      ensures entities[e] == old(entities[e]).(queue := old(entities[e].queue)[1..], key := entities[e].key,
                                               waiting := if y.ran then None else old(entities[e].waiting),
                                               last := if y.ran then Some(old(entities[e].queue[0]))
                                               else old(entities[e].last))
    {
      hide InOrder;
      var j := entities[e].queue[0];
      var x := entities[e].(queue := entities[e].queue[1..]);
      if y.ran {
        x := x.(waiting := None, last := Some(j));
        OrderLaunched(entities, jobs, e, x, y);
      } else {
        OrderCondemned(entities, jobs, e, x, y);
      }
      Popped(entities, jobs, ext, e, x, y);
      PoppedQueues(entities, jobs, e, x, y);
      TreeSame(rqs, entities, e, x);
      KeysButOne(entities, jobs, e, x, j, y);
      jobs := jobs[j := y];
      entities := entities[e := x];
      if x.queue != [] && !x.stopped {
        ghost var es := entities;
        UpdateFifo(e, jobs[x.queue[0]].submit);
        KeyOnly(es, jobs, ext, e, entities[e]);
        OrderStays(es, jobs, entities, jobs);
      }
    }

    /** The first job of `e` goes to the hardware, which has not answered yet. */
    method Launch(e: EntityId) returns (j: JobId)
      requires Valid() && !paused && e < |entities| && entities[e].queue != [] && !entities[e].stopped &&
               count + jobs[entities[e].queue[0]].credits <= limit
      modifies this`jobs, this`entities, this`rqs, this`pending, this`count
      ensures Valid() && j == old(entities[e].queue[0]) && pending == old(pending) + [j] && j < |jobs|
      ensures jobs ==
                old(jobs)[j := old(jobs[j]).(stage := Pending, hw := Running(true), scheduled := true, ran := true)]
      ensures |entities| == |old(entities)| && entities == old(entities)[e := entities[e]]
      ensures entities[e] == old(entities[e]).(queue := old(entities[e].queue)[1..], key := entities[e].key,
                                               waiting := None, last := Some(j))
      ensures count == old(count) + old(jobs[j].credits)
    {
      j := entities[e].queue[0];
      var x := jobs[j];
      var y := x.(stage := Pending, hw := Running(true), scheduled := true, ran := true);
      Started(jobs, pending, count, limit, bad, guilty, j, y);
      KillMove(jobs, ext, j, y);
      Dequeue(e, y);
      count := count + x.credits;
      pending := pending + [j];
    }

    /** The rest of `drm_sched_run_job_work`: the job is launched, and done with if the hardware does not run it. */
    method Execute(e: EntityId, answer: Hardware, error: int) returns (j: JobId)
      requires Valid() && !paused && e < |entities| && entities[e].queue != [] && !entities[e].stopped &&
               count + jobs[entities[e].queue[0]].credits <= limit
      modifies this`jobs, this`entities, this`rqs, this`pending, this`count
      ensures Valid() && j == old(entities[e].queue[0]) && pending == old(pending) + [j]
      ensures j < |old(jobs)| && jobs == old(jobs)[j := Executed(old(jobs)[j], answer, error)]
      ensures |entities| == |old(entities)| && entities == old(entities)[e := entities[e]]
      ensures entities[e].queue == old(entities[e].queue)[1..] && entities[e].last == Some(j)
      ensures count == old(count) + Cost(jobs[j])
    {
      assert entities[e].queue[0] < |jobs| && jobs[entities[e].queue[0]].finished.None?;
      hide Waiting;
      hide KillOk;
      hide Executing;
      j := Launch(e);
      if !answer.Running? { JobDone(j, error, answer); }
    }

    /** What becomes of a job that is run: it is on the hardware, or done with an error. */
    function Executed(x: Job, answer: Hardware, error: int): Job {
      var y := x.(stage := Pending, scheduled := true, ran := true);
      if answer.Running? then y.(hw := Running(true)) else y.(hw := answer, finished := Some(error))
    }

    /** The job at the head of the first entity's queue may go to the hardware. */
    ghost predicate MayRun(j: JobId, extra: Option<Fence>)
      reads this
    {
      j < |jobs| && jobs[j].stage == Queued && First(jobs[j].entity) && entities[jobs[j].entity].queue[0] == j &&
      count + Least(jobs[j].credits, limit) <= limit &&
      forall f | f in jobs[j].deps || extra == Some(f) :: Harmless(f, jobs[j].entity, jobs, ext)
    }

    /** The first entity has to wait, for credits or for a dependency of its first job. */
    ghost predicate HeldBack(e: EntityId, extra: Option<Fence>)
      reads this
    {
      First(e) && entities[e].queue[0] < |jobs| &&
      var j := jobs[entities[e].queue[0]];
      count + Least(j.credits, limit) > limit ||
      exists f | f in j.deps || extra == Some(f) :: Blocks(f, e, jobs, ext)
    }

    /** No job can run: the first entity is held back, or there is none. */
    ghost predicate NothingToRun(extra: Option<Fence>)
      reads this
    {
      (forall d: EntityId | Ready(d, entities) :: entities[d].stopped) || exists e :: HeldBack(e, extra)
    }

    /** The part of `drm_sched_run_job_work` that looks for a job. */
    method FindJob(extra: Option<Fence>) returns (found: bool, e: EntityId)
      requires Valid()
      modifies this`jobs, this`entities
      ensures Valid() && |jobs| == |old(jobs)| && |entities| == |old(entities)|
      ensures forall d | 0 <= d < |entities| :: entities[d] == old(entities[d]).(waiting := entities[d].waiting)
      ensures forall j | 0 <= j < |jobs| ::
                jobs[j] == old(jobs[j]).(credits := jobs[j].credits, next := jobs[j].next) &&
                jobs[j].credits in {old(jobs[j].credits), Least(old(jobs[j].credits), limit)}
      ensures !found ==> old(NothingToRun(extra))
      ensures found ==>
                e < |entities| && entities[e].queue != [] && !entities[e].stopped &&
                var j := entities[e].queue[0];
                old(MayRun(j, extra)) && jobs == old(jobs)[j := jobs[j]] &&
                jobs[j].credits == Least(old(jobs[j].credits), limit) && entities == old(entities)[e := entities[e]]
    {
      hide QueuesOk;
      hide Harmless;
      hide Blocks;
      hide TreeShape;
      hide InOrder;
      hide KillOk;
      hide Executing;
      hide DepsOk;
      var short;
      found, short, e := SelectEntity();
      ghost var js := jobs;
      HarmlessBefore(e, old(jobs), js, ext);
      if found {
        var blocked := PassDependencies(e, extra);
        found := !blocked;
        assert blocked ==> old(HeldBack(e, extra));
      } else if short {
        assert old(HeldBack(e, extra));
      }
    }

    /**
      `drm_sched_run_job_work`: a job leaves its queue for the hardware only if its entity comes first, its
      credits fit, and each of its dependencies has signalled, is a fence of its own entity, or belongs to
      a job of this scheduler that has been scheduled. If none does, the first entity had to wait, or there was none.
      The dependency the driver adds and what the hardware answers are parameters.
     */
    method RunWorker(extra: Option<Fence>, answer: Hardware, error: int) returns (ran: Option<JobId>)
      requires Valid() && !paused
      modifies this`jobs, this`entities, this`rqs, this`pending, this`count
      ensures Valid() && |jobs| == |old(jobs)| && |entities| == |old(entities)|
      ensures ran.Some? ==>
                var j := ran.value;
                old(MayRun(j, extra)) && pending == old(pending) + [j] && jobs == old(jobs)[j := jobs[j]] &&
                jobs[j] == Executed(old(jobs)[j].(credits := Least(old(jobs)[j].credits, limit), next := jobs[j].next),
                                    answer, error) &&
                count == old(count) + Cost(jobs[j]) &&
                var e := jobs[j].entity;
                entities == old(entities)[e := entities[e]] && entities[e].last == Some(j) &&
                entities[e].queue == old(entities[e].queue)[1..]
      ensures ran.None? ==>
                old(NothingToRun(extra)) && pending == old(pending) && count == old(count) && rqs == old(rqs) &&
                (forall d | 0 <= d < |entities| :: entities[d] == old(entities[d]).(waiting := entities[d].waiting)) &&
                (forall j | 0 <= j < |jobs| ::
                   jobs[j] == old(jobs[j]).(credits := jobs[j].credits, next := jobs[j].next))
    {
      hide Executing;
      hide TreesOk;
      hide InOrder;
      hide KillOk;
      hide DepsOk;
      var found, e := FindJob(extra);
      if !found { return None; }
      var j := Execute(e, answer, error);
      return Some(j);
    }

    // ---------- Submitting ----------

    /** `drm_sched_job_arm` and `drm_sched_entity_push_job` under their common lock */
    method Push(e: EntityId, credits: nat, deps: seq<Fence>, now: int) returns (j: JobId)
      requires Valid() && e < |entities| && credits > 0
      modifies this`jobs, this`entities, this`rqs
      ensures Valid() && j == |old(jobs)|
      ensures jobs == old(jobs) + [Job(e, credits, now, deps, 0, Queued, Absent, false, None, 0, None, false)]
      ensures entities == old(entities)[e := Extended(old(entities[e]), j, now)]
    {
      hide Waiting;
      hide KillOk;
      hide Executing;
      j := |jobs|;
      var y := Job(e, credits, now, deps, 0, Queued, Absent, false, None, 0, None, false);
      ExecutingMore(jobs, pending, count, limit, paused, bad, guilty, y);
      KillMore(jobs, ext, y);
      Enqueue(e, y);
    }

    /** An entity with one more job, which puts it into its tree under the time `ts` if it is the first. */
    function Extended(x: Entity, j: JobId, ts: int): Entity {
      var y := x.(queue := x.queue + [j]);
      if x.queue == [] && !x.stopped then y.(queued := true, key := ts) else y
    }

    /** The new job `y` at the end of the queue of `e`, which goes on its run queue if it had none. */
    method Enqueue(e: EntityId, y: Job)
      requires Waiting(rqs, entities, jobs, ext) && e < |entities| && y.stage == Queued && y.entity == e && y.next == 0
      requires !y.ran
      modifies this`jobs, this`entities, this`rqs
      ensures Waiting(rqs, entities, jobs, ext) && jobs == old(jobs) + [y]
      ensures entities == old(entities)[e := Extended(old(entities[e]), |old(jobs)|, y.submit)]
    {
      hide InOrder;
      var x := entities[e].(queue := entities[e].queue + [|jobs|]);
      OrderPushed(entities, jobs, e, x, y);
      Pushed(entities, jobs, ext, e, x, y);
      TreeSame(rqs, entities, e, x);
      var first := entities[e].queue == [];
      jobs := jobs + [y];
      entities := entities[e := x];
      if first && !x.stopped {
        ghost var es := entities;
        UpdateFifo(e, y.submit);
        KeyOnly(es, jobs, ext, e, entities[e]);
        OrderStays(es, jobs, entities, jobs);
      }
    }

    /** A fence from outside signals. */
    method ExternalSignals(id: nat)
      requires Valid()
      modifies this`ext
      ensures Valid() && ext == old(ext) + {id}
    {
      WaitingStays(rqs, entities, jobs, jobs, ext, ext + {id});
      forall k | 0 <= k < |jobs| && jobs[k].stage == Dying ensures Progress(jobs[k], jobs, ext + {id}) {
        ProgressStays(jobs[k], jobs, jobs, ext, ext + {id});
      }
      ext := ext + {id};
    }

    // ---------- Killing ----------

    /** The entity is stopped and taken off its run queue. */
    method StopEntity(e: EntityId)
      requires Valid() && e < |entities|
      modifies this`entities, this`rqs
      ensures Valid() && entities == old(entities)[e := old(entities[e]).(stopped := true, queued := false)]
    {
      var x := entities[e].(stopped := true, queued := false);
      OrderStays(entities, jobs, entities[e := x], jobs);
      TreeRemoved(rqs, entities, e, x);
      KeyOnly(entities, jobs, ext, e, x);
      rqs := rqs[x.prio := Without(rqs[x.prio], e)];
      entities := entities[e := x];
    }

    /** One job of the loop of `drm_sched_entity_kill`: it will be killed after `prev`. */
    method Condemn(e: EntityId, prev: Option<JobId>) returns (j: JobId)
      requires Valid() && e < |entities| && entities[e].queue != [] && entities[e].stopped
      requires Linked(prev, entities[e].queue[0], entities[e], e, jobs)
      modifies this`jobs, this`entities, this`rqs
      ensures Valid() && j == old(entities[e].queue[0]) && j < |jobs| == |old(jobs)|
      ensures |entities| == |old(entities)| && entities == old(entities)[e := entities[e]]
      ensures entities[e] == old(entities[e]).(queue := old(entities[e].queue)[1..], key := entities[e].key)
      ensures jobs == old(jobs)[j := old(jobs[j]).(stage := Dying, next := 0, after := prev)]
      ensures entities[e].queue != [] ==> Linked(Some(j), entities[e].queue[0], entities[e], e, jobs)
    {
      hide InOrder;
      NextInOrder(entities, jobs, e);
      j := entities[e].queue[0];
      var y := jobs[j].(stage := Dying, next := 0, after := prev);
      ExecutingSame(jobs, pending, count, limit, paused, bad, guilty, j, y);
      Condemned(jobs, ext, j, y);
      Dequeue(e, y);
    }

    /**
      `drm_sched_entity_kill`: the queued jobs are chained up in the order of the queue, behind the newest job that
      the entity has on the hardware, or had.
     */
    method Kill(e: EntityId)
      requires Valid() && e < |entities|
      modifies this`jobs, this`entities, this`rqs
      ensures Valid() && |entities| == |old(entities)| && |jobs| == |old(jobs)|
      ensures entities == old(entities)[e := old(entities[e]).(queue := [], stopped := true, queued := false,
                                                               key := entities[e].key)]
      ensures Chained(jobs, old(entities[e].queue), |old(entities[e].queue)|, Newest(old(jobs), e))
      ensures AllCondemned(old(jobs), jobs, old(entities[e].queue))
    {
      hide Waiting;
      hide KillOk;
      hide Executing;
      assert entities[e].last == Newest(jobs, e) by { LastIsNewest(e); }
      StopEntity(e);
      CondemnAll(e);
    }

    lemma LastIsNewest(e: EntityId)
      requires Valid() && e < |entities|
      ensures entities[e].last == Newest(jobs, e)
    {
      NewestUnique(entities, jobs, e);
    }

    /** The loop of `drm_sched_entity_kill`. */
    method CondemnAll(e: EntityId)
      requires Valid() && e < |entities| && entities[e].stopped
      modifies this`jobs, this`entities, this`rqs
      ensures Valid() && |entities| == |old(entities)| && |jobs| == |old(jobs)|
      ensures entities == old(entities)[e := old(entities[e]).(queue := [], key := entities[e].key)]
      ensures Chained(jobs, old(entities[e].queue), |old(entities[e].queue)|, old(entities[e].last))
      ensures AllCondemned(old(jobs), jobs, old(entities[e].queue))
    {
      hide InOrder;
      hide KillOk;
      hide Executing;
      hide TreesOk;
      hide DepsOk;
      hide Chained;
      hide AllCondemned;
      ghost var q, last := entities[e].queue, entities[e].last;
      var prev := entities[e].last;
      ghost var i := 0;
      NoneCondemned(jobs, q, last);
      assert q[0..] == q && (q != [] ==> Linked(prev, q[0], entities[e], e, jobs));
      while entities[e].queue != []
        invariant 0 <= i <= |q| && Valid() && |entities| == |old(entities)| && |jobs| == |old(jobs)|
        invariant entities == old(entities)[e := old(entities[e]).(queue := q[i..], key := entities[e].key)]
        invariant Chained(jobs, q, i, last)
        invariant prev == if i == 0 then last else Some(q[i - 1])
        invariant entities[e].queue != [] ==> Linked(prev, entities[e].queue[0], entities[e], e, jobs)
        invariant AllCondemned(old(jobs), jobs, q[..i])
        decreases |q| - i
      {
        ghost var js := jobs;
        var j := Condemn(e, prev);
        ChainedMore(js, q, i, last, jobs);
        CondemnedMore(old(jobs), js, jobs, q, i);
        prev := Some(j);
        i := i + 1;
      }
      assert i == |q| && q[..i] == q;
    }

    /** `drm_sched_entity_kill_jobs_cb`: go on to the next dependency that has not signalled. */
    method KillStep(j: JobId)
      requires Valid() && j < |jobs| && jobs[j].stage == Dying && AfterDone(jobs[j], jobs)
      modifies this`jobs
      ensures Valid() && |jobs| == |old(jobs)| && jobs == old(jobs)[j := old(jobs[j]).(next := jobs[j].next)]
      ensures jobs[j].next == |jobs[j].deps| || !Signalled(Final(jobs[j].deps[jobs[j].next]), jobs, ext)
    {
      while jobs[j].next < |jobs[j].deps| && Signalled(Final(jobs[j].deps[jobs[j].next]), jobs, ext)
        invariant Valid() && |jobs| == |old(jobs)| && jobs[j].stage == Dying && AfterDone(jobs[j], jobs)
        invariant jobs == old(jobs)[j := old(jobs[j]).(next := jobs[j].next)]
        decreases |jobs[j].deps| - jobs[j].next
      {
        KillPass(j);
      }
    }

    /** One dependency that has signalled. */
    method KillPass(j: JobId)
      requires Valid() && j < |jobs| && jobs[j].stage == Dying && AfterDone(jobs[j], jobs)
      requires jobs[j].next < |jobs[j].deps| && Signalled(Final(jobs[j].deps[jobs[j].next]), jobs, ext)
      modifies this`jobs
      ensures Valid() && jobs == old(jobs)[j := old(jobs[j]).(next := old(jobs[j].next) + 1)] &&
              AfterDone(jobs[j], jobs)
    {
      hide Waiting;
      hide Charge;
      hide Load;
      var y := jobs[j].(next := jobs[j].next + 1);
      ExecutingSame(jobs, pending, count, limit, paused, bad, guilty, j, y);
      DyingMoves(jobs, ext, j, y);
      MoveOn(rqs, entities, jobs, ext, j, y);
      jobs := jobs[j := y];
    }

    /**
      `drm_sched_entity_kill_jobs_work`: the fences of a killed job signal with -ESRCH, after those of the
      job before it and after all its dependencies, and the job is freed.
     */
    method KillWork(j: JobId)
      requires Valid() && j < |jobs| && jobs[j].stage == Dying && AfterDone(jobs[j], jobs) &&
               jobs[j].next == |jobs[j].deps|
      modifies this`jobs
      ensures Valid() && old(jobs[j].frees) == 0
      ensures jobs == old(jobs)[j := old(jobs[j]).(scheduled := true, finished := Some(-3), stage := Freed, frees := 1)]
      ensures AfterDone(jobs[j], jobs)
      ensures forall f | f in jobs[j].deps ::
                if f.External? then f.id in ext else f.job < |jobs| && jobs[f.job].finished.Some?
    {
      assert jobs[j].hw == Absent;  // so the warning about a parent fence stays silent
      var y := jobs[j].(scheduled := true, finished := Some(-3), stage := Freed, frees := jobs[j].frees + 1);
      ExecutingSame(jobs, pending, count, limit, paused, bad, guilty, j, y);
      DyingMoves(jobs, ext, j, y);
      MoveOn(rqs, entities, jobs, ext, j, y);
      ProgressStays(jobs[j], jobs, jobs[j := y], ext, ext);
      ghost var x := jobs[j];
      jobs := jobs[j := y];
      forall f | f in y.deps ensures Signalled(Final(f), jobs, ext) {
        var i :| 0 <= i < |x.deps| && x.deps[i] == f;
      }
    }

    // ---------- Runs ----------

    /** `drm_sched_init`, with entities of the given priorities */
    method Init(credits: nat, levels: nat, prios: seq<nat>)
      requires forall i | 0 <= i < |prios| :: prios[i] < levels
      modifies this
      ensures Valid() && !paused && jobs == [] && count == 0 && limit == credits
      ensures |entities| == |prios| && forall i | 0 <= i < |prios| ::
                entities[i] == Entity(prios[i], [], None, false, false, 0, None)
    {
      hide Waiting;
      hide DepsOk;
      limit, count, jobs, pending, paused, bad, guilty, ext := credits, 0, [], [], false, None, false, {};
      rqs := seq(levels, _ => []);
      entities := seq(|prios|, i requires 0 <= i < |prios| => Entity(prios[i], [], None, false, false, 0, None));
      EmptyWaiting(rqs, entities, levels);
    }

    /** Anything that can happen next; what is not possible in the current state does nothing. */
    method Perform(s: Step)
      requires Valid()
      modifies this
      ensures Valid()
    {
      match s {
        case Submit(e, credits, deps, now) =>
          if e < |entities| && credits > 0 { var j := Push(e, credits, deps, now); }
        case Run(extra, answer, error) =>
          if !paused { var ran := RunWorker(extra, answer, error); }
        case External(id) =>
          ExternalSignals(id);
        case Dependency(e) =>
          if e < |entities| && entities[e].waiting.Some? && Signalled(entities[e].waiting.value, jobs, ext) {
            DependencySignals(e);
          }
        case Complete(j, result) =>
          if j < |jobs| && jobs[j].hw.Running? { HardwareSignals(j, result); }
        case Free =>
          if !paused { var freed := FreeWorker(); }
        case Timeout =>
          if !paused && bad.None? { TimeoutBegin(); }
        case TimeoutDone =>
          if bad.Some? { var freed := TimeoutEnd(); }
        case Stop(reinsert) =>
          if !paused && (reinsert ==> bad.Some? && jobs[bad.value].stage == Suspect) { Stop(reinsert); }
        case Resubmit(answers) =>
          if paused { Resubmit(answers); }
        case Start(errno) =>
          if paused { Start(errno); }
        case Kill(e) =>
          if e < |entities| { Kill(e); }
        case KillNext(j) =>
          if j < |jobs| && jobs[j].stage == Dying && AfterDone(jobs[j], jobs) {
            KillStep(j);
            if jobs[j].next == |jobs[j].deps| { KillWork(j); }
          }
      }
    }

    /** Every run of a new scheduler stays in states that satisfy all of the above. */
    method RunAll(credits: nat, levels: nat, prios: seq<nat>, steps: seq<Step>)
      requires forall i | 0 <= i < |prios| :: prios[i] < levels
      modifies this
      ensures Valid()
    {
      Init(credits, levels, prios);
      var i := 0;
      while i < |steps|
        invariant 0 <= i <= |steps| && Valid()
      {
        Perform(steps[i]);
        i := i + 1;
      }
    }
  }
}
