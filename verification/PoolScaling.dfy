/** When the pool grows and shrinks, and what its counters count. */
module PoolScaling {
  import opened Basics
  import opened Sums
  import opened PoolModel
  import opened PoolSafety
  import opened PoolTheorems
  import opened PoolProgress

  // ---- growing ---------------------------------------------------------------------------

  /** A task is accepted only by the call that brought it, behind all others; and that call goes
      on to spawn a worker exactly if there were fewer workers than slots. */
  lemma AcceptingSpawnsIff(s: State, step: Step)
    requires Enabled(s, step) && Do(s, step).accepted != s.accepted
    ensures
      && step.RunProducer? && !s.shutdown && |s.queue| < s.capacity
      && Do(s, step).accepted == s.accepted + [s.producers[step.p].task]
    ensures Do(s, step).producers[step.p].stage == MustSpawn <==> s.numWorkers < s.maxSize
    ensures Do(s, step).producers[step.p].stage == Returned(0) <==> s.numWorkers >= s.maxSize
  {
    if step.RunProducer? {
      Accepted(s, step.p, step.wakee, step.late);
    }
  }

  lemma Accepted(s: State, p: nat, wakee: Option<nat>, late: bool)
    requires Enabled(s, RunProducer(p, wakee, late))
    ensures
      var t := ProducerSection(s, p, wakee, late);
      if s.shutdown || |s.queue| >= s.capacity then t.accepted == s.accepted
      else
        && t.accepted == s.accepted + [s.producers[p].task]
        && t.producers[p].stage == if s.numWorkers < s.maxSize then MustSpawn else Returned(0)
  {
  }

  /** Such a call leaves that stage only by asking for a slot. */
  lemma StaysUntilReserve(s: State, step: Step, p: nat)
    requires Enabled(s, step) && p < |s.producers| && s.producers[p].stage == MustSpawn && step != ReserveExtra(p)
    ensures p < |Do(s, step).producers| && Do(s, step).producers[p].stage == MustSpawn
  {
  }

  lemma {:induction false} SpawnsBeforeReturn(s: State, steps: seq<Step>, t: State, p: nat)
    requires Run(s, steps, t) && p < |s.producers| && s.producers[p].stage == MustSpawn
    ensures p < |t.producers|
    ensures t.producers[p].stage != MustSpawn ==> ReserveExtra(p) in steps
    decreases |steps|
  {
    if steps == [] {
    } else if steps[0] == ReserveExtra(p) {
      RunKeepsProducers(s, steps, t);
    } else {
      StaysUntilReserve(s, steps[0], p);
      SpawnsBeforeReturn(Do(s, steps[0]), steps[1..], t, p);
    }
  }

  lemma {:induction false} RunKeepsProducers(s: State, steps: seq<Step>, t: State)
    requires Run(s, steps, t)
    ensures |s.producers| <= |t.producers|
    decreases |steps|
  {
    if steps != [] {
      RunKeepsProducers(Do(s, steps[0]), steps[1..], t);
    }
  }

  /** Asking for a slot gets one exactly if there is one: then a new extra worker holds the first
      free slot and counts, otherwise nothing changes but that the call returns. */
  lemma ReserveTakesSlot(s: State, p: nat)
    requires SlotsOk(s) && Enabled(s, ReserveExtra(p))
    ensures
      var t := Do(s, ReserveExtra(p));
      if s.numWorkers < s.maxSize then
        && |t.workers| == |s.workers| + 1 && t.producers[p].stage == Creating(|s.workers|)
        && t.workers[|s.workers|].phase == Reserved && !t.workers[|s.workers|].core
        && t.numWorkers == s.numWorkers + 1
        && t.workers[|s.workers|].slot < s.maxSize && !s.active[t.workers[|s.workers|].slot]
      else
        t == s.(producers := s.producers[p := s.producers[p].(stage := Returned(0))])
  {
    SlotFreeIff(s);
  }

  lemma SlotFreeIff(s: State)
    requires SlotsOk(s)
    ensures FirstFree(s.active) < |s.active| <==> s.numWorkers < s.maxSize
  {
    AtMostLength(s.active);
  }

  lemma ThreadIsReady(s: State, p: nat)
    requires Enabled(s, CreateExtra(p, true))
    ensures
      var t, w := Do(s, CreateExtra(p, true)), s.producers[p].stage.w;
      && t.producers[p].stage == Returned(0) && t.numWorkers == s.numWorkers && |t.workers| == |s.workers|
      && t.workers[w].phase == Ready && t.workers[w].core == s.workers[w].core
  {
  }

  lemma ReservedIsCreated(s: State, p: nat)
    requires SlotsOk(s) && Enabled(s, ReserveExtra(p)) && s.numWorkers < s.maxSize
    ensures
      var u := Do(s, ReserveExtra(p));
      && Enabled(u, CreateExtra(p, true))
      && var v := Do(u, CreateExtra(p, true));
      && v.producers[p].stage == Returned(0)
      && |v.workers| == |s.workers| + 1 && v.numWorkers == s.numWorkers + 1
      && v.workers[|s.workers|].phase == Ready && !v.workers[|s.workers|].core
  {
    var u := Do(s, ReserveExtra(p));
    ReserveTakesSlot(s, p);
    assert Enabled(u, CreateExtra(p, true));
    ThreadIsReady(u, p);
  }

  /** So a call that is alone in spawning ends with one more worker: from the step that accepts
      its task, through the slot, to the new thread. */
  lemma GrowsByOne(s: State, p: nat, wakee: Option<nat>, late: bool)
    requires Inv(s) && Enabled(s, RunProducer(p, wakee, late))
    requires !s.shutdown && |s.queue| < s.capacity && s.numWorkers < s.maxSize
    ensures
      var t := Do(s, RunProducer(p, wakee, late));
      && Enabled(t, ReserveExtra(p))
      && var u := Do(t, ReserveExtra(p));
      && Enabled(u, CreateExtra(p, true))
      && var v := Do(u, CreateExtra(p, true));
      && v.producers[p].stage == Returned(0)
      && |v.workers| == |s.workers| + 1 && v.numWorkers == s.numWorkers + 1
      && v.workers[|s.workers|].phase == Ready && !v.workers[|s.workers|].core
  {
    var t := Do(s, RunProducer(p, wakee, late));
    SlotsAfter(s, RunProducer(p, wakee, late));
    Accepted(s, p, wakee, late);
    SectionKeeps(s, p, wakee, late);
    ReservedIsCreated(t, p);
  }

  lemma SlotsAfter(s: State, step: Step)
    requires Inv(s) && Enabled(s, step)
    ensures SlotsOk(Do(s, step))
  {
    StepInv(s, step);
  }

  lemma SectionKeeps(s: State, p: nat, wakee: Option<nat>, late: bool)
    requires Enabled(s, RunProducer(p, wakee, late))
    ensures
      var t := ProducerSection(s, p, wakee, late);
      && t.numWorkers == s.numWorkers && t.maxSize == s.maxSize && |t.workers| == |s.workers|
      && |t.producers| == |s.producers| && t.active == s.active && MutexFree(t)
  {
  }

  // ---- shrinking -------------------------------------------------------------------------

  /** At the mutex a worker takes the oldest task if there is one; else it leaves exactly at a
      shutdown or, an extra worker, after its time is over; else it goes to sleep. */
  lemma WorkerTurnMeans(s: State, w: nat, wakee: Option<nat>)
    requires Enabled(s, RunWorker(w, wakee))
    ensures
      var t, worker := Do(s, RunWorker(w, wakee)), s.workers[w];
      var leaves := s.queue == [] && (s.shutdown || (worker.phase == Woken(true) && !worker.core));
      && w < |t.workers|
      && (s.queue != [] <==> t.workers[w].phase.Busy?)
      && (s.queue != [] ==> t.workers[w].phase.task == s.queue[0] && t.queue == s.queue[1..])
      && (t.workers[w].phase == Exited <==> leaves)
      && (leaves ==> t.numWorkers == s.numWorkers - 1 && !t.active[worker.slot])
      && (!leaves ==> t.numWorkers == s.numWorkers && t.active == s.active)
  {
  }

  /** No other step makes a worker leave, but for one whose thread cannot be created. */
  lemma LeavesOnlySo(s: State, step: Step, w: nat)
    requires Enabled(s, step) && w < |s.workers| && s.workers[w].phase != Exited
    ensures w < |Do(s, step).workers|
    ensures Do(s, step).workers[w].phase == Exited ==>
      || (step.RunWorker? && step.w == w)
      || (step == CreateCore(false) && w == |s.workers| - 1)
      || (step.CreateExtra? && !step.ok && s.producers[step.p].stage.w == w)
  {
  }

  // ---- counting --------------------------------------------------------------------------

  function IsFinish(step: Step): nat {
    One(step.Finish?)
  }

  function IsFailure(step: Step): nat {
    One(step.Finish? && step.failed)
  }

  /** The statistics count the tasks that are finished and those of them that failed. */
  lemma {:induction false} RunCounts(s: State, steps: seq<Step>, t: State)
    requires Run(s, steps, t)
    ensures |t.done| == |s.done| + Sum(steps, IsFinish)
    ensures t.errors == s.errors + Sum(steps, IsFailure)
    decreases |steps|
  {
    if steps != [] {
      StepCounts(s, steps[0]);
      RunCounts(Do(s, steps[0]), steps[1..], t);
    }
  }

  lemma StepCounts(s: State, step: Step)
    requires Enabled(s, step)
    ensures |Do(s, step).done| == |s.done| + IsFinish(step) && Do(s, step).errors == s.errors + IsFailure(step)
  {
  }
}
