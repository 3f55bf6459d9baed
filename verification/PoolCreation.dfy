/** Creating the pool: when it opens, and when giving up loses a wake-up. */
module PoolCreation {
  import opened Basics
  import opened PoolModel
  import opened PoolSafety
  import opened PoolTheorems

  /** Some run leads from s to t. */
  ghost predicate Leads(s: State, t: State) {
    exists steps :: Run(s, steps, t)
  }

  lemma LeadsNowhere(s: State)
    ensures Leads(s, s)
  {
    assert Run(s, [], s);
  }

  lemma LeadsFirst(s: State, step: Step, t: State)
    requires Enabled(s, step) && Leads(Do(s, step), t)
    ensures Leads(s, t)
  {
    var rest :| Run(Do(s, step), rest, t);
    assert ([step] + rest)[1..] == rest;
    assert Run(s, [step] + rest, t);
  }

  lemma {:induction false} RunLeads(s: State, steps: seq<Step>, t: State, u: State)
    requires Run(s, steps, t) && Leads(t, u)
    ensures Leads(s, u)
    decreases |steps|
  {
    if steps != [] {
      RunLeads(Do(s, steps[0]), steps[1..], t, u);
      LeadsFirst(s, steps[0], u);
    }
  }

  lemma LeadsTrans(s: State, t: State, u: State)
    requires Leads(s, t) && Leads(t, u)
    ensures Leads(s, u)
  {
    var steps :| Run(s, steps, t);
    RunLeads(s, steps, t, u);
  }

  lemma LeadsThen(s: State, t: State, step: Step)
    requires Leads(s, t) && Enabled(t, step)
    ensures Leads(s, Do(t, step))
  {
    LeadsNowhere(Do(t, step));
    LeadsFirst(t, step, Do(t, step));
    LeadsTrans(s, t, Do(t, step));
  }

  /** Sizes do not change. */
  lemma {:induction false} RunSizes(s: State, steps: seq<Step>, t: State)
    requires Run(s, steps, t)
    ensures t.capacity == s.capacity && t.coreSize == s.coreSize && t.maxSize == s.maxSize
    decreases |steps|
  {
    if steps != [] {
      RunSizes(Do(s, steps[0]), steps[1..], t);
    }
  }

  lemma LeadsKeeps(s: State, t: State)
    requires Inv(s) && Leads(s, t)
    ensures Inv(t) && t.capacity == s.capacity && t.coreSize == s.coreSize && t.maxSize == s.maxSize
  {
    var steps :| Run(s, steps, t);
    RunInv(s, steps, t);
    RunSizes(s, steps, t);
  }

  // ---- opening ---------------------------------------------------------------------------

  /** The state after creating n core workers that have not run yet. */
  function After(capacity: nat, coreSize: nat, maxSize: nat, n: nat): State {
    Init(capacity, coreSize, maxSize).(
      active := seq(maxSize, i => i < n), numWorkers := n,
      workers := seq(n, i requires 0 <= i < n => Worker(i, true, Ready)))
  }

  lemma AfterNone(capacity: nat, coreSize: nat, maxSize: nat)
    ensures After(capacity, coreSize, maxSize, 0) == Init(capacity, coreSize, maxSize)
  {
    var s, init := After(capacity, coreSize, maxSize, 0), Init(capacity, coreSize, maxSize);
    assert s.active == init.active && s.workers == init.workers;
  }

  /** The next core worker gets the next slot, if there is one. */
  lemma NextSlot(capacity: nat, coreSize: nat, maxSize: nat, n: nat)
    requires n < coreSize && n <= maxSize
    ensures
      var s := After(capacity, coreSize, maxSize, n);
      Enabled(s, ReserveCore) && FirstFree(s.active) == n
  {
    var s := After(capacity, coreSize, maxSize, n);
    assert n < maxSize ==> !s.active[n];
  }

  lemma ReservedNext(capacity: nat, coreSize: nat, maxSize: nat, n: nat)
    requires n < coreSize && n < maxSize
    ensures
      var s := After(capacity, coreSize, maxSize, n);
      && Enabled(s, ReserveCore) && Enabled(Do(s, ReserveCore), CreateCore(true))
      && Enabled(Do(s, ReserveCore), CreateCore(false)) && Do(s, ReserveCore) == Reserve(s, true)
  {
    NextSlot(capacity, coreSize, maxSize, n);
  }

  lemma AfterNext(capacity: nat, coreSize: nat, maxSize: nat, n: nat)
    requires n < coreSize && n < maxSize
    ensures
      var s := After(capacity, coreSize, maxSize, n);
      && Enabled(s, ReserveCore) && Enabled(Do(s, ReserveCore), CreateCore(true))
      && Do(Do(s, ReserveCore), CreateCore(true)) == After(capacity, coreSize, maxSize, n + 1)
  {
    NextSlot(capacity, coreSize, maxSize, n);
    ReservedNext(capacity, coreSize, maxSize, n);
    var s, t := After(capacity, coreSize, maxSize, n), After(capacity, coreSize, maxSize, n + 1);
    assert s.active[n := true] == t.active;
    assert (s.workers + [Worker(n, true, Reserved)])[n := Worker(n, true, Ready)] == t.workers;
  }

  lemma {:induction false} AfterReached(capacity: nat, coreSize: nat, maxSize: nat, n: nat)
    requires n <= coreSize && n <= maxSize
    ensures Leads(Init(capacity, coreSize, maxSize), After(capacity, coreSize, maxSize, n))
  {
    var init := Init(capacity, coreSize, maxSize);
    if n == 0 {
      AfterNone(capacity, coreSize, maxSize);
      LeadsNowhere(init);
    } else {
      var s := After(capacity, coreSize, maxSize, n - 1);
      AfterReached(capacity, coreSize, maxSize, n - 1);
      AfterNext(capacity, coreSize, maxSize, n - 1);
      LeadsThen(init, s, ReserveCore);
      LeadsThen(init, Do(s, ReserveCore), CreateCore(true));
    }
  }

  /** All core workers are there. */
  lemma AfterAll(capacity: nat, coreSize: nat, maxSize: nat)
    requires coreSize <= maxSize
    ensures
      var s := After(capacity, coreSize, maxSize, coreSize);
      Enabled(s, Open) && Leads(Init(capacity, coreSize, maxSize), Do(s, Open))
  {
    AfterReached(capacity, coreSize, maxSize, coreSize);
    LeadsThen(Init(capacity, coreSize, maxSize), After(capacity, coreSize, maxSize, coreSize), Open);
  }

  /** Some run opens the pool. */
  ghost predicate MayOpen(s: State) {
    exists t :: Leads(s, t) && t.creation == Opened
  }

  /** The pool can open exactly if there is a slot for each core worker, after the slots were
      limited in number. */
  lemma OpensIff(capacity: nat, coreSize: nat, maxSize: nat)
    requires 1 <= capacity && 1 <= coreSize
    ensures MayOpen(Init(capacity, coreSize, maxSize)) <==> coreSize <= maxSize
  {
    var init := Init(capacity, coreSize, maxSize);
    InitInv(capacity, coreSize, maxSize);
    if coreSize <= maxSize {
      AfterAll(capacity, coreSize, maxSize);
      assert Do(After(capacity, coreSize, maxSize, coreSize), Open).creation == Opened;
    } else if MayOpen(init) {
      var t :| Leads(init, t) && t.creation == Opened;
      LeadsKeeps(init, t);
    }
  }

  // ---- while the core workers are created ------------------------------------------------

  predicate OfWorkers(step: Step) {
    step.RunWorker? || step.FallAsleep? || step.WakeWorker? || step.Finish?
  }

  /** The workers that are there bring s to t, in any order. */
  ghost predicate Meanwhile(s: State, t: State) {
    exists steps :: Run(s, steps, t) && forall step <- steps :: OfWorkers(step)
  }

  /** t differs from s at most in what the workers are doing. */
  predicate SameData(s: State, t: State) {
    && t == s.(workers := t.workers) && |t.workers| == |s.workers|
    && forall w :: 0 <= w < |s.workers| ==>
         && t.workers[w].slot == s.workers[w].slot
         && (t.workers[w].phase == Reserved <==> s.workers[w].phase == Reserved)
  }

  /** Creation has not come to an end. */
  ghost predicate UnderWay(s: State) {
    Inv(s) && (s.creation == Spawning || s.creation == Failed)
  }

  lemma StepSameData(s: State, step: Step)
    requires UnderWay(s) && Enabled(s, step) && OfWorkers(step)
    ensures SameData(s, Do(s, step))
  {
    if step.Finish? {
      NoneBusy(s, step.w);
    }
  }

  lemma StepUnderWay(s: State, step: Step)
    requires UnderWay(s) && Enabled(s, step) && OfWorkers(step)
    ensures SameData(s, Do(s, step)) && UnderWay(Do(s, step))
  {
    StepSameData(s, step);
    StepInv(s, step);
  }

  lemma SameDataTrans(s: State, t: State, u: State)
    requires SameData(s, t) && SameData(t, u)
    ensures SameData(s, u)
  {
  }

  /** Until it has, the workers change none of the pool's data. */
  lemma {:induction false} RunSameData(s: State, steps: seq<Step>, t: State)
    requires UnderWay(s) && Run(s, steps, t) && forall step <- steps :: OfWorkers(step)
    ensures SameData(s, t) && UnderWay(t)
    decreases |steps|
  {
    if steps != [] {
      assert steps[0] in steps && forall step <- steps[1..] :: step in steps;
      StepUnderWay(s, steps[0]);
      RunSameData(Do(s, steps[0]), steps[1..], t);
      SameDataTrans(s, Do(s, steps[0]), t);
    }
  }

  lemma MeanwhileSame(s: State, t: State)
    requires UnderWay(s) && Meanwhile(s, t)
    ensures SameData(s, t) && UnderWay(t) && Leads(s, t)
  {
    var steps :| Run(s, steps, t) && forall step <- steps :: OfWorkers(step);
    RunSameData(s, steps, t);
  }

  lemma NothingMeanwhile(s: State)
    ensures Meanwhile(s, s)
  {
    assert Run(s, [], s);
  }

  lemma StepMeanwhile(s: State, step: Step)
    requires Enabled(s, step) && OfWorkers(step)
    ensures Meanwhile(s, Do(s, step))
  {
    assert Run(Do(s, step), [], Do(s, step));
    assert Run(s, [step], Do(s, step));
  }

  lemma MutexReleased(s: State) returns (t: State)
    requires MutexOk(s)
    ensures Meanwhile(s, t) && MutexFree(t)
  {
    if v :| 0 <= v < |s.workers| && s.workers[v].phase == Dozing {
      StepMeanwhile(s, FallAsleep(v));
      t := Do(s, FallAsleep(v));
    } else {
      NothingMeanwhile(s);
      t := s;
    }
  }

  /** s has come about from an empty pool of its sizes. */
  ghost predicate Arisen(s: State) {
    1 <= s.capacity && 1 <= s.coreSize && Leads(Init(s.capacity, s.coreSize, s.maxSize), s)
  }

  lemma ArisenInv(s: State)
    requires Arisen(s)
    ensures Inv(s)
  {
    InitInv(s.capacity, s.coreSize, s.maxSize);
    LeadsKeeps(Init(s.capacity, s.coreSize, s.maxSize), s);
  }

  lemma InitArisen(capacity: nat, coreSize: nat, maxSize: nat)
    requires 1 <= capacity && 1 <= coreSize
    ensures Arisen(Init(capacity, coreSize, maxSize)) && Begun(Init(capacity, coreSize, maxSize), 0)
  {
    LeadsNowhere(Init(capacity, coreSize, maxSize));
  }

  lemma ArisenStep(s: State, step: Step)
    requires Arisen(s) && Enabled(s, step)
    ensures Arisen(Do(s, step))
  {
    LeadsThen(Init(s.capacity, s.coreSize, s.maxSize), s, step);
  }

  lemma ArisenMeanwhile(s: State, t: State)
    requires Arisen(s) && (s.creation == Spawning || s.creation == Failed) && Meanwhile(s, t)
    ensures Arisen(t) && SameData(s, t)
  {
    ArisenInv(s);
    MeanwhileSame(s, t);
    LeadsTrans(Init(s.capacity, s.coreSize, s.maxSize), s, t);
  }

  /** Whoever holds the mutex releases it. */
  lemma MutexComes(s: State) returns (t: State)
    requires Arisen(s)
    ensures Meanwhile(s, t) && MutexFree(t)
  {
    ArisenInv(s);
    t := MutexReleased(s);
  }

  /** The first n core workers are there. */
  predicate Begun(s: State, n: nat) {
    && s.creation == Spawning && |s.workers| == n <= s.maxSize == |s.active|
    && (forall w :: 0 <= w < n ==> s.workers[w].phase != Reserved)
    && (forall i :: 0 <= i < s.maxSize ==> (s.active[i] <==> i < n))
  }

  /** And number n has its slot. */
  predicate Reserving(s: State, n: nat) {
    && s.creation == Spawning && |s.workers| == n + 1 <= s.maxSize == |s.active|
    && (forall w :: 0 <= w < n ==> s.workers[w].phase != Reserved)
    && s.workers[n].phase == Reserved && s.workers[n].slot == n
    && (forall i :: 0 <= i < s.maxSize ==> (s.active[i] <==> i <= n))
  }

  lemma BegunReserves(s: State, n: nat)
    requires Begun(s, n) && n < s.coreSize && MutexFree(s)
    ensures Enabled(s, ReserveCore) && FirstFree(s.active) == n
    ensures if n < s.maxSize then Reserving(Do(s, ReserveCore), n) else Do(s, ReserveCore) == s.(creation := Failed)
  {
    assert n < s.maxSize ==> !s.active[n];
  }

  lemma ReservingCreates(s: State, n: nat, ok: bool)
    requires Reserving(s, n) && (!ok ==> MutexFree(s))
    ensures Enabled(s, CreateCore(ok))
    ensures if ok then Begun(Do(s, CreateCore(ok)), n + 1) else Do(s, CreateCore(ok)).creation == Failed
  {
  }

  // ---- giving up -------------------------------------------------------------------------

  /** The creator has set the flag and broadcast, and waits for its workers; one of them has
      missed the broadcast and sleeps. */
  ghost predicate LostWakeup(s: State) {
    s.creation == Abandoned && s.shutdown && exists w :: 0 <= w < |s.workers| && s.workers[w].phase == Asleep
  }

  /** Some run loses a wake-up. */
  ghost predicate MayLose(s: State) {
    exists t :: Leads(s, t) && LostWakeup(t)
  }

  /** No step but a wake-up without cause gets that worker up. */
  lemma SleepsOn(s: State, step: Step, w: nat)
    requires Inv(s) && s.creation == Abandoned && w < |s.workers| && s.workers[w].phase == Asleep
    requires Enabled(s, step) && !(step.WakeWorker? && step.w == w)
    ensures Do(s, step).creation == Abandoned
    ensures w < |Do(s, step).workers| && Do(s, step).workers[w].phase == Asleep
  {
  }

  /** Neither does any run of such steps, so the creator waits for it for ever. */
  lemma {:induction false} SleepsForEver(s: State, steps: seq<Step>, t: State, w: nat)
    requires Inv(s) && s.creation == Abandoned && w < |s.workers| && s.workers[w].phase == Asleep
    requires Run(s, steps, t) && forall step :: step in steps ==> !(step.WakeWorker? && step.w == w)
    ensures LostWakeup(t) && w < |t.workers| && t.workers[w].phase == Asleep
    decreases |steps|
  {
    if steps != [] {
      assert steps[0] in steps && forall step :: step in steps[1..] ==> step in steps;
      SleepsOn(s, steps[0], w);
      StepInv(s, steps[0]);
      SleepsForEver(Do(s, steps[0]), steps[1..], t, w);
    }
  }

  /** Before the pool has opened there are no tasks, so no worker is busy. */
  lemma NoneBusy(s: State, w: nat)
    requires Inv(s) && s.creation != Opened && w < |s.workers|
    ensures !s.workers[w].phase.Busy?
  {
    assert s.accepted == [] && s.taken == [];
    if s.workers[w].phase.Busy? {
      InFlightHas(s.workers, w);
    }
  }

  lemma {:induction false} InFlightHas(ws: seq<Worker>, w: nat)
    requires w < |ws| && ws[w].phase.Busy?
    ensures ws[w].phase.task in InFlight(ws)
  {
    if w > 0 {
      InFlightHas(ws[1..], w - 1);
    }
  }

  /** A worker about to sleep when the creator sets the flag and broadcasts. */
  lemma MissBroadcast(s: State, w: nat) returns (t: State)
    requires s.creation == Failed && w < |s.workers| && s.workers[w].phase == Dozing
    ensures Leads(s, t) && LostWakeup(t)
  {
    var s1 := Do(s, RaiseFlag);
    var s2 := Do(s1, Broadcast);
    t := Do(s2, FallAsleep(w));
    assert t.workers[w].phase == Asleep;
    LeadsNowhere(s);
    LeadsThen(s, s, RaiseFlag);
    LeadsThen(s, s1, Broadcast);
    LeadsThen(s, s2, FallAsleep(w));
  }

  /** Any worker that exists when creation fails can get there. */
  lemma LoseWakeup(s: State, w: nat)
    requires Inv(s) && s.creation == Failed && w < |s.workers| && s.workers[w].phase != Exited
    ensures MayLose(s)
  {
    if v :| 0 <= v < |s.workers| && s.workers[v].phase == Dozing {
      var t := MissBroadcast(s, v);
    } else {
      var u := StartDozing(s, w);
      var t := MissBroadcast(u, w);
      LeadsTrans(s, u, t);
    }
  }

  lemma StartDozing(s: State, w: nat) returns (t: State)
    requires Inv(s) && s.creation == Failed && w < |s.workers| && s.workers[w].phase != Exited && MutexFree(s)
    ensures Leads(s, t) && t.creation == Failed && w < |t.workers| && t.workers[w].phase == Dozing
  {
    NoneBusy(s, w);
    LeadsNowhere(s);
    t := s;
    if s.workers[w].phase == Asleep {
      LeadsThen(s, s, WakeWorker(w, false));
      t := Do(s, WakeWorker(w, false));
    }
    LeadsThen(s, t, RunWorker(w, None));
    t := Do(t, RunWorker(w, None));
  }

  /** Creation has failed and no worker is there. */
  ghost predicate Deserted(s: State) {
    && (s.creation == Failed || GaveUp(s)) && s.producers == []
    && forall w :: 0 <= w < |s.workers| ==> s.workers[w].phase == Exited
  }

  /** With nobody there, nobody comes. */
  lemma DesertedStays(s: State, step: Step)
    requires Deserted(s) && Enabled(s, step)
    ensures Deserted(Do(s, step))
  {
  }

  lemma {:induction false} DesertedRun(s: State, steps: seq<Step>, t: State)
    requires Deserted(s) && Run(s, steps, t)
    ensures Deserted(t)
    decreases |steps|
  {
    if steps != [] {
      DesertedStays(s, steps[0]);
      DesertedRun(Do(s, steps[0]), steps[1..], t);
    }
  }

  /** When creation fails, a wake-up may be lost exactly if some core worker was created before. */
  lemma FailureLosesIff(s: State)
    requires Inv(s) && s.creation == Failed
    ensures MayLose(s) <==> exists w :: 0 <= w < |s.workers| && s.workers[w].phase != Exited
  {
    if w :| 0 <= w < |s.workers| && s.workers[w].phase != Exited {
      LoseWakeup(s, w);
    } else if MayLose(s) {
      var t :| Leads(s, t) && LostWakeup(t);
      var steps :| Run(s, steps, t);
      DesertedRun(s, steps, t);
    }
  }

  /** The second core worker cannot be created. */
  lemma SecondFails(capacity: nat, coreSize: nat, maxSize: nat) returns (t: State)
    requires 2 <= coreSize && 1 <= maxSize
    ensures Leads(Init(capacity, coreSize, maxSize), t)
    ensures t.creation == Failed && |t.workers| > 0 && t.workers[0].phase == Ready
  {
    var init, s := Init(capacity, coreSize, maxSize), After(capacity, coreSize, maxSize, 1);
    AfterReached(capacity, coreSize, maxSize, 1);
    NextSlot(capacity, coreSize, maxSize, 1);
    LeadsThen(init, s, ReserveCore);
    t := Do(s, ReserveCore);
    if 1 < maxSize {
      ReservedNext(capacity, coreSize, maxSize, 1);
      LeadsThen(init, t, CreateCore(false));
      t := Do(t, CreateCore(false));
    }
  }

  lemma FailedMayLose(init: State, f: State, w: nat)
    requires Inv(init) && Leads(init, f) && f.creation == Failed
    requires w < |f.workers| && f.workers[w].phase != Exited
    ensures MayLose(init)
  {
    LeadsKeeps(init, f);
    LoseWakeup(f, w);
    var t :| Leads(f, t) && LostWakeup(t);
    LeadsTrans(init, f, t);
  }

  lemma TwoMayLose(capacity: nat, coreSize: nat, maxSize: nat)
    requires 1 <= capacity && 2 <= coreSize && 1 <= maxSize
    ensures MayLose(Init(capacity, coreSize, maxSize))
  {
    var f := SecondFails(capacity, coreSize, maxSize);
    InitInv(capacity, coreSize, maxSize);
    FailedMayLose(Init(capacity, coreSize, maxSize), f, 0);
  }

  /** The worker that sleeps is not the one whose creation failed. */
  lemma LoserHadTwo(s: State)
    requires CoreOk(s) && LostWakeup(s)
    ensures s.coreSize >= 2
  {
    var w :| 0 <= w < |s.workers| && s.workers[w].phase == Asleep;
    assert |s.workers| == s.coreSize ==> w != |s.workers| - 1;
  }

  /** Over all runs, that can happen exactly if there are at least two core workers to create. */
  lemma LostWakeupIff(capacity: nat, coreSize: nat, maxSize: nat)
    requires 1 <= capacity && 1 <= coreSize && 1 <= maxSize
    ensures MayLose(Init(capacity, coreSize, maxSize)) <==> coreSize >= 2
  {
    var init := Init(capacity, coreSize, maxSize);
    if coreSize >= 2 {
      TwoMayLose(capacity, coreSize, maxSize);
    } else if MayLose(init) {
      var t :| Leads(init, t) && LostWakeup(t);
      InitInv(capacity, coreSize, maxSize);
      LeadsKeeps(init, t);
      LoserHadTwo(t);
    }
  }

  /** A pool that has opened stays open, so none of its wake-ups are lost that way. */
  lemma {:induction false} OpenedStays(s: State, steps: seq<Step>, t: State)
    requires s.creation == Opened && Run(s, steps, t)
    ensures t.creation == Opened && !LostWakeup(t)
    decreases |steps|
  {
    if steps != [] {
      OpenedStays(Do(s, steps[0]), steps[1..], t);
    }
  }

  lemma DozerMoves(s: State, w: nat) returns (step: Step)
    requires w < |s.workers| && s.workers[w].phase == Dozing
    ensures Enabled(s, step) && step.FallAsleep?
  {
    step := FallAsleep(w);
  }

  /** Where only causeless wake-ups are left, the joins of the creator return exactly if no
      wake-up was lost. */
  lemma AbandonedOutcome(s: State)
    requires Inv(s) && s.creation == Abandoned
    requires forall step :: Enabled(s, step) ==> step.WakeWorker?
    ensures (forall w :: 0 <= w < |s.workers| ==> s.workers[w].phase == Exited) <==> !LostWakeup(s)
  {
    if !LostWakeup(s) {
      forall w | 0 <= w < |s.workers|
        ensures s.workers[w].phase != Dozing
      {
        if s.workers[w].phase == Dozing {
          var step := DozerMoves(s, w);
        }
      }
      AllLeft(s);
    }
  }
}
