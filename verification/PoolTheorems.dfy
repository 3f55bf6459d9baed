/** Consequences of the pool invariant, for every reachable state. */
module PoolTheorems {
  import opened Basics
  import opened Sums
  import opened PoolModel
  import opened PoolSafety

  /** While the pool is open, a queued task always has a worker that is up: busy, ready to look
      at the queue, or already woken.  A non-empty queue never meets only sleeping workers. */
  lemma NoLostWakeup(s: State)
    requires Reachable(s) && s.creation == Opened && s.queue != []
    ensures exists w ::
      0 <= w < |s.workers| && (s.workers[w].phase.Busy? || s.workers[w].phase == Ready || s.workers[w].phase.Woken?)
  {
    ReachableInv(s);
    var w0 := s.workers[0];
    assert w0.core && w0.phase != Exited && w0.phase != Reserved;
    if w0.phase == Asleep {
      NoneAsleep(s.workers);
      SumZero(s.workers, IsWoken);
      var w :| 0 <= w < |s.workers| && IsWoken(s.workers[w]) != 0;
      assert s.workers[w].phase.Woken?;
    }
  }

  /** A sleeping worker means that there are at least as many woken workers as queued tasks; once
      the pool has opened, no worker sleeps through a shutdown. */
  lemma SleepersAreSpare(s: State, w: nat)
    requires Reachable(s) && w < |s.workers| && s.workers[w].phase == Asleep
    ensures |s.queue| <= Sum(s.workers, IsWoken)
    ensures s.creation == Opened ==> !s.shutdown
  {
    ReachableInv(s);
    NoneAsleep(s.workers);
  }

  /** Likewise for producers and free places. */
  lemma WaitersAreSpare(s: State, p: nat)
    requires Reachable(s) && p < |s.producers| && s.producers[p].stage == Waiting
    ensures s.capacity - |s.queue| <= Sum(s.producers, IsRoused) && !s.shutdown
  {
    ReachableInv(s);
    NoneWaiting(s.producers);
  }

  /** Tasks are neither lost, duplicated nor reordered. */
  lemma TasksConserved(s: State)
    requires Reachable(s)
    ensures s.accepted == s.taken + s.queue
    ensures multiset(s.accepted) == multiset(s.queue) + InFlight(s.workers) + multiset(s.done)
    ensures |s.accepted| == Sum(s.producers, IsAccepted)
    ensures |s.queue| <= s.capacity
  {
    ReachableInv(s);
  }

  /** Slots are never shared, and numWorkers counts the active ones. */
  lemma SlotsExclusive(s: State)
    requires Reachable(s)
    ensures s.numWorkers == Sum(s.active, IsActive) == Sum(s.workers, IsLive) <= s.maxSize
    ensures forall v, w :: 0 <= v < w < |s.workers| && s.workers[v].phase != Exited && s.workers[w].phase != Exited ==>
      s.workers[v].slot != s.workers[w].slot < s.maxSize
    ensures s.creation == Opened && !s.shutdown ==>
      forall w :: 0 <= w < s.coreSize ==> w < |s.workers| && s.workers[w].core && s.workers[w].phase != Exited
  {
    ReachableInv(s);
    AtMostLength(s.active);
  }

  lemma {:induction false} NothingInFlight(ws: seq<Worker>)
    requires forall w :: 0 <= w < |ws| ==> !ws[w].phase.Busy?
    ensures InFlight(ws) == multiset{}
  {
    if ws != [] {
      NothingInFlight(ws[1..]);
    }
  }

  /** Once every worker has left an opened pool, it was shut down, nothing is queued, and the
      tasks processed are exactly those whose add_task call succeeded. */
  lemma Drained(s: State)
    requires Reachable(s) && s.creation == Opened
    requires forall w :: 0 <= w < |s.workers| ==> s.workers[w].phase == Exited
    ensures s.shutdown && s.queue == [] && s.numWorkers == 0
    ensures multiset(s.done) == multiset(s.accepted)
    ensures |s.done| == Sum(s.producers, IsAccepted)
  {
    ReachableInv(s);
    assert s.workers[0].phase == Exited && s.workers[0].core;
    NothingInFlight(s.workers);
    SumZero(s.workers, IsLive);
    assert multiset(s.taken) == multiset(s.done);
    assert s.accepted == s.taken;
    assert |multiset(s.done)| == |multiset(s.accepted)|;
  }

  // ---- shutting down comes to an end -----------------------------------------------------

  function WorkerWork(w: Worker): nat {
    match w.phase
    case Reserved => 4
    case Busy(_) => 4
    case Ready => 3
    case Dozing => 3
    case Asleep => 3
    case Woken(_) => 3
    case Exited => 0
  }

  function ProducerWork(p: Producer): nat {
    match p.stage
    case Calling => 1
    case Waiting => 2
    case Roused => 1
    case MustSpawn => 6
    case Creating(_) => 1
    case Returned(_) => 0
  }

  /** An upper bound for the steps left after shutdown. */
  function Remaining(s: State): nat {
    2 * |s.queue| + Sum(s.workers, WorkerWork) + Sum(s.producers, ProducerWork)
  }

  lemma WorkChanges(s: State, w: nat, phase: Phase)
    requires w < |s.workers|
    ensures
      var x := s.workers[w].(phase := phase);
      Sum(s.workers[w := x], WorkerWork) == Sum(s.workers, WorkerWork) + WorkerWork(x) - WorkerWork(s.workers[w])
  {
    SumUpdate(s.workers, w, s.workers[w].(phase := phase), WorkerWork);
  }

  lemma StageChanges(s: State, p: nat, stage: Stage)
    requires p < |s.producers|
    ensures
      var x := s.producers[p].(stage := stage);
      Sum(s.producers[p := x], ProducerWork)
        == Sum(s.producers, ProducerWork) + ProducerWork(x) - ProducerWork(s.producers[p])
  {
    SumUpdate(s.producers, p, s.producers[p].(stage := stage), ProducerWork);
  }

  lemma WorkerProgress(s: State, w: nat, wakee: Option<nat>)
    requires s.shutdown && Enabled(s, RunWorker(w, wakee)) && wakee.None?
    ensures Remaining(WorkerSection(s, w, wakee)) < Remaining(s)
  {
    if s.queue == [] {
      WorkChanges(s, w, Exited);
    } else {
      WorkChanges(s, w, Busy(s.queue[0]));
    }
  }

  lemma ReserveProgress(s: State, p: nat)
    requires Enabled(s, ReserveExtra(p))
    ensures Remaining(Do(s, ReserveExtra(p))) < Remaining(s)
  {
    if FirstFree(s.active) < |s.active| {
      StageChanges(s, p, Creating(|s.workers|));
      SumAppend(s.workers, Worker(FirstFree(s.active), false, Reserved), WorkerWork);
    } else {
      StageChanges(s, p, Returned(0));
    }
  }

  lemma CreateProgress(s: State, p: nat, ok: bool)
    requires Enabled(s, CreateExtra(p, ok)) && s.workers[s.producers[p].stage.w].phase == Reserved
    ensures Remaining(Do(s, CreateExtra(p, ok))) < Remaining(s)
  {
    StageChanges(s, p, Returned(0));
    WorkChanges(s, s.producers[p].stage.w, if ok then Ready else Exited);
  }

  /** A pool that is shutting down: an opened one, or one whose creator has given up and
      broadcast, and no worker that may have missed it. */
  ghost predicate ClosingDown(s: State) {
    && s.shutdown && (s.creation == Opened || s.creation == Abandoned)
    && forall w :: 0 <= w < |s.workers| ==> s.workers[w].phase != Asleep && s.workers[w].phase != Dozing
  }

  lemma ReachableClosingDown(s: State)
    requires Reachable(s) && s.creation == Opened && s.shutdown
    ensures Inv(s) && ClosingDown(s)
  {
    ReachableInv(s);
    NoneAsleep(s.workers);
  }

  /** What the invariant adds about such a pool. */
  ghost predicate Leaving(s: State) {
    && s.shutdown && (s.creation == Opened || s.creation == Abandoned)
    && (forall w :: 0 <= w < |s.workers| ==> s.workers[w].phase != Asleep && s.workers[w].phase != Dozing)
    && (forall p :: 0 <= p < |s.producers| ==> s.producers[p].stage != Waiting)
    && (forall p :: 0 <= p < |s.producers| && s.producers[p].stage.Creating? ==>
          s.producers[p].stage.w < |s.workers| && s.workers[s.producers[p].stage.w].phase == Reserved)
  }

  lemma ClosingDownLeaves(s: State)
    requires Inv(s) && ClosingDown(s)
    ensures Leaving(s)
  {
    NoneWaiting(s.producers);
  }

  lemma LeavingProgress(s: State, step: Step)
    requires Leaving(s) && Enabled(s, step) && !step.Call? && !step.Shutdown?
    ensures Remaining(Do(s, step)) < Remaining(s)
  {
    match step
    case RunWorker(w, wakee) => WorkerProgress(s, w, wakee);
    case Finish(w, _) => WorkChanges(s, w, Ready);
    case RunProducer(p, wakee, late) =>
      StageChanges(s, p, Returned(-1));
      assert Do(s, step) == SetStage(s, p, Returned(-1));
    case ReserveExtra(p) => ReserveProgress(s, p);
    case CreateExtra(p, ok) => CreateProgress(s, p, ok);
    case _ =>
  }

  /** After shutdown, every step but a new call of add_task or a repeated shutdown leaves less to do. */
  lemma ShutdownProgress(s: State, step: Step)
    requires Inv(s) && ClosingDown(s) && Enabled(s, step) && !step.Call? && !step.Shutdown?
    ensures Remaining(Do(s, step)) < Remaining(s)
  {
    ClosingDownLeaves(s);
    LeavingProgress(s, step);
  }

  lemma WorkersStayAwake(s: State, step: Step)
    requires ClosingDown(s) && Enabled(s, step)
    requires step.RunWorker? || step.FallAsleep? || step.WakeWorker? || step.Finish? || step.Shutdown?
    ensures ClosingDown(Do(s, step))
  {
  }

  /** Shutting down is for good. */
  lemma ShutdownStays(s: State, step: Step)
    requires ClosingDown(s) && Enabled(s, step)
    ensures ClosingDown(Do(s, step))
  {
    if step.RunWorker? || step.FallAsleep? || step.WakeWorker? || step.Finish? || step.Shutdown? {
      WorkersStayAwake(s, step);
    }
  }

  /** So only so many steps are left: a run without new calls and repeated shutdowns ends. */
  lemma {:induction false} ShutdownEnds(s: State, steps: seq<Step>, t: State)
    requires Inv(s) && ClosingDown(s) && Run(s, steps, t)
    requires forall step :: step in steps ==> !step.Call? && !step.Shutdown?
    ensures |steps| + Remaining(t) <= Remaining(s)
    decreases |steps|
  {
    if steps != [] {
      var u := Do(s, steps[0]);
      assert steps[0] in steps && forall step :: step in steps[1..] ==> step in steps;
      ShutdownProgress(s, steps[0]);
      ShutdownStays(s, steps[0]);
      StepInv(s, steps[0]);
      ShutdownEnds(u, steps[1..], t);
    }
  }

  lemma WorkerNotStuck(s: State, w: nat) returns (step: Step)
    requires Inv(s) && ClosingDown(s) && w < |s.workers| && s.workers[w].phase != Exited
    ensures Enabled(s, step) && !step.Call? && !step.Shutdown?
  {
    NoneWaiting(s.producers);
    if s.workers[w].phase == Reserved {
      var p :| 0 <= p < |s.producers| && s.producers[p].stage == Creating(w);
      step := CreateExtra(p, true);
    } else if s.workers[w].phase.Busy? {
      step := Finish(w, false);
    } else {
      step := RunWorker(w, None);
    }
  }

  lemma ProducerNotStuck(s: State, p: nat) returns (step: Step)
    requires Inv(s) && ClosingDown(s) && p < |s.producers| && !s.producers[p].stage.Returned?
    ensures Enabled(s, step) && !step.Call? && !step.Shutdown?
  {
    NoneWaiting(s.producers);
    if s.producers[p].stage == MustSpawn {
      step := ReserveExtra(p);
    } else if s.producers[p].stage.Creating? {
      step := CreateExtra(p, true);
    } else {
      step := RunProducer(p, None, false);
    }
  }

  /** Where no step is left but new calls or a repeated shutdown, everyone has left. */
  lemma AllLeft(s: State)
    requires Inv(s) && ClosingDown(s)
    requires forall step :: Enabled(s, step) ==> step.Call? || step.Shutdown?
    ensures forall w :: 0 <= w < |s.workers| ==> s.workers[w].phase == Exited
    ensures forall p :: 0 <= p < |s.producers| ==> s.producers[p].stage.Returned?
  {
    forall w | 0 <= w < |s.workers|
      ensures s.workers[w].phase == Exited
    {
      if s.workers[w].phase != Exited {
        var step := WorkerNotStuck(s, w);
      }
    }
    forall p | 0 <= p < |s.producers|
      ensures s.producers[p].stage.Returned?
    {
      if !s.producers[p].stage.Returned? {
        var step := ProducerNotStuck(s, p);
      }
    }
  }

  /** After shutdown, where no step is left but new calls or a repeated shutdown, the pool is
      drained: all workers have left and all accepted tasks are processed. */
  lemma ShutdownDrains(s: State)
    requires Reachable(s) && s.creation == Opened && s.shutdown
    requires forall step :: Enabled(s, step) ==> step.Call? || step.Shutdown?
    ensures forall w :: 0 <= w < |s.workers| ==> s.workers[w].phase == Exited
    ensures s.queue == [] && multiset(s.done) == multiset(s.accepted)
    ensures |s.done| == Sum(s.producers, IsSuccess)
  {
    ReachableClosingDown(s);
    AllLeft(s);
    Drained(s);
    SumPointwise(s.producers, s.producers, IsAccepted, IsSuccess);
  }

  /** The call has returned 0. */
  function IsSuccess(p: Producer): nat {
    One(p.stage == Returned(0))
  }
}
