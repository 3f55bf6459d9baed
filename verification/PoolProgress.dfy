/** An open pool gets its work done: the steps that some call or wake-up is not needed for come to
    an end, and then every accepted task is processed. */
module PoolProgress {
  import opened Basics
  import opened Sums
  import opened PoolModel
  import opened PoolSafety
  import opened PoolTheorems

  /** The steps that the threads take by themselves: no new calls, and no sleeper that wakes
      without a signal. */
  predicate OwnStep(step: Step) {
    !step.Call? && !step.Shutdown? && !step.WakeWorker? && !step.WakeProducer?
  }

  function WorkerLeft(w: Worker): nat {
    match w.phase
    case Busy(_) => 3
    case Reserved => 2
    case Ready => 2
    case Woken(_) => 2
    case Dozing => 1
    case Asleep => 0
    case Exited => 0
  }

  function ProducerLeft(p: Producer): nat {
    match p.stage
    case Calling => 10
    case Roused => 10
    case Waiting => 9
    case MustSpawn => 4
    case Creating(_) => 1
    case Returned(_) => 0
  }

  /** An upper bound for the steps that the threads still take by themselves. */
  function Left(s: State): nat {
    3 * |s.queue| + Sum(s.workers, WorkerLeft) + Sum(s.producers, ProducerLeft)
  }

  lemma PhaseLeft(s: State, w: nat, phase: Phase)
    requires w < |s.workers|
    ensures Left(SetPhase(s, w, phase))
         == Left(s) + WorkerLeft(s.workers[w].(phase := phase)) - WorkerLeft(s.workers[w])
  {
    SumUpdate(s.workers, w, s.workers[w].(phase := phase), WorkerLeft);
  }

  lemma StageLeft(s: State, p: nat, stage: Stage)
    requires p < |s.producers|
    ensures Left(SetStage(s, p, stage))
         == Left(s) + ProducerLeft(s.producers[p].(stage := stage)) - ProducerLeft(s.producers[p])
  {
    SumUpdate(s.producers, p, s.producers[p].(stage := stage), ProducerLeft);
  }

  lemma WorkerLess(s: State, w: nat, wakee: Option<nat>)
    requires Enabled(s, RunWorker(w, wakee))
    ensures Left(WorkerSection(s, w, wakee)) < Left(s)
  {
    if s.queue == [] {
      PhaseLeft(s, w, Exited);
      PhaseLeft(s, w, Dozing);
    } else {
      var t := SetPhase(s, w, Busy(s.queue[0]));
      var u := t.(queue := s.queue[1..], taken := s.taken + [s.queue[0]]);
      PhaseLeft(s, w, Busy(s.queue[0]));
      if wakee.Some? {
        StageLeft(u, wakee.value, Roused);
      }
    }
  }

  lemma ProducerLess(s: State, p: nat, wakee: Option<nat>, late: bool)
    requires Enabled(s, RunProducer(p, wakee, late))
    ensures Left(ProducerSection(s, p, wakee, late)) < Left(s)
  {
    if s.shutdown {
      StageLeft(s, p, Returned(-1));
    } else if |s.queue| >= s.capacity {
      StageLeft(s, p, Waiting);
    } else {
      var task := s.producers[p].task;
      var t := s.(queue := s.queue + [task], accepted := s.accepted + [task]);
      var u := if wakee.None? then t else SetPhase(t, wakee.value, Woken(late));
      if wakee.Some? {
        PhaseLeft(t, wakee.value, Woken(late));
      }
      StageLeft(u, p, if s.numWorkers < s.maxSize then MustSpawn else Returned(0));
    }
  }

  lemma ReserveLess(s: State, p: nat)
    requires Enabled(s, ReserveExtra(p))
    ensures Left(Do(s, ReserveExtra(p))) < Left(s)
  {
    if FirstFree(s.active) < |s.active| {
      SumAppend(s.workers, Worker(FirstFree(s.active), false, Reserved), WorkerLeft);
      StageLeft(Reserve(s, false), p, Creating(|s.workers|));
    } else {
      StageLeft(s, p, Returned(0));
    }
  }

  lemma CreateLess(s: State, p: nat, ok: bool)
    requires Enabled(s, CreateExtra(p, ok)) && s.workers[s.producers[p].stage.w].phase == Reserved
    ensures Left(Do(s, CreateExtra(p, ok))) < Left(s)
  {
    var w := s.producers[p].stage.w;
    PhaseLeft(s, w, Ready);
    PhaseLeft(s, w, Exited);
    StageLeft(if ok then SetPhase(s, w, Ready) else Release(s, w), p, Returned(0));
  }

  lemma FinishLess(s: State, w: nat, failed: bool)
    requires Enabled(s, Finish(w, failed))
    ensures Left(Finished(s, w, failed)) < Left(s)
  {
    PhaseLeft(s, w, Ready);
  }

  /** Each of them leaves strictly less to do, though producers and workers wake each other. */
  lemma OwnProgress(s: State, step: Step)
    requires Inv(s) && s.creation == Opened && Enabled(s, step) && OwnStep(step)
    ensures Left(Do(s, step)) < Left(s)
  {
    match step
    case RunWorker(w, wakee) => WorkerLess(s, w, wakee);
    case FallAsleep(w) => PhaseLeft(s, w, Asleep);
    case Finish(w, failed) => FinishLess(s, w, failed);
    case RunProducer(p, wakee, late) => ProducerLess(s, p, wakee, late);
    case ReserveExtra(p) => ReserveLess(s, p);
    case CreateExtra(p, ok) => CreateLess(s, p, ok);
    case _ =>
  }

  lemma StaysOpened(s: State, step: Step)
    requires Enabled(s, step) && s.creation == Opened
    ensures Do(s, step).creation == Opened
  {
  }

  /** So a run of such steps ends. */
  lemma {:induction false} OwnStepsEnd(s: State, steps: seq<Step>, t: State)
    requires Inv(s) && s.creation == Opened && Run(s, steps, t) && forall step :: step in steps ==> OwnStep(step)
    ensures |steps| + Left(t) <= Left(s)
    decreases |steps|
  {
    if steps != [] {
      assert steps[0] in steps && forall step :: step in steps[1..] ==> step in steps;
      OwnProgress(s, steps[0]);
      StepInv(s, steps[0]);
      StaysOpened(s, steps[0]);
      OwnStepsEnd(Do(s, steps[0]), steps[1..], t);
    }
  }

  // ---- where it ends ---------------------------------------------------------------------

  /** A signal that is possible. */
  lemma Wakee(s: State) returns (wakee: Option<nat>)
    ensures if s.queue != [] then SignalsProducer(s, wakee) else wakee == None
  {
    wakee := None;
    if s.queue != [] {
      if p :| 0 <= p < |s.producers| && s.producers[p].stage == Waiting {
        wakee := Some(p);
      }
    }
  }

  lemma Sleeper(s: State) returns (wakee: Option<nat>)
    ensures if !s.shutdown && |s.queue| < s.capacity then SignalsWorker(s, wakee) else wakee == None
  {
    wakee := None;
    if !s.shutdown && |s.queue| < s.capacity {
      if w :| 0 <= w < |s.workers| && s.workers[w].phase == Asleep {
        wakee := Some(w);
      }
    }
  }

  /** A worker that neither sleeps nor has left can go on, or another one holds the mutex. */
  lemma WorkerGoesOn(s: State, w: nat) returns (step: Step)
    requires Inv(s) && s.creation == Opened && w < |s.workers|
    requires s.workers[w].phase != Asleep && s.workers[w].phase != Exited
    ensures Enabled(s, step) && OwnStep(step)
  {
    if v :| 0 <= v < |s.workers| && s.workers[v].phase == Dozing {
      step := FallAsleep(v);
    } else if s.workers[w].phase == Reserved {
      var p :| 0 <= p < |s.producers| && s.producers[p].stage == Creating(w);
      step := CreateExtra(p, true);
    } else if s.workers[w].phase.Busy? {
      step := Finish(w, false);
    } else {
      var wakee := Wakee(s);
      step := RunWorker(w, wakee);
    }
  }

  /** So can a producer that neither waits nor has returned. */
  lemma ProducerGoesOn(s: State, p: nat) returns (step: Step)
    requires Inv(s) && s.creation == Opened && p < |s.producers|
    requires s.producers[p].stage != Waiting && !s.producers[p].stage.Returned?
    ensures Enabled(s, step) && OwnStep(step)
  {
    if v :| 0 <= v < |s.workers| && s.workers[v].phase == Dozing {
      step := FallAsleep(v);
    } else if s.producers[p].stage == MustSpawn {
      step := ReserveExtra(p);
    } else if s.producers[p].stage.Creating? {
      step := CreateExtra(p, true);
    } else {
      var wakee := Sleeper(s);
      step := RunProducer(p, wakee, false);
    }
  }

  /** The threads have nothing left to do by themselves. */
  ghost predicate AtRest(s: State) {
    forall step :: Enabled(s, step) ==> !OwnStep(step)
  }

  /** And that is where a pool left alone always arrives. */
  lemma {:induction false} RestReached(s: State) returns (steps: seq<Step>, t: State)
    requires Inv(s) && s.creation == Opened
    ensures Run(s, steps, t) && (forall step <- steps :: OwnStep(step)) && AtRest(t)
    decreases Left(s)
  {
    if AtRest(s) {
      steps, t := [], s;
    } else {
      var step :| Enabled(s, step) && OwnStep(step);
      OwnProgress(s, step);
      StepInv(s, step);
      StaysOpened(s, step);
      var rest;
      rest, t := RestReached(Do(s, step));
      steps := [step] + rest;
      assert steps[1..] == rest;
    }
  }

  lemma OnlySleepers(s: State)
    requires Inv(s) && s.creation == Opened && AtRest(s)
    ensures forall w :: 0 <= w < |s.workers| ==> s.workers[w].phase == Asleep || s.workers[w].phase == Exited
    ensures forall p :: 0 <= p < |s.producers| ==> s.producers[p].stage == Waiting || s.producers[p].stage.Returned?
  {
    forall w | 0 <= w < |s.workers|
      ensures s.workers[w].phase == Asleep || s.workers[w].phase == Exited
    {
      if s.workers[w].phase != Asleep && s.workers[w].phase != Exited {
        var step := WorkerGoesOn(s, w);
      }
    }
    forall p | 0 <= p < |s.producers|
      ensures s.producers[p].stage == Waiting || s.producers[p].stage.Returned?
    {
      if s.producers[p].stage != Waiting && !s.producers[p].stage.Returned? {
        var step := ProducerGoesOn(s, p);
      }
    }
  }

  /** With nobody up, there is nothing to do for workers or producers. */
  lemma NothingWaits(s: State)
    requires Inv(s) && s.creation == Opened
    requires forall w :: 0 <= w < |s.workers| ==> s.workers[w].phase == Asleep || s.workers[w].phase == Exited
    requires forall p :: 0 <= p < |s.producers| ==> s.producers[p].stage == Waiting || s.producers[p].stage.Returned?
    ensures s.queue == [] && forall p :: 0 <= p < |s.producers| ==> s.producers[p].stage.Returned?
  {
    SumZero(s.workers, IsWoken);
    SumZero(s.producers, IsRoused);
    NoneAsleep(s.workers);
    NoneWaiting(s.producers);
    assert s.workers[0].phase == Asleep || s.workers[0].phase == Exited;
  }

  /** In an open pool that is left alone, every call has returned and every accepted task is
      processed. */
  lemma RestIsDone(s: State)
    requires Reachable(s) && s.creation == Opened && AtRest(s)
    ensures s.queue == [] && multiset(s.done) == multiset(s.accepted)
    ensures forall p :: 0 <= p < |s.producers| ==> s.producers[p].stage.Returned?
    ensures |s.done| == Sum(s.producers, IsSuccess)
    ensures forall w :: 0 <= w < |s.workers| ==> s.workers[w].phase == Asleep || s.workers[w].phase == Exited
  {
    ReachableInv(s);
    OnlySleepers(s);
    NothingWaits(s);
    AllDone(s);
  }

  lemma AllDone(s: State)
    requires TasksOk(s) && s.queue == [] && forall w :: 0 <= w < |s.workers| ==> !s.workers[w].phase.Busy?
    requires forall p :: 0 <= p < |s.producers| ==> s.producers[p].stage.Returned?
    ensures multiset(s.done) == multiset(s.accepted) && |s.done| == Sum(s.producers, IsSuccess)
  {
    NothingInFlight(s.workers);
    assert s.accepted == s.taken;
    assert |multiset(s.done)| == |multiset(s.accepted)|;
    SumPointwise(s.producers, s.producers, IsAccepted, IsSuccess);
  }
}
