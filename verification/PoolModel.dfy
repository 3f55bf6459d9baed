/**
 The dynamic thread pool of src/thread_pool.c as a transition system.  One step is one
 stretch of code run by one thread while it holds the pool mutex (or one stretch outside
 of it); the scheduler may take any enabled step.  Condition variables follow POSIX:
 a signal wakes one sleeper if there is one, sleepers may also wake by themselves or by
 timeout, and a woken thread still has to get the mutex before it looks at the pool again.

 When the creation of a core worker fails, the creating thread sets the shutdown flag and
 broadcasts without holding the mutex.  So a worker that has found nothing to do and is about
 to sleep has a phase of its own, Dozing, in which it still holds the mutex: every step that
 needs the mutex has to wait, but those two writes may fall there.
 */
module PoolModel {
  import opened Basics

  // ---- states ----------------------------------------------------------------------------

  /** Where a worker thread is.  Reserved: its slot is taken, the thread not yet created.
      Dozing: it found nothing to do and is about to sleep, still holding the mutex. */
  datatype Phase = Reserved | Ready | Dozing | Asleep | Woken(timedOut: bool) | Busy(task: int) | Exited

  datatype Worker = Worker(slot: nat, core: bool, phase: Phase)

  /** Where a call of thread_pool_add_task is.  MustSpawn: the task is queued and a worker is
      to be spawned; Creating: a slot was reserved for worker number w. */
  datatype Stage = Calling | Waiting | Roused | MustSpawn | Creating(w: nat) | Returned(rc: int)

  datatype Producer = Producer(task: int, stage: Stage)

  /** Where thread_pool_create is: spawning core workers, done with it, or giving up, which is
      three steps: the failure, the unlocked flag and the unlocked broadcast. */
  datatype Creation = Spawning | Failed | Flagged | Abandoned | Opened

  /** The last three fields record history: tasks accepted, dequeued and processed, in order. */
  datatype State = State(
    capacity: nat, coreSize: nat, maxSize: nat,
    queue: seq<int>, active: seq<bool>, numWorkers: int, shutdown: bool, creation: Creation,
    workers: seq<Worker>, producers: seq<Producer>, errors: nat,
    accepted: seq<int>, taken: seq<int>, done: seq<int>)

  function Init(capacity: nat, coreSize: nat, maxSize: nat): State {
    State(capacity, coreSize, maxSize, [], seq(maxSize, _ => false), 0, false, Spawning, [], [], 0, [], [], [])
  }

  // ---- steps -----------------------------------------------------------------------------

  datatype Step =
    | ReserveCore                      // creation: take a slot for the next core worker, or give up
    | CreateCore(ok: bool)             // creation: pthread_create for it
    | RaiseFlag                        // creation failed: shutdown is set, without the mutex
    | Broadcast                        // creation failed: sleepers are woken, without the mutex
    | Open                             // creation is complete
    | RunWorker(w: nat, wakee: Option<nat>) // a worker gets the mutex
    | FallAsleep(w: nat)               // a worker sleeps and by that releases the mutex
    | WakeWorker(w: nat, timedOut: bool)
    | Finish(w: nat, failed: bool)     // a worker is done with its task
    | Call(task: int)
    | RunProducer(p: nat, wakee: Option<nat>, late: bool)
    | WakeProducer(p: nat)
    | ReserveExtra(p: nat)
    | CreateExtra(p: nat, ok: bool)
    | Shutdown

  /** The lowest free slot; maxSize if there is none. */
  function FirstFree(active: seq<bool>): (slot: nat)
    ensures slot <= |active|
    ensures slot < |active| ==> !active[slot]
    ensures forall i :: 0 <= i < slot ==> active[i]
  {
    if active == [] || !active[0] then 0 else 1 + FirstFree(active[1..])
  }

  function SetPhase(s: State, w: nat, phase: Phase): State
    requires w < |s.workers|
  {
    s.(workers := s.workers[w := s.workers[w].(phase := phase)])
  }

  function SetStage(s: State, p: nat, stage: Stage): State
    requires p < |s.producers|
  {
    s.(producers := s.producers[p := s.producers[p].(stage := stage)])
  }

  function Reserve(s: State, core: bool): State
    requires FirstFree(s.active) < |s.active|
  {
    var slot := FirstFree(s.active);
    s.(active := s.active[slot := true], numWorkers := s.numWorkers + 1,
       workers := s.workers + [Worker(slot, core, Reserved)])
  }

  /** A worker gives up its slot. */
  function Release(s: State, w: nat): State
    requires w < |s.workers| && s.workers[w].slot < |s.active|
  {
    SetPhase(s, w, Exited).(active := s.active[s.workers[w].slot := false], numWorkers := s.numWorkers - 1)
  }

  function WakeAllWorkers(ws: seq<Worker>): (r: seq<Worker>)
    ensures |r| == |ws|
    ensures forall i :: 0 <= i < |ws| ==>
      r[i] == if ws[i].phase == Asleep then ws[i].(phase := Woken(false)) else ws[i]
  {
    seq(|ws|, i requires 0 <= i < |ws| =>
      if ws[i].phase == Asleep then ws[i].(phase := Woken(false)) else ws[i])
  }

  function WakeAllProducers(ps: seq<Producer>): (r: seq<Producer>)
    ensures |r| == |ps|
    ensures forall i :: 0 <= i < |ps| ==>
      r[i] == if ps[i].stage == Waiting then ps[i].(stage := Roused) else ps[i]
  {
    seq(|ps|, i requires 0 <= i < |ps| =>
      if ps[i].stage == Waiting then ps[i].(stage := Roused) else ps[i])
  }

  function CloseDown(s: State): State {
    s.(shutdown := true, workers := WakeAllWorkers(s.workers), producers := WakeAllProducers(s.producers))
  }

  /** pthread_cond_signal: one sleeper is woken, if there is one. */
  predicate SignalsProducer(s: State, wakee: Option<nat>) {
    if wakee.None? then forall p :: 0 <= p < |s.producers| ==> s.producers[p].stage != Waiting
    else wakee.value < |s.producers| && s.producers[wakee.value].stage == Waiting
  }

  predicate SignalsWorker(s: State, wakee: Option<nat>) {
    if wakee.None? then forall w :: 0 <= w < |s.workers| ==> s.workers[w].phase != Asleep
    else wakee.value < |s.workers| && s.workers[wakee.value].phase == Asleep
  }

  /** No thread holds the mutex between two steps. */
  predicate MutexFree(s: State) {
    forall w :: 0 <= w < |s.workers| ==> s.workers[w].phase != Dozing
  }

  predicate Enabled(s: State, step: Step) {
    match step
    case ReserveCore =>
      s.creation == Spawning && |s.workers| < s.coreSize && MutexFree(s)
      && (forall w :: 0 <= w < |s.workers| ==> s.workers[w].phase != Reserved)
    case CreateCore(ok) =>
      s.creation == Spawning && (!ok ==> MutexFree(s)) && s.workers != [] && s.workers[|s.workers| - 1].phase == Reserved
      && s.workers[|s.workers| - 1].slot < |s.active|
    case RaiseFlag => s.creation == Failed
    case Broadcast => s.creation == Flagged
    case Open =>
      s.creation == Spawning && |s.workers| == s.coreSize
      && forall w :: 0 <= w < |s.workers| ==> s.workers[w].phase != Reserved
    case RunWorker(w, wakee) =>
      w < |s.workers| && (s.workers[w].phase == Ready || s.workers[w].phase.Woken?)
      && s.workers[w].slot < |s.active| && MutexFree(s)
      && (if s.queue != [] then SignalsProducer(s, wakee) else wakee == None)
    case FallAsleep(w) => w < |s.workers| && s.workers[w].phase == Dozing
    case WakeWorker(w, timedOut) =>
      w < |s.workers| && s.workers[w].phase == Asleep && (timedOut ==> !s.workers[w].core)
    case Finish(w, _) => w < |s.workers| && s.workers[w].phase.Busy?
    case Call(_) => s.creation == Opened
    case RunProducer(p, wakee, late) =>
      p < |s.producers| && (s.producers[p].stage == Calling || s.producers[p].stage == Roused) && MutexFree(s)
      && (if !s.shutdown && |s.queue| < s.capacity then SignalsWorker(s, wakee) else wakee == None)
      && (late ==> wakee.Some? && !s.workers[wakee.value].core)
    case WakeProducer(p) => p < |s.producers| && s.producers[p].stage == Waiting
    case ReserveExtra(p) => p < |s.producers| && s.producers[p].stage == MustSpawn && MutexFree(s)
    case CreateExtra(p, ok) =>
      (!ok ==> MutexFree(s)) && p < |s.producers| && s.producers[p].stage.Creating?
      && s.producers[p].stage.w < |s.workers| && s.workers[s.producers[p].stage.w].slot < |s.active|
    case Shutdown => s.creation == Opened && MutexFree(s)
  }

  /** A worker holding the mutex, until it releases it again or is about to sleep. */
  function WorkerSection(s: State, w: nat, wakee: Option<nat>): State
    requires Enabled(s, RunWorker(w, wakee))
  {
    if s.queue == [] && !s.shutdown then
      if s.workers[w].phase == Woken(true) && !s.workers[w].core then Release(s, w)  // idle timeout
      else SetPhase(s, w, Dozing)
    else if s.queue == [] then Release(s, w)
    else
      var t := SetPhase(s, w, Busy(s.queue[0])).(queue := s.queue[1..], taken := s.taken + [s.queue[0]]);
      if wakee.None? then t else SetStage(t, wakee.value, Roused)
  }

  /** A producer holding the mutex, until it releases it again. */
  function ProducerSection(s: State, p: nat, wakee: Option<nat>, late: bool): State
    requires Enabled(s, RunProducer(p, wakee, late))
  {
    if s.shutdown then SetStage(s, p, Returned(-1))
    else if |s.queue| >= s.capacity then SetStage(s, p, Waiting)
    else
      var task := s.producers[p].task;
      var t := s.(queue := s.queue + [task], accepted := s.accepted + [task]);
      var u := if wakee.None? then t else SetPhase(t, wakee.value, Woken(late));
      SetStage(u, p, if s.numWorkers < s.maxSize then MustSpawn else Returned(0))
  }

  /** A worker counts its task as processed. */
  function Finished(s: State, w: nat, failed: bool): State
    requires w < |s.workers| && s.workers[w].phase.Busy?
  {
    SetPhase(s, w, Ready).(done := s.done + [s.workers[w].phase.task],
                           errors := s.errors + if failed then 1 else 0)
  }

  function Do(s: State, step: Step): State
    requires Enabled(s, step)
  {
    match step
    case ReserveCore => if FirstFree(s.active) < |s.active| then Reserve(s, true) else s.(creation := Failed)
    case CreateCore(ok) =>
      var w := |s.workers| - 1;
      if ok then SetPhase(s, w, Ready) else Release(s, w).(creation := Failed)
    case RaiseFlag => s.(shutdown := true, creation := Flagged)
    case Broadcast => s.(workers := WakeAllWorkers(s.workers), creation := Abandoned)
    case Open => s.(creation := Opened)
    case RunWorker(w, wakee) => WorkerSection(s, w, wakee)
    case FallAsleep(w) => SetPhase(s, w, Asleep)
    case WakeWorker(w, timedOut) => SetPhase(s, w, Woken(timedOut))
    case Finish(w, failed) => Finished(s, w, failed)
    case Call(task) => s.(producers := s.producers + [Producer(task, Calling)])
    case RunProducer(p, wakee, late) => ProducerSection(s, p, wakee, late)
    case WakeProducer(p) => SetStage(s, p, Roused)
    case ReserveExtra(p) =>
      if FirstFree(s.active) < |s.active| then SetStage(Reserve(s, false), p, Creating(|s.workers|))
      else SetStage(s, p, Returned(0))
    case CreateExtra(p, ok) =>
      var w := s.producers[p].stage.w;
      SetStage(if ok then SetPhase(s, w, Ready) else Release(s, w), p, Returned(0))
    case Shutdown => CloseDown(s)
  }
}
