/** What every reachable state of the thread pool satisfies. */
module PoolSafety {
  import opened Basics
  import opened Sums
  import opened PoolModel

  function IsActive(b: bool): nat { One(b) }
  function IsLive(w: Worker): nat { One(w.phase != Exited) }
  function IsAsleep(w: Worker): nat { One(w.phase == Asleep) }
  function IsWoken(w: Worker): nat { One(w.phase.Woken?) }
  function IsWaiting(p: Producer): nat { One(p.stage == Waiting) }
  function IsRoused(p: Producer): nat { One(p.stage == Roused) }
  function IsAccepted(p: Producer): nat {
    One(p.stage == MustSpawn || p.stage.Creating? || p.stage == Returned(0))
  }

  /** Tasks being processed right now. */
  function InFlight(ws: seq<Worker>): multiset<int> {
    if ws == [] then multiset{} else TaskOf(ws[0]) + InFlight(ws[1..])
  }

  function TaskOf(w: Worker): multiset<int> {
    if w.phase.Busy? then multiset{w.phase.task} else multiset{}
  }

  /** Slots: live workers hold different active slots, and numWorkers counts them. */
  ghost predicate SlotsOk(s: State) {
    && |s.active| == s.maxSize
    && s.numWorkers == Sum(s.active, IsActive) == Sum(s.workers, IsLive)
    && (forall w :: 0 <= w < |s.workers| && s.workers[w].phase != Exited ==>
          s.workers[w].slot < s.maxSize && s.active[s.workers[w].slot])
    && (forall v, w :: 0 <= v < w < |s.workers| && s.workers[v].phase != Exited && s.workers[w].phase != Exited ==>
          s.workers[v].slot != s.workers[w].slot)
  }

  /** Tasks: accepted == dequeued + queued; dequeued == being processed or processed. */
  ghost predicate TasksOk(s: State) {
    && |s.queue| <= s.capacity
    && s.accepted == s.taken + s.queue
    && multiset(s.taken) == InFlight(s.workers) + multiset(s.done)
    && |s.accepted| == Sum(s.producers, IsAccepted)
    && forall p :: 0 <= p < |s.producers| && s.producers[p].stage.Returned? ==> s.producers[p].stage.rc in {0, -1}
  }

  /** pool creation has given up, and the flag is set. */
  predicate GaveUp(s: State) {
    s.creation == Flagged || s.creation == Abandoned
  }

  /** No lost wake-up, for workers: sleepers only while every queued task has a woken worker, and
      in an opened pool only before shutdown. */
  ghost predicate WorkersWake(s: State) {
    Sum(s.workers, IsAsleep) > 0 ==> |s.queue| <= Sum(s.workers, IsWoken) && (s.shutdown ==> GaveUp(s))
  }

  /** And for producers: sleepers only while every free place has a woken producer. */
  ghost predicate ProducersWake(s: State) {
    && (Sum(s.producers, IsWaiting) > 0 ==>
          s.capacity - |s.queue| <= Sum(s.producers, IsRoused) && !s.shutdown)
  }

  /** At most one worker is about to sleep; nothing was queued when it looked, and nothing has
      been since.  The flag can have been set meanwhile only if creation gave up. */
  ghost predicate MutexOk(s: State) {
    && (forall v, w :: 0 <= v < w < |s.workers| ==> !(s.workers[v].phase == s.workers[w].phase == Dozing))
    && (!MutexFree(s) ==> s.queue == [] && (s.shutdown ==> GaveUp(s)))
  }

  /** Core workers are the first coreSize ones, all created before the pool opens. */
  ghost predicate CoreShape(s: State) {
    && 1 <= s.coreSize && 1 <= s.capacity
    && (s.creation != Opened ==> |s.workers| <= s.coreSize && s.producers == [] && s.queue == [])
    && (s.creation == Opened ==> s.coreSize <= |s.workers| && s.coreSize <= s.maxSize)
    && (s.creation != Opened ==> (s.shutdown <==> GaveUp(s)))
    && (forall w :: 0 <= w < |s.workers| ==> (s.workers[w].core <==> w < s.coreSize))
    && (forall w :: 0 <= w < |s.workers| && w < s.coreSize && s.creation != Spawning ==> s.workers[w].phase != Reserved)
    && (forall w :: 0 <= w < |s.workers| - 1 && s.creation == Spawning ==> s.workers[w].phase != Reserved)
    && (forall w :: 0 <= w < |s.workers| && s.workers[w].phase == Woken(true) ==> !s.workers[w].core)
    && (s.creation == Failed || GaveUp(s) ==> |s.workers| == s.coreSize ==> s.workers[|s.workers| - 1].phase == Exited)
  }

  /** They stay until the pool is shut down and drained. */
  ghost predicate CoreLive(s: State) {
    s.creation == Spawning || (s.creation == Opened && (!s.shutdown || s.queue != [])) ==>
      forall w :: 0 <= w < |s.workers| && w < s.coreSize ==> s.workers[w].phase != Exited
  }

  ghost predicate CoreOk(s: State) {
    CoreShape(s) && CoreLive(s)
  }

  /** Some producer is about to create worker number w. */
  ghost predicate HasOwner(ps: seq<Producer>, w: nat) {
    exists p :: 0 <= p < |ps| && ps[p].stage == Creating(w)
  }

  lemma StillOwned(ps: seq<Producer>, ps': seq<Producer>, w: nat)
    requires HasOwner(ps, w) && |ps| <= |ps'|
    requires forall p :: 0 <= p < |ps| && ps[p].stage == Creating(w) ==> ps'[p].stage == ps[p].stage
    ensures HasOwner(ps', w)
  {
    var p :| 0 <= p < |ps| && ps[p].stage == Creating(w);
    assert ps'[p].stage == Creating(w);
  }

  /** Every slot reserved for an extra worker belongs to one producer about to create it. */
  ghost predicate OwnersOk(s: State) {
    && (forall p :: 0 <= p < |s.producers| && s.producers[p].stage.Creating? ==>
          s.coreSize <= s.producers[p].stage.w < |s.workers| && s.workers[s.producers[p].stage.w].phase == Reserved)
    && (forall p, q :: 0 <= p < q < |s.producers|
                       && s.producers[p].stage.Creating? && s.producers[q].stage.Creating? ==>
          s.producers[p].stage.w != s.producers[q].stage.w)
    && (forall w :: s.coreSize <= w < |s.workers| && s.workers[w].phase == Reserved ==>
          HasOwner(s.producers, w))
  }

  ghost predicate BaseInv(s: State) {
    SlotsOk(s) && TasksOk(s) && WorkersWake(s) && ProducersWake(s) && CoreOk(s) && OwnersOk(s)
  }

  ghost predicate Inv(s: State) {
    BaseInv(s) && MutexOk(s)
  }

  lemma InitInv(capacity: nat, coreSize: nat, maxSize: nat)
    requires 1 <= capacity && 1 <= coreSize
    ensures Inv(Init(capacity, coreSize, maxSize))
  {
    InitSlots(capacity, coreSize, maxSize);
    InitCore(capacity, coreSize, maxSize);
    InitRest(Init(capacity, coreSize, maxSize));
  }

  lemma InitRest(s: State)
    requires s.queue == s.accepted == s.taken == s.done == [] && s.workers == [] && s.producers == []
    ensures TasksOk(s) && WorkersWake(s) && ProducersWake(s) && OwnersOk(s)
  {
  }

  lemma InitCore(capacity: nat, coreSize: nat, maxSize: nat)
    requires 1 <= capacity && 1 <= coreSize
    ensures CoreOk(Init(capacity, coreSize, maxSize)) && MutexOk(Init(capacity, coreSize, maxSize))
  {
  }

  lemma InitSlots(capacity: nat, coreSize: nat, maxSize: nat)
    ensures SlotsOk(Init(capacity, coreSize, maxSize))
  {
    var s := Init(capacity, coreSize, maxSize);
    SumZero(s.active, IsActive);
    assert Sum(s.active, IsActive) == 0;
  }

  // ---- counting through one change -------------------------------------------------------

  lemma {:induction false} InFlightUpdate(ws: seq<Worker>, i: nat, w: Worker)
    requires i < |ws|
    ensures InFlight(ws[i := w]) + TaskOf(ws[i]) == InFlight(ws) + TaskOf(w)
  {
    var us := ws[i := w];
    if i == 0 {
      assert us[1..] == ws[1..];
    } else {
      InFlightUpdate(ws[1..], i - 1, w);
      assert us[1..] == ws[1..][i - 1 := w];
      var a, x, y := TaskOf(ws[0]), InFlight(us[1..]), InFlight(ws[1..]);
      assert InFlight(us) == a + x && InFlight(ws) == a + y;
      assert x + TaskOf(ws[i]) == y + TaskOf(w);
      assert a + x + TaskOf(ws[i]) == a + (x + TaskOf(ws[i]));
      assert a + y + TaskOf(w) == a + (y + TaskOf(w));
    }
  }

  lemma {:induction false} InFlightAppend(ws: seq<Worker>, w: Worker)
    ensures InFlight(ws + [w]) == InFlight(ws) + TaskOf(w)
  {
    if ws == [] {
      assert ws + [w] == [w];
    } else {
      InFlightAppend(ws[1..], w);
      assert (ws + [w])[1..] == ws[1..] + [w];
    }
  }

  lemma {:induction false} InFlightSame(a: seq<Worker>, b: seq<Worker>)
    requires |a| == |b|
    requires forall i :: 0 <= i < |a| ==> a[i].phase == b[i].phase || (!a[i].phase.Busy? && !b[i].phase.Busy?)
    ensures InFlight(a) == InFlight(b)
  {
    if a != [] {
      InFlightSame(a[1..], b[1..]);
    }
  }

  /** All worker counts after one worker changes phase. */
  lemma PhaseCounts(ws: seq<Worker>, w: nat, phase: Phase)
    requires w < |ws|
    ensures
      var x := ws[w].(phase := phase);
      var ws' := ws[w := x];
      && Sum(ws', IsLive) == Sum(ws, IsLive) + IsLive(x) - IsLive(ws[w])
      && Sum(ws', IsAsleep) == Sum(ws, IsAsleep) + IsAsleep(x) - IsAsleep(ws[w])
      && Sum(ws', IsWoken) == Sum(ws, IsWoken) + IsWoken(x) - IsWoken(ws[w])
      && Sum(ws, IsAsleep) >= IsAsleep(ws[w]) && Sum(ws, IsWoken) >= IsWoken(ws[w])
  {
    var x := ws[w].(phase := phase);
    SumUpdate(ws, w, x, IsLive);
    SumUpdate(ws, w, x, IsAsleep);
    SumUpdate(ws, w, x, IsWoken);
  }

  /** All producer counts after one producer changes stage. */
  lemma StageCounts(ps: seq<Producer>, p: nat, stage: Stage)
    requires p < |ps|
    ensures
      var x := ps[p].(stage := stage);
      var ps' := ps[p := x];
      && Sum(ps', IsWaiting) == Sum(ps, IsWaiting) + IsWaiting(x) - IsWaiting(ps[p])
      && Sum(ps', IsRoused) == Sum(ps, IsRoused) + IsRoused(x) - IsRoused(ps[p])
      && Sum(ps', IsAccepted) == Sum(ps, IsAccepted) + IsAccepted(x) - IsAccepted(ps[p])
      && Sum(ps, IsWaiting) >= IsWaiting(ps[p]) && Sum(ps, IsRoused) >= IsRoused(ps[p])
  {
    var x := ps[p].(stage := stage);
    SumUpdate(ps, p, x, IsWaiting);
    SumUpdate(ps, p, x, IsRoused);
    SumUpdate(ps, p, x, IsAccepted);
  }

  lemma NoneAsleep(ws: seq<Worker>)
    ensures Sum(ws, IsAsleep) == 0 <==> forall w :: 0 <= w < |ws| ==> ws[w].phase != Asleep
  {
    SumZero(ws, IsAsleep);
    assert forall w :: 0 <= w < |ws| ==> (IsAsleep(ws[w]) == 0 <==> ws[w].phase != Asleep);
  }

  lemma NoneWaiting(ps: seq<Producer>)
    ensures Sum(ps, IsWaiting) == 0 <==> forall p :: 0 <= p < |ps| ==> ps[p].stage != Waiting
  {
    SumZero(ps, IsWaiting);
    assert forall p :: 0 <= p < |ps| ==> (IsWaiting(ps[p]) == 0 <==> ps[p].stage != Waiting);
  }

  // ---- one lemma per kind of step --------------------------------------------------------

  /** A worker moves between phases that keep its slot. */
  lemma PhaseKeepsSlots(s: State, w: nat, phase: Phase)
    requires SlotsOk(s) && w < |s.workers| && s.workers[w].phase != Exited && phase != Exited
    ensures SlotsOk(SetPhase(s, w, phase))
  {
    PhaseCounts(s.workers, w, phase);
  }

  lemma ReleaseKeepsSlots(s: State, w: nat)
    requires SlotsOk(s) && w < |s.workers| && s.workers[w].phase != Exited
    ensures SlotsOk(Release(s, w))
  {
    PhaseCounts(s.workers, w, Exited);
    SumUpdate(s.active, s.workers[w].slot, false, IsActive);
  }

  lemma ReserveKeepsSlots(s: State, core: bool)
    requires SlotsOk(s) && FirstFree(s.active) < |s.active|
    ensures SlotsOk(Reserve(s, core))
  {
    var slot := FirstFree(s.active);
    SumUpdate(s.active, slot, true, IsActive);
    SumAppend(s.workers, Worker(slot, core, Reserved), IsLive);
  }

  lemma PhaseKeepsCore(s: State, w: nat, phase: Phase)
    requires CoreOk(s) && w < |s.workers| && phase != Reserved
    requires s.workers[w].phase == Exited ==> phase == Exited
    requires phase == Exited ==> !s.workers[w].core || (s.shutdown && (s.creation == Opened ==> s.queue == []))
    requires phase == Woken(true) ==> !s.workers[w].core
    ensures CoreOk(SetPhase(s, w, phase))
  {
  }

  lemma PhaseKeepsOwners(s: State, w: nat, phase: Phase)
    requires OwnersOk(s) && w < |s.workers| && phase != Reserved && s.workers[w].phase != Reserved
    ensures OwnersOk(SetPhase(s, w, phase))
  {
    var s' := SetPhase(s, w, phase);
    forall v | s.coreSize <= v < |s'.workers| && s'.workers[v].phase == Reserved
      ensures HasOwner(s'.producers, v)
    {
      assert s.workers[v].phase == Reserved;
    }
  }

  /** Neither before nor after is the worker processing a task. */
  lemma PhaseKeepsTasks(s: State, w: nat, phase: Phase)
    requires TasksOk(s) && w < |s.workers| && !s.workers[w].phase.Busy? && !phase.Busy?
    ensures TasksOk(SetPhase(s, w, phase))
  {
    InFlightSame(s.workers, s.workers[w := s.workers[w].(phase := phase)]);
  }

  /** Producers may change stage freely, as far as slots and core workers are concerned. */
  lemma StageKeepsOwners(s: State, p: nat, stage: Stage)
    requires OwnersOk(s) && p < |s.producers| && !stage.Creating? && !s.producers[p].stage.Creating?
    ensures OwnersOk(SetStage(s, p, stage))
  {
    var s' := SetStage(s, p, stage);
    forall v | s.coreSize <= v < |s'.workers| && s'.workers[v].phase == Reserved
      ensures HasOwner(s'.producers, v)
    {
      StillOwned(s.producers, s'.producers, v);
    }
  }

  lemma StageKeepsRest(s: State, p: nat, stage: Stage)
    requires SlotsOk(s) && WorkersWake(s) && CoreOk(s) && p < |s.producers|
    ensures
      var t := SetStage(s, p, stage);
      SlotsOk(t) && WorkersWake(t) && CoreOk(t)
  {
  }

  lemma WakeWorkerInv(s: State, w: nat, timedOut: bool)
    requires BaseInv(s) && w < |s.workers| && s.workers[w].phase == Asleep && (timedOut ==> !s.workers[w].core)
    ensures BaseInv(SetPhase(s, w, Woken(timedOut)))
  {
    PhaseKeepsSlots(s, w, Woken(timedOut));
    PhaseKeepsTasks(s, w, Woken(timedOut));
    PhaseKeepsCore(s, w, Woken(timedOut));
    PhaseKeepsOwners(s, w, Woken(timedOut));
    PhaseCounts(s.workers, w, Woken(timedOut));
  }

  lemma FinishedTasks(s: State, w: nat, failed: bool)
    requires TasksOk(s) && w < |s.workers| && s.workers[w].phase.Busy?
    ensures TasksOk(Finished(s, w, failed))
  {
    var task := s.workers[w].phase.task;
    var x := s.workers[w].(phase := Ready);
    InFlightUpdate(s.workers, w, x);
    assert TaskOf(x) == multiset{};
    var f, f' := InFlight(s.workers), InFlight(s.workers[w := x]);
    assert f == f' + multiset{task};
    assert multiset(s.done + [task]) == multiset(s.done) + multiset{task};
    assert f' + (multiset(s.done) + multiset{task}) == f' + multiset{task} + multiset(s.done);
  }

  lemma FinishedWorkers(s: State, w: nat, failed: bool)
    requires CoreOk(s) && OwnersOk(s) && SlotsOk(s) && w < |s.workers| && s.workers[w].phase.Busy?
    ensures CoreOk(Finished(s, w, failed)) && OwnersOk(Finished(s, w, failed)) && SlotsOk(Finished(s, w, failed))
  {
    PhaseKeepsSlots(s, w, Ready);
    PhaseKeepsCore(s, w, Ready);
    PhaseKeepsOwners(s, w, Ready);
    assert SetPhase(s, w, Ready).workers == Finished(s, w, failed).workers;
  }

  lemma FinishInv(s: State, w: nat, failed: bool)
    requires BaseInv(s) && w < |s.workers| && s.workers[w].phase.Busy?
    ensures BaseInv(Finished(s, w, failed))
  {
    FinishedTasks(s, w, failed);
    FinishedWorkers(s, w, failed);
    PhaseCounts(s.workers, w, Ready);
  }

  lemma DozeInv(s: State, w: nat)
    requires BaseInv(s) && w < |s.workers| && (s.workers[w].phase == Ready || s.workers[w].phase.Woken?)
    requires s.queue == [] && !s.shutdown
    ensures BaseInv(SetPhase(s, w, Dozing))
  {
    PhaseKeepsSlots(s, w, Dozing);
    PhaseKeepsTasks(s, w, Dozing);
    PhaseKeepsCore(s, w, Dozing);
    PhaseKeepsOwners(s, w, Dozing);
    PhaseCounts(s.workers, w, Dozing);
  }

  lemma SleepInv(s: State, w: nat)
    requires Inv(s) && w < |s.workers| && s.workers[w].phase == Dozing
    ensures BaseInv(SetPhase(s, w, Asleep))
  {
    PhaseKeepsSlots(s, w, Asleep);
    PhaseKeepsTasks(s, w, Asleep);
    PhaseKeepsCore(s, w, Asleep);
    PhaseKeepsOwners(s, w, Asleep);
    PhaseCounts(s.workers, w, Asleep);
  }

  lemma ReleaseKeepsTasks(s: State, w: nat)
    requires TasksOk(s) && w < |s.workers| && s.workers[w].slot < |s.active| && !s.workers[w].phase.Busy?
    ensures TasksOk(Release(s, w))
  {
    PhaseKeepsTasks(s, w, Exited);
  }

  lemma ReleaseKeepsCore(s: State, w: nat)
    requires CoreOk(s) && w < |s.workers| && s.workers[w].slot < |s.active|
    requires !s.workers[w].core || (s.shutdown && (s.creation == Opened ==> s.queue == []))
    ensures CoreOk(Release(s, w))
  {
    PhaseKeepsCore(s, w, Exited);
    assert SetPhase(s, w, Exited).workers == Release(s, w).workers;
  }

  lemma ReleaseKeepsOwners(s: State, w: nat)
    requires OwnersOk(s) && w < |s.workers| && s.workers[w].slot < |s.active| && s.workers[w].phase != Reserved
    ensures OwnersOk(Release(s, w))
  {
    PhaseKeepsOwners(s, w, Exited);
    assert SetPhase(s, w, Exited).workers == Release(s, w).workers;
  }

  /** A worker leaves: an extra one when idle, any one once the pool is drained. */
  lemma LeaveInv(s: State, w: nat)
    requires BaseInv(s) && w < |s.workers| && (s.workers[w].phase == Ready || s.workers[w].phase.Woken?)
    requires s.queue == [] && (s.shutdown || !s.workers[w].core)
    ensures BaseInv(Release(s, w))
  {
    ReleaseKeepsSlots(s, w);
    ReleaseKeepsTasks(s, w);
    ReleaseKeepsCore(s, w);
    ReleaseKeepsOwners(s, w);
    PhaseCounts(s.workers, w, Exited);
  }

  /** The state right after taking the first task, before signalling a producer. */
  function Dequeued(s: State, w: nat): State
    requires w < |s.workers| && s.queue != []
  {
    SetPhase(s, w, Busy(s.queue[0])).(queue := s.queue[1..], taken := s.taken + [s.queue[0]])
  }

  lemma DequeuedTasks(s: State, w: nat)
    requires TasksOk(s) && w < |s.workers| && !s.workers[w].phase.Busy? && s.queue != []
    ensures TasksOk(Dequeued(s, w))
  {
    var task := s.queue[0];
    var x := s.workers[w].(phase := Busy(task));
    InFlightUpdate(s.workers, w, x);
    var f, f' := InFlight(s.workers), InFlight(s.workers[w := x]);
    assert f' == f + multiset{task};
    assert multiset(s.taken + [task]) == multiset(s.taken) + multiset{task};
    assert f + multiset(s.done) + multiset{task} == f + multiset{task} + multiset(s.done);
    assert s.taken + s.queue == s.taken + [task] + s.queue[1..];
  }

  lemma DequeuedWorkers(s: State, w: nat)
    requires CoreOk(s) && OwnersOk(s) && SlotsOk(s) && w < |s.workers| && s.queue != []
    requires s.workers[w].phase == Ready || s.workers[w].phase.Woken?
    ensures CoreOk(Dequeued(s, w)) && OwnersOk(Dequeued(s, w)) && SlotsOk(Dequeued(s, w))
  {
    var b := Busy(s.queue[0]);
    PhaseKeepsSlots(s, w, b);
    PhaseKeepsCore(s, w, b);
    PhaseKeepsOwners(s, w, b);
    assert SetPhase(s, w, b).workers == Dequeued(s, w).workers;
  }

  lemma DequeueInv(s: State, w: nat)
    requires BaseInv(s) && w < |s.workers| && (s.workers[w].phase == Ready || s.workers[w].phase.Woken?)
    requires s.queue != []
    ensures
      var t := Dequeued(s, w);
      SlotsOk(t) && TasksOk(t) && WorkersWake(t) && CoreOk(t) && OwnersOk(t)
  {
    DequeuedWorkers(s, w);
    DequeuedTasks(s, w);
    PhaseCounts(s.workers, w, Busy(s.queue[0]));
  }

  /** Signalling a producer after a task was taken makes up for the place that became free. */
  lemma SignalledInv(s: State, t: State, wakee: Option<nat>)
    requires SlotsOk(t) && TasksOk(t) && WorkersWake(t) && CoreOk(t) && OwnersOk(t)
    requires ProducersWake(s) && SignalsProducer(s, wakee)
    requires t.producers == s.producers && t.capacity == s.capacity && t.shutdown == s.shutdown
    requires |t.queue| == |s.queue| - 1
    ensures BaseInv(if wakee.None? then t else SetStage(t, wakee.value, Roused))
  {
    NoneWaiting(s.producers);
    if wakee.Some? {
      RousedRest(t, wakee.value);
      StageCounts(t.producers, wakee.value, Roused);
    }
  }

  lemma RousedRest(s: State, p: nat)
    requires TasksOk(s) && CoreOk(s) && OwnersOk(s) && SlotsOk(s) && WorkersWake(s)
    requires p < |s.producers| && s.producers[p].stage == Waiting
    ensures
      var t := SetStage(s, p, Roused);
      TasksOk(t) && CoreOk(t) && OwnersOk(t) && SlotsOk(t) && WorkersWake(t)
  {
    StageKeepsOwners(s, p, Roused);
    StageKeepsRest(s, p, Roused);
    StageCounts(s.producers, p, Roused);
  }

  // ---- producers -------------------------------------------------------------------------

  lemma RejectInv(s: State, p: nat)
    requires BaseInv(s) && p < |s.producers| && (s.producers[p].stage == Calling || s.producers[p].stage == Roused)
    requires s.shutdown
    ensures BaseInv(SetStage(s, p, Returned(-1)))
  {
    StageKeepsOwners(s, p, Returned(-1));
    StageKeepsRest(s, p, Returned(-1));
    StageCounts(s.producers, p, Returned(-1));
  }

  lemma WaitInv(s: State, p: nat)
    requires BaseInv(s) && p < |s.producers| && (s.producers[p].stage == Calling || s.producers[p].stage == Roused)
    requires !s.shutdown && |s.queue| >= s.capacity
    ensures BaseInv(SetStage(s, p, Waiting))
  {
    StageKeepsOwners(s, p, Waiting);
    StageKeepsRest(s, p, Waiting);
    StageCounts(s.producers, p, Waiting);
  }

  lemma RouseInv(s: State, p: nat)
    requires BaseInv(s) && p < |s.producers| && s.producers[p].stage == Waiting
    ensures BaseInv(SetStage(s, p, Roused))
  {
    RousedRest(s, p);
    StageCounts(s.producers, p, Roused);
  }

  /** The state after putting producer p's task into the queue and setting its stage. */
  function Enqueued(s: State, p: nat, stage: Stage): State
    requires p < |s.producers|
  {
    var task := s.producers[p].task;
    SetStage(s.(queue := s.queue + [task], accepted := s.accepted + [task]), p, stage)
  }

  /** A task is queued; the signal for it comes next. */
  lemma EnqueuedRest(s: State, p: nat, stage: Stage)
    requires BaseInv(s) && p < |s.producers| && (s.producers[p].stage == Calling || s.producers[p].stage == Roused)
    requires !s.shutdown && |s.queue| < s.capacity && s.creation == Opened && stage in {MustSpawn, Returned(0)}
    ensures
      var t := Enqueued(s, p, stage);
      SlotsOk(t) && TasksOk(t) && ProducersWake(t) && CoreOk(t)
  {
    StageCounts(s.producers, p, stage);
    var task := s.producers[p].task;
    assert s.accepted + [task] == s.taken + (s.queue + [task]);
  }

  lemma EnqueuedOwners(s: State, p: nat, stage: Stage)
    requires OwnersOk(s) && p < |s.producers| && !s.producers[p].stage.Creating? && !stage.Creating?
    ensures OwnersOk(Enqueued(s, p, stage))
  {
    StageKeepsOwners(s, p, stage);
    assert Enqueued(s, p, stage).producers == SetStage(s, p, stage).producers;
  }

  lemma EnqueueInv(s: State, p: nat, stage: Stage, wakee: Option<nat>, late: bool)
    requires BaseInv(s) && p < |s.producers| && (s.producers[p].stage == Calling || s.producers[p].stage == Roused)
    requires !s.shutdown && |s.queue| < s.capacity && s.creation == Opened && stage in {MustSpawn, Returned(0)}
    requires SignalsWorker(s, wakee) && (late ==> wakee.Some? && !s.workers[wakee.value].core)
    ensures
      var t := Enqueued(s, p, stage);
      BaseInv(if wakee.None? then t else SetPhase(t, wakee.value, Woken(late)))
  {
    EnqueuedRest(s, p, stage);
    EnqueuedOwners(s, p, stage);
    NoneAsleep(s.workers);
    if wakee.Some? {
      EnqueuedWakes(Enqueued(s, p, stage), wakee.value, late);
    }
  }

  /** One more task than the sleepers are ready for, and one of them is woken. */
  lemma EnqueuedWakes(t: State, w: nat, late: bool)
    requires SlotsOk(t) && TasksOk(t) && ProducersWake(t) && CoreOk(t) && OwnersOk(t) && !t.shutdown
    requires w < |t.workers| && t.workers[w].phase == Asleep && (late ==> !t.workers[w].core)
    requires |t.queue| <= Sum(t.workers, IsWoken) + 1
    ensures BaseInv(SetPhase(t, w, Woken(late)))
  {
    PhaseKeepsSlots(t, w, Woken(late));
    PhaseKeepsTasks(t, w, Woken(late));
    PhaseKeepsCore(t, w, Woken(late));
    PhaseKeepsOwners(t, w, Woken(late));
    PhaseCounts(t.workers, w, Woken(late));
  }

  lemma CallInv(s: State, task: int)
    requires BaseInv(s) && s.creation == Opened
    ensures BaseInv(s.(producers := s.producers + [Producer(task, Calling)]))
  {
    CallTasks(s, task);
    CallWakes(s, task);
    CallOwners(s, task);
  }

  lemma CallTasks(s: State, task: int)
    requires TasksOk(s)
    ensures TasksOk(s.(producers := s.producers + [Producer(task, Calling)]))
  {
    SumAppend(s.producers, Producer(task, Calling), IsAccepted);
  }

  lemma CallWakes(s: State, task: int)
    requires ProducersWake(s)
    ensures ProducersWake(s.(producers := s.producers + [Producer(task, Calling)]))
  {
    SumAppend(s.producers, Producer(task, Calling), IsWaiting);
    SumAppend(s.producers, Producer(task, Calling), IsRoused);
  }

  lemma CallOwners(s: State, task: int)
    requires OwnersOk(s)
    ensures OwnersOk(s.(producers := s.producers + [Producer(task, Calling)]))
  {
    var s' := s.(producers := s.producers + [Producer(task, Calling)]);
    forall w | s.coreSize <= w < |s.workers| && s.workers[w].phase == Reserved
      ensures HasOwner(s'.producers, w)
    {
      StillOwned(s.producers, s'.producers, w);
    }
  }

  // ---- spawning and shutting down --------------------------------------------------------

  lemma ReserveCounts(s: State, core: bool)
    requires FirstFree(s.active) < |s.active|
    ensures
      var t := Reserve(s, core);
      && Sum(t.workers, IsAsleep) == Sum(s.workers, IsAsleep)
      && Sum(t.workers, IsWoken) == Sum(s.workers, IsWoken)
      && InFlight(t.workers) == InFlight(s.workers)
  {
    var x := Worker(FirstFree(s.active), core, Reserved);
    SumAppend(s.workers, x, IsAsleep);
    SumAppend(s.workers, x, IsWoken);
    InFlightAppend(s.workers, x);
  }

  lemma ReserveCoreRest(s: State)
    requires CoreOk(s) && OwnersOk(s) && s.creation == Spawning && |s.workers| < s.coreSize && FirstFree(s.active) < |s.active|
    requires forall w :: 0 <= w < |s.workers| ==> s.workers[w].phase != Reserved
    ensures CoreOk(Reserve(s, true)) && OwnersOk(Reserve(s, true))
  {
  }

  lemma ReserveCoreInv(s: State)
    requires BaseInv(s) && s.creation == Spawning && |s.workers| < s.coreSize && FirstFree(s.active) < |s.active|
    requires forall w :: 0 <= w < |s.workers| ==> s.workers[w].phase != Reserved
    ensures BaseInv(Reserve(s, true))
  {
    ReserveKeepsSlots(s, true);
    ReserveCounts(s, true);
    ReserveCoreRest(s);
  }

  /** A producer reserves a slot for an extra worker. */
  lemma ReservedOwners(s: State, p: nat)
    requires OwnersOk(s) && p < |s.producers| && s.producers[p].stage == MustSpawn
    requires FirstFree(s.active) < |s.active| && s.coreSize <= |s.workers|
    ensures OwnersOk(SetStage(Reserve(s, false), p, Creating(|s.workers|)))
  {
    var t := SetStage(Reserve(s, false), p, Creating(|s.workers|));
    forall v | s.coreSize <= v < |t.workers| && t.workers[v].phase == Reserved
      ensures HasOwner(t.producers, v)
    {
      if v < |s.workers| {
        StillOwned(s.producers, t.producers, v);
      } else {
        assert t.producers[p].stage == Creating(v);
      }
    }
  }

  lemma ReservedWakes(s: State, p: nat)
    requires BaseInv(s) && p < |s.producers| && s.producers[p].stage == MustSpawn
    requires FirstFree(s.active) < |s.active|
    ensures
      var t := SetStage(Reserve(s, false), p, Creating(|s.workers|));
      WorkersWake(t) && ProducersWake(t) && TasksOk(t)
  {
    ReserveCounts(s, false);
    StageCounts(s.producers, p, Creating(|s.workers|));
  }

  lemma ReserveExtraInv(s: State, p: nat)
    requires BaseInv(s) && p < |s.producers| && s.producers[p].stage == MustSpawn
    requires FirstFree(s.active) < |s.active|
    ensures BaseInv(SetStage(Reserve(s, false), p, Creating(|s.workers|)))
  {
    ReserveKeepsSlots(s, false);
    ReservedOwners(s, p);
    ReservedWakes(s, p);
  }

  lemma NoSlotInv(s: State, p: nat)
    requires BaseInv(s) && p < |s.producers| && s.producers[p].stage == MustSpawn
    ensures BaseInv(SetStage(s, p, Returned(0)))
  {
    StageKeepsOwners(s, p, Returned(0));
    StageKeepsRest(s, p, Returned(0));
    StageCounts(s.producers, p, Returned(0));
  }

  /** The thread of a reserved extra worker is created, or creation fails and is rolled back. */
  lemma CreatedOwners(s: State, t: State, p: nat)
    requires OwnersOk(s) && p < |s.producers| && s.producers[p].stage.Creating?
    requires t.producers == s.producers[p := s.producers[p].(stage := Returned(0))] && t.coreSize == s.coreSize
    requires
      var w := s.producers[p].stage.w;
      && |t.workers| == |s.workers| && w < |s.workers| && t.workers[w].phase != Reserved
      && forall v :: 0 <= v < |s.workers| && v != w ==> t.workers[v] == s.workers[v]
    ensures OwnersOk(t)
  {
    forall v | s.coreSize <= v < |t.workers| && t.workers[v].phase == Reserved
      ensures HasOwner(t.producers, v)
    {
      StillOwned(s.producers, t.producers, v);
    }
  }

  lemma CreatedInv(s: State, p: nat)
    requires BaseInv(s) && p < |s.producers| && s.producers[p].stage.Creating?
    ensures
      var w := s.producers[p].stage.w;
      w < |s.workers| && BaseInv(SetStage(SetPhase(s, w, Ready), p, Returned(0)))
  {
    var w := s.producers[p].stage.w;
    var t := SetStage(SetPhase(s, w, Ready), p, Returned(0));
    PhaseKeepsSlots(s, w, Ready);
    PhaseKeepsTasks(s, w, Ready);
    PhaseKeepsCore(s, w, Ready);
    PhaseCounts(s.workers, w, Ready);
    StageCounts(s.producers, p, Returned(0));
    CreatedOwners(s, t, p);
  }

  lemma RolledBackInv(s: State, p: nat)
    requires BaseInv(s) && p < |s.producers| && s.producers[p].stage.Creating?
    ensures
      var w := s.producers[p].stage.w;
      w < |s.workers| && s.workers[w].slot < |s.active| && BaseInv(SetStage(Release(s, w), p, Returned(0)))
  {
    var w := s.producers[p].stage.w;
    var u := Release(s, w);
    ReleaseKeepsSlots(s, w);
    ReleaseKeepsTasks(s, w);
    ReleaseKeepsCore(s, w);
    PhaseCounts(s.workers, w, Exited);
    StageKeepsRest(u, p, Returned(0));
    StageCounts(s.producers, p, Returned(0));
    CreatedOwners(s, SetStage(u, p, Returned(0)), p);
  }

  lemma CoreCreatedInv(s: State, w: nat)
    requires BaseInv(s) && s.creation == Spawning && w == |s.workers| - 1 && s.workers[w].phase == Reserved
    ensures BaseInv(SetPhase(s, w, Ready))
  {
    PhaseKeepsSlots(s, w, Ready);
    PhaseKeepsTasks(s, w, Ready);
    PhaseKeepsCore(s, w, Ready);
    PhaseCounts(s.workers, w, Ready);
  }

  lemma WokenAll(s: State)
    ensures
      var t := CloseDown(s);
      && Sum(t.workers, IsAsleep) == 0 && Sum(t.producers, IsWaiting) == 0
      && Sum(t.workers, IsLive) == Sum(s.workers, IsLive)
      && Sum(t.producers, IsAccepted) == Sum(s.producers, IsAccepted)
      && InFlight(t.workers) == InFlight(s.workers)
  {
    var t := CloseDown(s);
    NoneAsleep(t.workers);
    NoneWaiting(t.producers);
    SumPointwise(t.workers, s.workers, IsLive, IsLive);
    SumPointwise(t.producers, s.producers, IsAccepted, IsAccepted);
    InFlightSame(t.workers, s.workers);
  }

  lemma CloseDownOwners(s: State)
    requires OwnersOk(s)
    ensures OwnersOk(CloseDown(s))
  {
    var t := CloseDown(s);
    forall v | s.coreSize <= v < |t.workers| && t.workers[v].phase == Reserved
      ensures HasOwner(t.producers, v)
    {
      assert s.workers[v].phase == Reserved;
      StillOwned(s.producers, t.producers, v);
    }
  }

  lemma CloseDownSlots(s: State)
    requires SlotsOk(s)
    ensures SlotsOk(CloseDown(s))
  {
    WokenAll(s);
  }

  lemma CloseDownCore(s: State)
    requires CoreOk(s) && s.creation == Opened
    ensures CoreOk(CloseDown(s))
  {
    var t := CloseDown(s);
    assert forall w :: 0 <= w < |s.workers| ==>
      t.workers[w].core == s.workers[w].core && t.workers[w].phase.Exited? == s.workers[w].phase.Exited?;
  }

  lemma CloseDownInv(s: State)
    requires BaseInv(s) && s.creation == Opened
    ensures BaseInv(CloseDown(s))
  {
    WokenAll(s);
    CloseDownOwners(s);
    CloseDownSlots(s);
    CloseDownCore(s);
  }

  /** Without the creator, no one else holds a reservation yet. */
  lemma ReservedCoreReleased(s: State, w: nat)
    requires CoreOk(s) && OwnersOk(s) && s.creation == Spawning && w == |s.workers| - 1
    requires s.workers[w].phase == Reserved && s.workers[w].slot < |s.active|
    ensures CoreOk(Release(s, w).(creation := Failed)) && OwnersOk(Release(s, w).(creation := Failed))
  {
  }

  lemma CoreFailedInv(s: State, w: nat)
    requires BaseInv(s) && s.creation == Spawning && w == |s.workers| - 1 && s.workers[w].phase == Reserved
    ensures s.workers[w].slot < |s.active| && BaseInv(Release(s, w).(creation := Failed))
  {
    ReleaseKeepsSlots(s, w);
    ReleaseKeepsTasks(s, w);
    ReservedCoreReleased(s, w);
    PhaseCounts(s.workers, w, Exited);
  }

  /** A core worker for which there is no slot. */
  lemma NoCoreSlotInv(s: State)
    requires BaseInv(s) && Enabled(s, ReserveCore)
    ensures BaseInv(s.(creation := Failed))
  {
    CoreFails(s);
  }

  lemma CoreFails(s: State)
    requires CoreOk(s) && Enabled(s, ReserveCore)
    ensures CoreOk(s.(creation := Failed))
  {
  }

  lemma RaiseFlagInv(s: State)
    requires BaseInv(s) && s.creation == Failed
    ensures BaseInv(s.(shutdown := true, creation := Flagged))
  {
  }

  lemma BroadcastInv(s: State)
    requires BaseInv(s) && s.creation == Flagged
    ensures BaseInv(s.(workers := WakeAllWorkers(s.workers), creation := Abandoned))
  {
    WokenAll(s);
    CloseDownSlots(s);
    CloseDownOwners(s);
    BroadcastCore(s);
  }

  lemma BroadcastCore(s: State)
    requires CoreOk(s) && s.creation == Flagged
    ensures CoreOk(s.(workers := WakeAllWorkers(s.workers), creation := Abandoned))
  {
  }

  lemma {:induction false} AtMostLength(active: seq<bool>)
    ensures Sum(active, IsActive) <= |active|
    ensures Sum(active, IsActive) == |active| <==> FirstFree(active) == |active|
  {
    if active != [] {
      AtMostLength(active[1..]);
    }
  }

  /** If nobody has left, all count as live. */
  lemma {:induction false} AllLive(ws: seq<Worker>)
    requires forall w :: 0 <= w < |ws| ==> ws[w].phase != Exited
    ensures Sum(ws, IsLive) == |ws|
  {
    if ws != [] {
      AllLive(ws[1..]);
    }
  }

  /** The pool opens only if there was a slot for each core worker. */
  lemma OpenFits(s: State)
    requires SlotsOk(s) && CoreOk(s) && Enabled(s, Open)
    ensures s.coreSize <= s.maxSize
  {
    AllLive(s.workers);
    AtMostLength(s.active);
  }

  lemma OpenCore(s: State)
    requires SlotsOk(s) && CoreOk(s) && Enabled(s, Open)
    ensures CoreOk(s.(creation := Opened))
  {
    OpenFits(s);
  }

  lemma OpenInv(s: State)
    requires BaseInv(s) && Enabled(s, Open)
    ensures BaseInv(s.(creation := Opened))
  {
    OpenCore(s);
  }

  // ---- all steps, all runs ---------------------------------------------------------------

  lemma WorkerSectionInv(s: State, w: nat, wakee: Option<nat>)
    requires BaseInv(s) && Enabled(s, RunWorker(w, wakee))
    ensures BaseInv(WorkerSection(s, w, wakee))
  {
    if s.queue == [] {
      if s.shutdown || (s.workers[w].phase == Woken(true) && !s.workers[w].core) {
        LeaveInv(s, w);
      } else {
        DozeInv(s, w);
      }
    } else {
      DequeueInv(s, w);
      SignalledInv(s, Dequeued(s, w), wakee);
    }
  }

  lemma ProducerSectionInv(s: State, p: nat, wakee: Option<nat>, late: bool)
    requires BaseInv(s) && Enabled(s, RunProducer(p, wakee, late))
    ensures BaseInv(ProducerSection(s, p, wakee, late))
  {
    if s.shutdown {
      RejectInv(s, p);
    } else if |s.queue| >= s.capacity {
      WaitInv(s, p);
    } else {
      var stage := if s.numWorkers < s.maxSize then MustSpawn else Returned(0);
      EnqueueInv(s, p, stage, wakee, late);
      var t := Enqueued(s, p, stage);
      assert ProducerSection(s, p, wakee, late)
          == if wakee.None? then t else SetPhase(t, wakee.value, Woken(late));
    }
  }

  /** Creation of the core workers. */
  lemma CreateCoreInv(s: State, ok: bool)
    requires BaseInv(s) && Enabled(s, CreateCore(ok))
    ensures BaseInv(Do(s, CreateCore(ok)))
  {
    var w := |s.workers| - 1;
    if ok {
      CoreCreatedInv(s, w);
      assert Do(s, CreateCore(ok)) == SetPhase(s, w, Ready);
    } else {
      CoreFailedInv(s, w);
      assert Do(s, CreateCore(ok)) == Release(s, w).(creation := Failed);
    }
  }

  lemma ExtraStepInv(s: State, p: nat)
    requires BaseInv(s) && Enabled(s, ReserveExtra(p))
    ensures BaseInv(Do(s, ReserveExtra(p)))
  {
    if FirstFree(s.active) < |s.active| {
      ReserveExtraInv(s, p);
      assert Do(s, ReserveExtra(p)) == SetStage(Reserve(s, false), p, Creating(|s.workers|));
    } else {
      NoSlotInv(s, p);
      assert Do(s, ReserveExtra(p)) == SetStage(s, p, Returned(0));
    }
  }

  lemma CreateExtraInv(s: State, p: nat, ok: bool)
    requires BaseInv(s) && Enabled(s, CreateExtra(p, ok))
    ensures BaseInv(Do(s, CreateExtra(p, ok)))
  {
    var w := s.producers[p].stage.w;
    if ok {
      CreatedInv(s, p);
      assert Do(s, CreateExtra(p, ok)) == SetStage(SetPhase(s, w, Ready), p, Returned(0));
    } else {
      RolledBackInv(s, p);
      assert Do(s, CreateExtra(p, ok)) == SetStage(Release(s, w), p, Returned(0));
    }
  }

  /** Steps of worker threads. */
  lemma WorkerStepInv(s: State, step: Step)
    requires Inv(s) && Enabled(s, step) && (step.RunWorker? || step.FallAsleep? || step.WakeWorker?)
    ensures BaseInv(Do(s, step))
  {
    match step
    case RunWorker(w, wakee) =>
      WorkerSectionInv(s, w, wakee);
      assert Do(s, step) == WorkerSection(s, w, wakee);
    case FallAsleep(w) =>
      SleepInv(s, w);
      assert Do(s, step) == SetPhase(s, w, Asleep);
    case WakeWorker(w, timedOut) =>
      WakeWorkerInv(s, w, timedOut);
      assert Do(s, step) == SetPhase(s, w, Woken(timedOut));
  }

  /** Steps of the threads that call add_task. */
  lemma ProducerStepInv(s: State, step: Step)
    requires BaseInv(s) && Enabled(s, step) && (step.Call? || step.RunProducer? || step.WakeProducer?)
    ensures BaseInv(Do(s, step))
  {
    match step
    case Call(task) =>
      CallInv(s, task);
      assert Do(s, step) == s.(producers := s.producers + [Producer(task, Calling)]);
    case RunProducer(p, wakee, late) =>
      ProducerSectionInv(s, p, wakee, late);
      assert Do(s, step) == ProducerSection(s, p, wakee, late);
    case WakeProducer(p) =>
      RouseInv(s, p);
      assert Do(s, step) == SetStage(s, p, Roused);
  }

  /** Steps of the thread that creates the pool. */
  lemma CreationStepInv(s: State, step: Step)
    requires BaseInv(s) && Enabled(s, step)
    requires step.ReserveCore? || step.CreateCore? || step.RaiseFlag? || step.Broadcast? || step.Open?
    ensures BaseInv(Do(s, step))
  {
    match step
    case ReserveCore =>
      if FirstFree(s.active) < |s.active| {
        ReserveCoreInv(s);
        assert Do(s, step) == Reserve(s, true);
      } else {
        NoCoreSlotInv(s);
      }
    case CreateCore(ok) => CreateCoreInv(s, ok);
    case RaiseFlag => RaiseFlagInv(s);
    case Broadcast => BroadcastInv(s);
    case Open => OpenInv(s);
  }

  lemma BaseStepInv(s: State, step: Step)
    requires Inv(s) && Enabled(s, step)
    ensures BaseInv(Do(s, step))
  {
    match step
    case RunWorker(_, _) => WorkerStepInv(s, step);
    case FallAsleep(_) => WorkerStepInv(s, step);
    case WakeWorker(_, _) => WorkerStepInv(s, step);
    case Finish(w, failed) => FinishInv(s, w, failed);
    case Call(_) => ProducerStepInv(s, step);
    case RunProducer(_, _, _) => ProducerStepInv(s, step);
    case WakeProducer(_) => ProducerStepInv(s, step);
    case ReserveExtra(p) => ExtraStepInv(s, p);
    case CreateExtra(p, ok) => CreateExtraInv(s, p, ok);
    case Shutdown => CloseDownInv(s);
    case _ => CreationStepInv(s, step);
  }

  /** A step that makes no worker doze and leaves queue and flag alone. */
  lemma MutexKept(s: State, t: State)
    requires MutexOk(s) && |s.workers| <= |t.workers|
    requires forall w :: 0 <= w < |t.workers| && t.workers[w].phase == Dozing ==>
               w < |s.workers| && s.workers[w].phase == Dozing
    requires !MutexFree(s) ==>
               t.queue == s.queue && (t.shutdown ==> GaveUp(t) || (s.shutdown && t.creation == s.creation))
    ensures MutexOk(t)
  {
  }

  lemma MutexWorkerStep(s: State, step: Step)
    requires MutexOk(s) && Enabled(s, step)
    requires step.RunWorker? || step.FallAsleep? || step.WakeWorker? || step.Finish?
    ensures MutexOk(Do(s, step))
  {
  }

  lemma MutexProducerStep(s: State, step: Step)
    requires MutexOk(s) && Enabled(s, step)
    requires step.Call? || step.RunProducer? || step.WakeProducer? || step.ReserveExtra? || step.CreateExtra?
    ensures MutexOk(Do(s, step))
  {
    MutexKept(s, Do(s, step));
  }

  lemma MutexCreationStep(s: State, step: Step)
    requires MutexOk(s) && CoreShape(s) && Enabled(s, step)
    requires step.ReserveCore? || step.CreateCore? || step.RaiseFlag? || step.Broadcast? || step.Open? || step.Shutdown?
    ensures MutexOk(Do(s, step))
  {
    MutexKept(s, Do(s, step));
  }

  /** The mutex is respected by every step. */
  lemma MutexStep(s: State, step: Step)
    requires Inv(s) && Enabled(s, step)
    ensures MutexOk(Do(s, step))
  {
    if step.RunWorker? || step.FallAsleep? || step.WakeWorker? || step.Finish? {
      MutexWorkerStep(s, step);
    } else if step.Call? || step.RunProducer? || step.WakeProducer? || step.ReserveExtra? || step.CreateExtra? {
      MutexProducerStep(s, step);
    } else {
      MutexCreationStep(s, step);
    }
  }

  /** Every step keeps the invariant. */
  lemma StepInv(s: State, step: Step)
    requires Inv(s) && Enabled(s, step)
    ensures Inv(Do(s, step))
  {
    BaseStepInv(s, step);
    MutexStep(s, step);
  }

  /** The states of a run: each step is enabled where it is taken. */
  ghost predicate Run(s: State, steps: seq<Step>, t: State)
    decreases |steps|
  {
    if steps == [] then s == t
    else Enabled(s, steps[0]) && Run(Do(s, steps[0]), steps[1..], t)
  }

  lemma {:induction false} RunInv(s: State, steps: seq<Step>, t: State)
    requires Inv(s) && Run(s, steps, t)
    ensures Inv(t)
    decreases |steps|
  {
    if steps != [] {
      StepInv(s, steps[0]);
      RunInv(Do(s, steps[0]), steps[1..], t);
    }
  }

  ghost predicate Reachable(s: State) {
    exists capacity: nat, coreSize: nat, maxSize: nat, steps ::
      1 <= capacity && 1 <= coreSize && Run(Init(capacity, coreSize, maxSize), steps, s)
  }

  lemma ReachableInv(s: State)
    requires Reachable(s)
    ensures Inv(s)
  {
    var capacity: nat, coreSize: nat, maxSize: nat, steps :|
      1 <= capacity && 1 <= coreSize && Run(Init(capacity, coreSize, maxSize), steps, s);
    InitInv(capacity, coreSize, maxSize);
    RunInv(Init(capacity, coreSize, maxSize), steps, s);
  }
}
