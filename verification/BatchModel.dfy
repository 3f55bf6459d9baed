/**
 The batch server of src/process_server.c as a transition system: a scan fills a queue and
 posts one permit a file, then one permit a worker; workers take a permit before they look
 at the queue.
 */
module BatchModel {
  import opened Sums

  const MAX_REQ_FILES: nat := 64
  const NUM_WORKERS: nat := 4

  /** Where a worker is.  Permitted: past sem_wait, not yet at the queue.  Blocked: in the
      condition wait. */
  datatype Phase = AtSemaphore | Permitted | Blocked | Working(file: string) | Exited

  /** Where the starting thread is; the numbers count permits posted and threads attempted. */
  datatype Stage = Scanning | Posting(posted: nat) | Spawning(tried: nat) | Joining

  /** files, taken: what was queued and dequeued so far, in order. */
  datatype State = State(
    stage: Stage, queue: seq<string>, semaphore: nat, doneFlag: bool, workers: seq<Phase>,
    processed: nat, failed: nat, errors: nat, files: seq<string>, taken: seq<string>)

  const INIT: State := State(Scanning, [], 0, false, [], 0, 0, 0, [], [])

  /** How the processing of a file ends: not even opened, or with a number of bad requests. */
  datatype Result = CannotOpen | Processed(badRequests: nat)

  datatype Step =
    | Enqueue(file: string)
    | SetDone
    | Post
    | Spawn(ok: bool)
    | SemWait(w: nat)
    | LookAtQueue(w: nat)
    | Finish(w: nat, result: Result)

  predicate Enabled(s: State, step: Step) {
    match step
    case Enqueue(_) => s.stage.Scanning? && |s.queue| < MAX_REQ_FILES
    case SetDone => s.stage.Scanning?
    case Post => s.stage.Posting?
    case Spawn(_) => s.stage.Spawning?
    case SemWait(w) => w < |s.workers| && s.workers[w] == AtSemaphore && s.semaphore > 0
    case LookAtQueue(w) => w < |s.workers| && s.workers[w] == Permitted
    case Finish(w, _) => w < |s.workers| && s.workers[w].Working?
  }

  function SetPhase(s: State, w: nat, phase: Phase): State
    requires w < |s.workers|
  {
    s.(workers := s.workers[w := phase])
  }

  function Do(s: State, step: Step): State
    requires Enabled(s, step)
  {
    match step
    case Enqueue(file) =>
      s.(queue := s.queue + [file], files := s.files + [file], semaphore := s.semaphore + 1)
    case SetDone => s.(doneFlag := true, stage := Posting(0))
    case Post =>
      s.(semaphore := s.semaphore + 1,
         stage := if s.stage.posted + 1 < NUM_WORKERS then Posting(s.stage.posted + 1) else Spawning(0))
    case Spawn(ok) =>
      s.(workers := if ok then s.workers + [AtSemaphore] else s.workers,
         stage := if s.stage.tried + 1 < NUM_WORKERS then Spawning(s.stage.tried + 1) else Joining)
    case SemWait(w) => SetPhase(s, w, Permitted).(semaphore := s.semaphore - 1)
    case LookAtQueue(w) =>
      if s.queue == [] then SetPhase(s, w, if s.doneFlag then Exited else Blocked)
      else SetPhase(s, w, Working(s.queue[0])).(queue := s.queue[1..], taken := s.taken + [s.queue[0]])
    case Finish(w, result) =>
      var t := SetPhase(s, w, AtSemaphore);
      if result.CannotOpen? then t.(failed := s.failed + 1, errors := s.errors + 1)
      else t.(processed := s.processed + 1, errors := s.errors + result.badRequests)
  }

  // ---- the invariant ---------------------------------------------------------------------

  function IsPermitted(p: Phase): nat { One(p == Permitted) }
  function IsWorking(p: Phase): nat { One(p.Working?) }
  function IsExited(p: Phase): nat { One(p == Exited) }
  function IsLive(p: Phase): nat { One(p != Exited) }

  function Posted(s: State): nat {
    match s.stage
    case Scanning => 0
    case Posting(n) => n
    case _ => NUM_WORKERS
  }

  /** Every permit is for a queued file or for the exit of a worker. */
  ghost predicate PermitsOk(s: State) {
    && s.semaphore + Sum(s.workers, IsPermitted) + Sum(s.workers, IsExited) == |s.queue| + Posted(s)
    && (s.stage.Scanning? <==> !s.doneFlag)
    && (s.stage.Scanning? || s.stage.Posting? ==> s.workers == [])
    && (s.stage.Posting? ==> s.stage.posted < NUM_WORKERS)
    && (s.stage.Spawning? ==> |s.workers| <= s.stage.tried < NUM_WORKERS)
    && |s.workers| <= NUM_WORKERS
    && forall w :: 0 <= w < |s.workers| ==> s.workers[w] != Blocked
  }

  ghost predicate FilesOk(s: State) {
    && |s.queue| <= MAX_REQ_FILES
    && s.files == s.taken + s.queue
    && |s.taken| == Sum(s.workers, IsWorking) + s.processed + s.failed
    && (Sum(s.workers, IsExited) > 0 ==> s.queue == [])
    && (s.workers == [] ==> s.taken == [])
  }

  ghost predicate Inv(s: State) {
    PermitsOk(s) && FilesOk(s)
  }

  lemma Counts(ws: seq<Phase>, w: nat, p: Phase)
    requires w < |ws|
    ensures
      var ws' := ws[w := p];
      && Sum(ws', IsPermitted) + IsPermitted(ws[w]) == Sum(ws, IsPermitted) + IsPermitted(p)
      && Sum(ws', IsWorking) + IsWorking(ws[w]) == Sum(ws, IsWorking) + IsWorking(p)
      && Sum(ws', IsExited) + IsExited(ws[w]) == Sum(ws, IsExited) + IsExited(p)
  {
    SumUpdate(ws, w, p, IsPermitted);
    SumUpdate(ws, w, p, IsWorking);
    SumUpdate(ws, w, p, IsExited);
  }

  lemma SpawnInv(s: State, ok: bool)
    requires Inv(s) && Enabled(s, Spawn(ok))
    ensures Inv(Do(s, Spawn(ok)))
  {
    SumAppend(s.workers, AtSemaphore, IsPermitted);
    SumAppend(s.workers, AtSemaphore, IsWorking);
    SumAppend(s.workers, AtSemaphore, IsExited);
  }

  lemma EnqueueInv(s: State, file: string)
    requires Inv(s) && Enabled(s, Enqueue(file))
    ensures Inv(Do(s, Enqueue(file)))
  {
    assert s.taken + s.queue + [file] == s.taken + (s.queue + [file]);
  }

  lemma PostInv(s: State)
    requires Inv(s) && Enabled(s, Post)
    ensures Inv(Do(s, Post))
  {
  }

  lemma SemWaitInv(s: State, w: nat)
    requires Inv(s) && Enabled(s, SemWait(w))
    ensures Inv(Do(s, SemWait(w)))
  {
    Counts(s.workers, w, Permitted);
  }

  lemma FinishInv(s: State, w: nat, result: Result)
    requires Inv(s) && Enabled(s, Finish(w, result))
    ensures Inv(Do(s, Finish(w, result)))
  {
    Counts(s.workers, w, AtSemaphore);
  }

  lemma LookInv(s: State, w: nat)
    requires Inv(s) && Enabled(s, LookAtQueue(w))
    ensures Inv(Do(s, LookAtQueue(w)))
  {
    if s.queue == [] {
      Counts(s.workers, w, Exited);
    } else {
      Counts(s.workers, w, Working(s.queue[0]));
    }
  }

  lemma StepInv(s: State, step: Step)
    requires Inv(s) && Enabled(s, step)
    ensures Inv(Do(s, step))
  {
    match step
    case Enqueue(file) => EnqueueInv(s, file);
    case SetDone =>
    case Post => PostInv(s);
    case Spawn(ok) => SpawnInv(s, ok);
    case SemWait(w) => SemWaitInv(s, w);
    case LookAtQueue(w) => LookInv(s, w);
    case Finish(w, result) => FinishInv(s, w, result);
  }

  ghost predicate Run(s: State, steps: seq<Step>, t: State)
    decreases |steps|
  {
    if steps == [] then s == t
    else Enabled(s, steps[0]) && Run(Do(s, steps[0]), steps[1..], t)
  }

  ghost predicate Reachable(s: State) {
    exists steps :: Run(INIT, steps, s)
  }

  lemma {:induction false} RunInv(s: State, steps: seq<Step>, t: State)
    requires Inv(s) && Run(s, steps, t)
    ensures Inv(t)
    decreases |steps|
  {
    if steps != [] {
      StepInv(s, steps[0]);
      RunInv(Do(s, steps[0]), steps[1..], t);
    }
  }

  lemma ReachableInv(s: State)
    requires Reachable(s)
    ensures Inv(s)
  {
    var steps :| Run(INIT, steps, s);
    RunInv(INIT, steps, s);
  }

  // ---- the statistics --------------------------------------------------------------------

  function EndsProcessed(step: Step): nat {
    One(step.Finish? && step.result.Processed?)
  }

  function Creates(step: Step): nat {
    One(step.Spawn? && step.ok)
  }

  function EndsUnopened(step: Step): nat {
    One(step.Finish? && step.result.CannotOpen?)
  }

  function BadRequests(step: Step): nat {
    if step.Finish? && step.result.Processed? then step.result.badRequests else 0
  }

  /** There are as many workers as threads were created.  Over a run, a file that is processed counts as such, and its bad requests are errors; one
      that cannot be opened counts as failed and is one error. */
  lemma {:induction false} RunCounts(s: State, steps: seq<Step>, t: State)
    requires Run(s, steps, t)
    ensures |t.workers| == |s.workers| + Sum(steps, Creates)
    ensures t.processed == s.processed + Sum(steps, EndsProcessed)
    ensures t.failed == s.failed + Sum(steps, EndsUnopened)
    ensures t.errors == s.errors + Sum(steps, EndsUnopened) + Sum(steps, BadRequests)
    decreases |steps|
  {
    if steps != [] {
      RunCounts(Do(s, steps[0]), steps[1..], t);
    }
  }

  // ---- consequences ----------------------------------------------------------------------

  lemma {:induction false} LiveOrExited(ws: seq<Phase>)
    ensures Sum(ws, IsLive) + Sum(ws, IsExited) == |ws|
  {
    if ws != [] {
      LiveOrExited(ws[1..]);
    }
  }

  /** With all workers created: permits left and permits held are for queued files and live workers. */
  lemma PermitAccounting(s: State)
    requires Reachable(s) && |s.workers| == NUM_WORKERS
    ensures s.semaphore + Sum(s.workers, IsPermitted) == |s.queue| + Sum(s.workers, IsLive)
  {
    ReachableInv(s);
    LiveOrExited(s.workers);
  }

  /** The condition variable is never waited on: workers exist only once the flag is set. */
  lemma NeverBlocked(s: State, w: nat)
    requires Reachable(s) && w < |s.workers|
    ensures s.workers[w] != Blocked && s.doneFlag
  {
    ReachableInv(s);
  }

  /** Files are taken in the order of the scan, each at most once, and accounted for. */
  lemma FilesTakenOnce(s: State)
    requires Reachable(s)
    ensures s.files == s.taken + s.queue
    ensures |s.taken| == Sum(s.workers, IsWorking) + s.processed + s.failed
  {
    ReachableInv(s);
  }

  predicate OfWorker(step: Step) {
    step.SemWait? || step.LookAtQueue? || step.Finish?
  }

  /** No worker is left behind: as long as one is alive, one of them can go on. */
  lemma NotStuck(s: State, w: nat) returns (step: Step)
    requires Inv(s) && w < |s.workers| && s.workers[w] != Exited
    ensures Enabled(s, step) && OfWorker(step)
  {
    if s.workers[w] == Permitted {
      step := LookAtQueue(w);
    } else if s.workers[w].Working? {
      step := Finish(w, CannotOpen);
    } else if v :| 0 <= v < |s.workers| && s.workers[v] == Permitted {
      step := LookAtQueue(v);
    } else {
      SumZero(s.workers, IsPermitted);
      LiveOrExited(s.workers);
      SumZero(s.workers, IsLive);
      assert IsLive(s.workers[w]) == 1;
      step := SemWait(w);
    }
  }

  function Work(p: Phase): nat {
    match p
    case AtSemaphore => 2
    case Permitted => 1
    case Blocked => 1
    case Working(_) => 3
    case Exited => 0
  }

  /** An upper bound for the steps the workers still take. */
  function Remaining(s: State): nat {
    3 * |s.queue| + Sum(s.workers, Work)
  }

  lemma WorkersProgress(s: State, step: Step)
    requires Inv(s) && Enabled(s, step) && OfWorker(step)
    ensures Remaining(Do(s, step)) < Remaining(s)
  {
    match step
    case SemWait(w) => SumUpdate(s.workers, w, Permitted, Work);
    case LookAtQueue(w) =>
      if s.queue == [] {
        SumUpdate(s.workers, w, Exited, Work);
      } else {
        SumUpdate(s.workers, w, Working(s.queue[0]), Work);
      }
    case Finish(w, _) => SumUpdate(s.workers, w, AtSemaphore, Work);
    case _ =>
  }

  /** The joins return: while they wait, no run is longer than the work that it does, and a run
      that cannot go on has seen all workers leave. */
  lemma {:induction false} JoinsReturn(s: State, steps: seq<Step>, t: State)
    requires Inv(s) && s.stage.Joining? && Run(s, steps, t)
    ensures |steps| + Remaining(t) <= Remaining(s)
    ensures (forall step :: !Enabled(t, step)) ==> AllExited(t)
    decreases |steps|
  {
    if steps != [] {
      WorkersProgress(s, steps[0]);
      StepInv(s, steps[0]);
      JoinsReturn(Do(s, steps[0]), steps[1..], t);
    } else if w :| 0 <= w < |t.workers| && t.workers[w] != Exited {
      var step := NotStuck(t, w);
    }
  }

  predicate AllExited(s: State) {
    forall w :: 0 <= w < |s.workers| ==> s.workers[w] == Exited
  }

  /** Every file of the scan was dequeued exactly once, in order, and processed or reported as
      failed. */
  predicate AllHandled(s: State) {
    s.queue == [] && s.taken == s.files && s.processed + s.failed == |s.files|
  }

  /** When the joins are over, that is so exactly if some worker was created or there was no file. */
  lemma AllFilesHandled(s: State)
    requires Reachable(s) && s.stage.Joining? && AllExited(s)
    ensures AllHandled(s) <==> s.workers != [] || s.files == []
  {
    ReachableInv(s);
    LiveOrExited(s.workers);
    SumZero(s.workers, IsLive);
    SumZero(s.workers, IsWorking);
  }
}
