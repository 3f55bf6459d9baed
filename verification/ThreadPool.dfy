/**
 The data of the thread pool: the circular task buffer, the slot table and the counters.
 One method per stretch of code that runs under the pool mutex; each refines a step of
 PoolModel, whose state is kept in the ghost field `model`.
 */
module ThreadPool {
  import opened Basics
  import opened PoolModel
  import opened PoolCreation
  import opened Ring

  const MAX_POOL_WORKERS: nat := 64

  /** What a worker does once it has released the mutex. */
  datatype Outcome = Sleeps | Leaves | Handles(fd: int)

  /** What thread_pool_add_task does once it has released the mutex. */
  datatype Verdict = Rejects | Waits | Queues(spawn: bool)

  class Pool {
    const tasks: array<int>
    const active: array<bool>
    const capacity: nat
    const coreSize: nat
    const maxSize: nat
    var count: nat
    var head: nat
    var tail: nat
    var numWorkers: int
    var shutdown: bool
    var totalProcessed: int
    var totalErrors: int
    ghost var model: State

    /** The fields represent the state of the model; what the model's states satisfy is shown in
        PoolSafety and PoolTheorems. */
    ghost predicate Valid()
      reads this, tasks, active
    {
      && capacity == model.capacity
      && coreSize == model.coreSize && maxSize == model.maxSize == active.Length
      && active[..] == model.active && numWorkers == model.numWorkers
      && shutdown == model.shutdown
      && Buffers(model.queue)
      && totalProcessed == |model.done| && totalErrors == model.errors
    }

    /** Sizes as accepted by thread_pool_create, before any worker exists. */
    constructor (coreSize: nat, maxSize: nat, capacity: nat)
      requires coreSize >= 1 && maxSize >= coreSize && capacity >= 1
      ensures Valid() && fresh(tasks) && fresh(active)
      ensures model == Init(capacity, coreSize, if maxSize > MAX_POOL_WORKERS then MAX_POOL_WORKERS else maxSize)
    {
      var m := if maxSize > MAX_POOL_WORKERS then MAX_POOL_WORKERS else maxSize;
      this.tasks := new int[capacity](_ => 0);
      var slots := new bool[m](_ => false);
      this.active := slots;
      this.capacity, this.coreSize, this.maxSize := capacity, coreSize, m;
      count, head, tail, numWorkers := 0, 0, 0, 0;
      shutdown, totalProcessed, totalErrors := false, 0, 0;
      model := Init(capacity, coreSize, m);
      assert slots[..] == Init(capacity, coreSize, m).active;
    }

    /** head, tail and count describe the queue held by the buffer. */
    ghost predicate Buffers(queue: seq<int>)
      reads this, tasks
    {
      && tasks.Length == capacity > 0 && count == |queue|
      && Holds(tasks[..], head, queue) && tail == Wrap(head + count, capacity)
    }

    method Dequeue(ghost queue: seq<int>) returns (fd: int)
      requires Buffers(queue) && queue != []
      modifies this`head, this`count
      ensures fd == queue[0] == tasks[old(head)] && Buffers(queue[1..])
      ensures count == old(count) - 1 && head == (old(head) + 1) % capacity
    {
      Popped(tasks[..], head, queue);
      fd := tasks[head];
      WrapIsRemainder(head + 1, capacity);
      head := (head + 1) % capacity;
      count := count - 1;
    }

    method Enqueue(fd: int, ghost queue: seq<int>)
      requires Buffers(queue) && |queue| < capacity
      modifies this`tail, this`count, tasks
      ensures Buffers(queue + [fd])
      ensures tasks[..] == old(tasks[..])[old(tail) := fd]
      ensures count == old(count) + 1 && tail == (old(tail) + 1) % capacity
    {
      Pushed(tasks[..], head, queue, fd);
      tasks[tail] := fd;
      WrapIsRemainder(tail + 1, capacity);
      tail := (tail + 1) % capacity;
      count := count + 1;
    }

    /** A worker at the mutex: dequeues, is about to sleep, or gives up its slot and leaves. */
    method WorkerTurn(slot: nat, isCore: bool, timedOut: bool, ghost w: nat, ghost wakee: Option<nat>)
        returns (outcome: Outcome)
      requires Valid() && Enabled(model, RunWorker(w, wakee))
      requires model.workers[w].slot == slot && model.workers[w].core == isCore
      requires timedOut == (model.workers[w].phase == Woken(true))
      modifies this, active
      ensures Valid() && model == Do(old(model), RunWorker(w, wakee))
      ensures match model.workers[w].phase
        case Dozing => outcome == Sleeps
        case Exited => outcome == Leaves
        case Busy(task) => outcome == Handles(task)
        case _ => false
      ensures outcome == Leaves <==> old(count) == 0 && (old(shutdown) || (timedOut && !isCore))
      ensures outcome == Sleeps <==> old(count) == 0 && !old(shutdown) && (isCore || !timedOut)
      ensures old(count) > 0 ==>
        && outcome == Handles(tasks[old(head)])
        && count == old(count) - 1 && head == (old(head) + 1) % capacity && numWorkers == old(numWorkers)
      ensures outcome == Leaves ==> !active[slot] && numWorkers == old(numWorkers) - 1
    {
      ghost var next := Do(model, RunWorker(w, wakee));
      if count == 0 && !shutdown {
        if !isCore && timedOut {
          active[slot] := false;
          numWorkers := numWorkers - 1;
          outcome := Leaves;
        } else {
          outcome := Sleeps;
        }
      } else if count == 0 {
        active[slot] := false;
        numWorkers := numWorkers - 1;
        outcome := Leaves;
      } else {
        var fd := Dequeue(model.queue);
        outcome := Handles(fd);
      }
      model := next;
    }

    /** pthread_cond_wait releases the mutex and sleeps in one step; no data of the pool changes. */
    method Sleep(ghost w: nat)
      requires Valid() && Enabled(model, FallAsleep(w))
      modifies this`model
      ensures Valid() && model == Do(old(model), FallAsleep(w))
    {
      model := Do(model, FallAsleep(w));
    }

    /** A producer at the mutex: is turned away, waits for room, or queues its task. */
    method AddTaskTurn(fd: int, ghost p: nat, ghost wakee: Option<nat>, ghost late: bool) returns (verdict: Verdict)
      requires Valid() && Enabled(model, RunProducer(p, wakee, late)) && model.producers[p].task == fd
      modifies this, tasks
      ensures Valid() && model == Do(old(model), RunProducer(p, wakee, late))
      ensures match model.producers[p].stage
        case Returned(rc) => verdict == if rc == 0 then Queues(false) else Rejects
        case Waiting => verdict == Waits
        case MustSpawn => verdict == Queues(true)
        case _ => false
      ensures verdict == Rejects <==> old(shutdown)
      ensures verdict == Waits <==> !old(shutdown) && old(count) >= capacity
      ensures verdict == Queues(true) <==> !old(shutdown) && old(count) < capacity && old(numWorkers) < maxSize
      ensures verdict.Queues? ==>
        && tasks[..] == old(tasks[..])[old(tail) := fd]
        && count == old(count) + 1 && tail == (old(tail) + 1) % capacity
      ensures !verdict.Queues? ==> tasks[..] == old(tasks[..]) && count == old(count) && tail == old(tail)
    {
      ghost var next := Do(model, RunProducer(p, wakee, late));
      if shutdown {
        verdict := Rejects;
      } else if count >= capacity {
        verdict := Waits;
      } else {
        Enqueue(fd, model.queue);
        verdict := Queues(count > 0 && numWorkers < maxSize);
      }
      model := next;
    }

    /** First part of spawn_worker: the lowest free slot is taken, or there is none. */
    method TakeSlot() returns (slot: nat)
      requires Valid()
      modifies active, this`numWorkers
      ensures slot == FirstFree(old(active[..]))
      ensures active[..] == if slot < maxSize then old(active[..])[slot := true] else old(active[..])
      ensures numWorkers == old(numWorkers) + if slot < maxSize then 1 else 0
    {
      slot := 0;
      while slot < maxSize && active[slot]
        invariant slot <= maxSize && forall i :: 0 <= i < slot ==> active[i]
      {
        slot := slot + 1;
      }
      FirstFreeIs(active[..], slot);
      if slot < maxSize {
        active[slot] := true;
        numWorkers := numWorkers + 1;
      }
    }

    /** A core slot for pool creation, if there is one. */
    method SpawnCore() returns (slot: nat, ok: bool)
      requires Valid() && Enabled(model, ReserveCore)
      modifies this, active
      ensures Valid() && model == Do(old(model), ReserveCore)
      ensures slot == FirstFree(old(model).active)
      ensures ok <==> slot < |old(model).active|
    {
      ghost var next := Do(model, ReserveCore);
      slot := TakeSlot();
      ok := slot < maxSize;
      model := next;
    }

    /** A slot for an extra worker, if there still is one when the spawning producer gets the mutex. */
    method SpawnExtra(ghost p: nat) returns (ok: bool)
      requires Valid() && Enabled(model, ReserveExtra(p))
      modifies this, active
      ensures Valid() && model == Do(old(model), ReserveExtra(p))
      ensures ok <==> model.producers[p].stage.Creating?
      ensures ok <==> exists i :: 0 <= i < maxSize && !old(active[..])[i]
      ensures numWorkers == old(numWorkers) + if ok then 1 else 0
    {
      ghost var next := Do(model, ReserveExtra(p));
      var slot := TakeSlot();
      ok := slot < maxSize;
      model := next;
    }

    /** pthread_create for a reserved extra worker; on failure its slot is given back. */
    method ThreadCreated(slot: nat, ok: bool, ghost p: nat)
      requires Valid() && Enabled(model, CreateExtra(p, ok))
      requires model.workers[model.producers[p].stage.w].slot == slot
      modifies this, active
      ensures Valid() && model == Do(old(model), CreateExtra(p, ok))
      ensures active[..] == if ok then old(active[..]) else old(active[..])[slot := false]
      ensures numWorkers == old(numWorkers) - if ok then 0 else 1
    {
      ghost var next := Do(model, CreateExtra(p, ok));
      if !ok {
        active[slot] := false;
        numWorkers := numWorkers - 1;
      }
      model := next;
    }

    /** pthread_create for a reserved core worker; on failure its slot is given back. */
    method CoreThreadCreated(slot: nat, ok: bool)
      requires Valid() && Enabled(model, CreateCore(ok)) && model.workers[|model.workers| - 1].slot == slot
      modifies this, active
      ensures Valid() && model == Do(old(model), CreateCore(ok))
      ensures active[..] == if ok then old(active[..]) else old(active[..])[slot := false]
      ensures numWorkers == old(numWorkers) - if ok then 0 else 1
    {
      ghost var next := Do(model, CreateCore(ok));
      if !ok {
        active[slot] := false;
        numWorkers := numWorkers - 1;
      }
      model := next;
    }

    /** The creator gives up: without the mutex it sets the flag and, in a second step, wakes
        the workers that sleep then. */
    method SetFlag()
      requires Valid() && Enabled(model, RaiseFlag)
      modifies this
      ensures Valid() && model == Do(old(model), RaiseFlag)
    {
      ghost var next := Do(model, RaiseFlag);
      shutdown := true;
      model := next;
    }

    /** The sleepers are no data of the pool. */
    method WakeSleepers()
      requires Valid() && Enabled(model, PoolModel.Broadcast)
      modifies this`model
      ensures Valid() && model == Do(old(model), PoolModel.Broadcast)
    {
      model := Do(model, PoolModel.Broadcast);
    }

    /** Between two steps of the creator the workers that are there may do anything they can. */
    ghost method Others()
      requires Valid() && Arisen(model) && (model.creation == Spawning || model.creation == Failed)
      modifies this`model
      ensures Valid() && Arisen(model) && SameData(old(model), model)
    {
      NothingMeanwhile(model);
      var t :| Meanwhile(model, t);
      ArisenMeanwhile(model, t);
      model := t;
    }

    /** Until the creator gets the mutex. */
    ghost method AwaitMutex()
      requires Valid() && Arisen(model) && (model.creation == Spawning || model.creation == Failed)
      modifies this`model
      ensures Valid() && Arisen(model) && SameData(old(model), model) && MutexFree(model)
    {
      var u := MutexComes(model);
      var t :| Meanwhile(model, t) && MutexFree(t);
      ArisenMeanwhile(model, t);
      model := t;
    }

    /** A core slot when the creator gets the mutex, if there is one. */
    method ReserveNext(ghost n: nat) returns (slot: nat, ok: bool)
      requires Valid() && Arisen(model) && n < coreSize && Begun(model, n)
      modifies this, active
      ensures Valid() && Arisen(model) && slot == n && (ok <==> n < maxSize)
      ensures if ok then Reserving(model, n) else model.creation == Failed
    {
      AwaitMutex();
      ghost var t := model;
      BegunReserves(t, n);
      ArisenStep(t, ReserveCore);
      slot, ok := SpawnCore();
    }

    /** The thread for it, while the other workers go on. */
    method CreateNext(slot: nat, created: bool)
      requires Valid() && Arisen(model) && Reserving(model, slot)
      modifies this, active
      ensures Valid() && Arisen(model)
      ensures if created then Begun(model, slot + 1) else model.creation == Failed
    {
      if created {
        Others();
      } else {
        AwaitMutex();
      }
      ghost var t := model;
      ReservingCreates(t, slot, created);
      ArisenStep(t, CreateCore(created));
      CoreThreadCreated(slot, created);
    }

    /** spawn_worker for core worker number n; created says whether its thread can be created. */
    method SpawnCoreWorker(created: bool, ghost n: nat) returns (ok: bool)
      requires Valid() && Arisen(model) && n < coreSize && Begun(model, n)
      modifies this, active
      ensures Valid() && Arisen(model) && (ok <==> n < maxSize && created)
      ensures if ok then Begun(model, n + 1) else model.creation == Failed
    {
      var slot;
      slot, ok := ReserveNext(n);
      if ok {
        ok := created;
        CreateNext(slot, created);
      }
    }

    /** The loop over all core workers. */
    method SpawnCoreWorkers(created: nat -> bool) returns (ok: bool)
      requires Valid() && Arisen(model) && Begun(model, 0)
      modifies this, active
      ensures Valid() && Arisen(model)
      ensures ok <==> coreSize <= maxSize && forall i :: 0 <= i < coreSize ==> created(i)
      ensures if ok then Begun(model, coreSize) else model.creation == Failed
    {
      var i := 0;
      while i < coreSize
        invariant i <= coreSize && Valid() && Arisen(model) && Begun(model, i)
        invariant forall k :: 0 <= k < i ==> created(k)
      {
        ok := SpawnCoreWorker(created(i), i);
        if !ok {
          return;
        }
        i := i + 1;
      }
      ok := true;
    }

    /** All core workers are there. */
    method Complete()
      requires Valid() && Arisen(model) && Begun(model, coreSize)
      modifies this`model
      ensures Valid() && Arisen(model) && model == old(model).(creation := Opened)
    {
      ArisenStep(model, Open);
      model := Do(model, Open);
    }

    /** Creation gives up; how the joins that follow may end is up to PoolCreation. */
    method GiveUp()
      requires Valid() && Arisen(model) && model.creation == Failed
      modifies this
      ensures Valid() && Arisen(model) && model.creation == Abandoned
    {
      Others();
      ArisenStep(model, RaiseFlag);
      SetFlag();
      ArisenStep(model, PoolModel.Broadcast);
      WakeSleepers();
    }

    /** thread_pool_create: memory says whether the pool and its buffer can be allocated, created
        which threads can be.  The workers that are there run as they like all the while. */
    static method Create(coreSize: int, maxSize: int, capacity: int, memory: bool, created: nat -> bool)
        returns (pool: Pool?)
      ensures pool == null <==>
                || coreSize < 1 || maxSize < coreSize || capacity < 1 || !memory
                || coreSize > 64 || exists i :: 0 <= i < coreSize && !created(i)
      ensures pool != null ==>
        var m := if maxSize > 64 then 64 else maxSize;
        && fresh(pool) && pool.Valid() && pool.model.creation == Opened && |pool.model.workers| == coreSize
        && Leads(Init(capacity, coreSize, m), pool.model)
    {
      if coreSize < 1 || maxSize < coreSize || capacity < 1 || !memory {
        return null;
      }
      pool := new Pool(coreSize, maxSize, capacity);
      InitArisen(capacity, coreSize, pool.maxSize);
      var ok := pool.SpawnCoreWorkers(created);
      if !ok {
        pool.GiveUp();
        return null;
      }
      pool.Complete();
    }

    /** A worker has processed its task. */
    method CountProcessed(failed: bool, ghost w: nat)
      requires Valid() && Enabled(model, Finish(w, failed))
      modifies this
      ensures Valid() && model == Do(old(model), Finish(w, failed))
      ensures totalProcessed == old(totalProcessed) + 1
      ensures totalErrors == old(totalErrors) + if failed then 1 else 0
    {
      ghost var next := Do(model, Finish(w, failed));
      totalProcessed := totalProcessed + 1;
      if failed {
        totalErrors := totalErrors + 1;
      }
      model := next;
    }

    method ShutDown()
      requires Valid() && Enabled(model, PoolModel.Shutdown)
      modifies this
      ensures Valid() && model == Do(old(model), PoolModel.Shutdown) && shutdown
    {
      ghost var next := Do(model, PoolModel.Shutdown);
      shutdown := true;
      model := next;
    }
  }

  lemma {:induction false} FirstFreeIs(active: seq<bool>, slot: nat)
    requires slot <= |active| && (slot < |active| ==> !active[slot])
    requires forall i :: 0 <= i < slot ==> active[i]
    ensures FirstFree(active) == slot
  {
    if slot > 0 {
      FirstFreeIs(active[1..], slot - 1);
    }
  }
}
