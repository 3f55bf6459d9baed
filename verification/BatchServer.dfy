/** The data of the batch server: queue array, semaphore value, flag and statistics.  Each
    method refines steps of BatchModel. */
module BatchServer {
  import opened BatchModel
  import opened Ring

  /** From the last dot on, as strrchr finds it; empty if there is none. */
  function Extension(name: string): string {
    if name == "" then ""
    else if Extension(name[1..]) != "" then Extension(name[1..])
    else if name[0] == '.' then name else ""
  }

  predicate IsRequest(name: string) {
    Extension(name) == ".req"
  }

  /** A name is a request file exactly when it ends in .req. */
  lemma {:induction false} RequestSuffix(name: string)
    ensures IsRequest(name) <==> |name| >= 4 && name[|name| - 4..] == ".req"
  {
    if name != "" {
      RequestSuffix(name[1..]);
      var n := |name|;
      if n > 4 {
        assert name[n - 4..] == name[1..][n - 5..];
        SuffixDot(name);
      } else if n == 4 {
        assert name[0..] == name;
        ShortExtension(name);
      }
    }
  }

  /** The extension starts with a dot and has no other. */
  lemma {:induction false} SuffixDot(name: string)
    ensures Extension(name) != "" ==> Extension(name)[0] == '.' && |Extension(name)| <= |name|
    ensures |name| > 4 && Extension(name) == ".req" ==> Extension(name[1..]) == ".req"
  {
    if name != "" {
      SuffixDot(name[1..]);
    }
  }

  lemma ShortExtension(name: string)
    requires |name| == 4
    ensures Extension(name) == ".req" <==> name == ".req"
  {
    SuffixDot(name[1..]);
    if name == ".req" {
      assert Extension("q") == "" && Extension("eq") == "" && Extension("req") == "";
      assert name[1..] == "req";
    }
  }

  /** The request paths of a directory listing, in order. */
  function Requests(entries: seq<string>): seq<string> {
    if entries == [] then []
    else (if IsRequest(entries[0]) then [Truncated("requests/" + entries[0])] else []) + Requests(entries[1..])
  }

  /** A queue entry has room for 511 characters. */
  function Truncated(path: string): string {
    if |path| > 511 then path[..511] else path
  }

  /** A path that fits is kept as it is, of a longer one the first 511 characters. */
  lemma TruncatedMeans(path: string)
    ensures |path| < 512 ==> Truncated(path) == path
    ensures |path| >= 512 ==> |Truncated(path)| == 511 && Truncated(path) <= path
  {
  }

  lemma {:induction false} RequestsConcat(a: seq<string>, b: seq<string>)
    ensures Requests(a + b) == Requests(a) + Requests(b)
  {
    if a == [] {
      assert a + b == b;
    } else {
      RequestsConcat(a[1..], b);
      assert (a + b)[0] == a[0] && (a + b)[1..] == a[1..] + b;
    }
  }

  /** Entry by entry: a name that ends in .req and fits gives its path below requests/, any other
      name none. */
  lemma RequestOf(name: string)
    requires |name| <= 502
    ensures Requests([name]) ==
      if |name| >= 4 && name[|name| - 4..] == ".req" then ["requests/" + name] else []
  {
    RequestSuffix(name);
    assert [name][1..] == [];
  }

  function First(s: seq<string>, n: nat): seq<string> {
    if |s| <= n then s else s[..n]
  }

  /** The state after queueing some files one by one. */
  function EnqueueAll(s: State, files: seq<string>): State {
    s.(queue := s.queue + files, files := s.files + files, semaphore := s.semaphore + |files|)
  }

  lemma {:induction false} EnqueueAllRun(s: State, files: seq<string>) returns (steps: seq<Step>)
    requires s.stage.Scanning? && |s.queue| + |files| <= MAX_REQ_FILES
    ensures Run(s, steps, EnqueueAll(s, files))
    decreases |files|
  {
    if files == [] {
      assert EnqueueAll(s, files) == s;
      steps := [];
    } else {
      var t := Do(s, BatchModel.Enqueue(files[0]));
      var rest := EnqueueAllRun(t, files[1..]);
      assert s.queue + files == s.queue + [files[0]] + files[1..];
      assert s.files + files == s.files + [files[0]] + files[1..];
      assert EnqueueAll(t, files[1..]) == EnqueueAll(s, files);
      steps := [BatchModel.Enqueue(files[0])] + rest;
      assert steps[1..] == rest;
    }
  }

  lemma NextRequest(entries: seq<string>, i: nat, queued: seq<string>)
    requires i < |entries|
    ensures
      var queued' := if IsRequest(entries[i]) then queued + [Truncated("requests/" + entries[i])] else queued;
      queued + Requests(entries[i..]) == queued' + Requests(entries[i + 1..])
    ensures IsRequest(entries[i]) ==> Requests(entries[i..]) != []
  {
    assert entries[i..][0] == entries[i] && entries[i..][1..] == entries[i + 1..];
  }

  lemma FirstIs(queued: seq<string>, rest: seq<string>, room: nat)
    requires |queued| <= room && (rest == [] || |queued| == room)
    ensures First(queued + rest, room) == queued
  {
  }

  class Server {
    const requestQueue: array<string>
    var queueCount: nat
    var queueHead: nat
    var queueTail: nat
    var doneFlag: bool
    var tasksSem: nat
    var totalProcessed: int
    var totalErrors: int
    ghost var model: State

    ghost predicate Valid()
      reads this, requestQueue
    {
      && requestQueue.Length == MAX_REQ_FILES
      && queueCount == |model.queue| && Holds(requestQueue[..], queueHead, model.queue)
      && queueTail == Wrap(queueHead + queueCount, MAX_REQ_FILES)
      && doneFlag == model.doneFlag && tasksSem == model.semaphore
      && totalProcessed == model.processed && totalErrors == model.errors
    }

    constructor ()
      ensures Valid() && fresh(requestQueue) && model == INIT
    {
      requestQueue := new string[MAX_REQ_FILES](_ => "");
      queueCount, queueHead, queueTail, doneFlag, tasksSem := 0, 0, 0, false, 0;
      totalProcessed, totalErrors := 0, 0;
      model := INIT;
    }

    /** Phase 1: one queue entry and one permit for each request file, while there is room. */
    method Scan(entries: seq<string>)
      requires Valid() && model.stage.Scanning?
      modifies this, requestQueue
      ensures Valid()
      ensures
        var room := 64 - |old(model.queue)|;
        room >= 0 && model == EnqueueAll(old(model), First(Requests(entries), room))
    {
      ghost var s := model;
      ghost var room := MAX_REQ_FILES - |model.queue|;
      ghost var queued: seq<string> := [];
      assert EnqueueAll(s, queued) == s;
      var i := 0;
      while i < |entries|
        invariant i <= |entries| && Valid() && |queued| <= room && room == MAX_REQ_FILES - |s.queue|
        invariant model == EnqueueAll(s, queued)
        invariant queued + Requests(entries[i..]) == Requests(entries)
      {
        NextRequest(entries, i, queued);
        if IsRequest(entries[i]) {
          if queueCount >= MAX_REQ_FILES {
            break;
          }
          var path := Truncated("requests/" + entries[i]);
          Enqueue(path);
          EnqueueOne(s, queued, path);
          queued := queued + [path];
        }
        i := i + 1;
      }
      FirstIs(queued, Requests(entries[i..]), room);
    }

    method Enqueue(path: string)
      requires Valid() && Enabled(model, BatchModel.Enqueue(path))
      modifies this, requestQueue
      ensures Valid() && model == Do(old(model), BatchModel.Enqueue(path))
    {
      Pushed(requestQueue[..], queueHead, model.queue, path);
      requestQueue[queueTail] := path;
      WrapIsRemainder(queueTail + 1, MAX_REQ_FILES);
      queueTail := (queueTail + 1) % MAX_REQ_FILES;
      queueCount := queueCount + 1;
      tasksSem := tasksSem + 1;
      model := Do(model, BatchModel.Enqueue(path));
    }

    method MarkDone()
      requires Valid() && Enabled(model, SetDone)
      modifies this
      ensures Valid() && model == Do(old(model), SetDone)
    {
      doneFlag := true;
      model := Do(model, SetDone);
    }

    /** The permits that let every worker find out that there is nothing left. */
    method PostExits()
      requires Valid() && model.stage == Posting(0)
      modifies this
      ensures Valid() && tasksSem == old(tasksSem) + 4
      ensures model == old(model).(stage := Spawning(0), semaphore := old(model).semaphore + NUM_WORKERS)
    {
      var i := 0;
      ghost var s := model;
      while i < NUM_WORKERS
        invariant i <= NUM_WORKERS && Valid()
        invariant model == s.(semaphore := s.semaphore + i,
                              stage := if i < NUM_WORKERS then Posting(i) else Spawning(0))
      {
        tasksSem := tasksSem + 1;
        model := Do(model, Post);
        i := i + 1;
      }
    }

    method TakePermit(ghost w: nat)
      requires Valid() && Enabled(model, SemWait(w))
      modifies this
      ensures Valid() && model == Do(old(model), SemWait(w))
    {
      tasksSem := tasksSem - 1;
      model := Do(model, SemWait(w));
    }

    /** A worker holding a permit looks at the queue: it takes a file, leaves, or would wait. */
    method TakeFile(ghost w: nat) returns (phase: Phase)
      requires Valid() && Enabled(model, LookAtQueue(w))
      modifies this
      ensures Valid() && model == Do(old(model), LookAtQueue(w)) && phase == model.workers[w]
      ensures old(queueCount) > 0 ==> phase == Working(requestQueue[old(queueHead)]) && queueCount == old(queueCount) - 1
      ensures old(queueCount) == 0 ==> phase == if doneFlag then Exited else Blocked
    {
      ghost var next := Do(model, LookAtQueue(w));
      if queueCount == 0 {
        phase := if doneFlag then Exited else Blocked;
      } else {
        Popped(requestQueue[..], queueHead, model.queue);
        phase := Working(requestQueue[queueHead]);
        WrapIsRemainder(queueHead + 1, MAX_REQ_FILES);
        queueHead := (queueHead + 1) % MAX_REQ_FILES;
        queueCount := queueCount - 1;
      }
      model := next;
    }

    /** The statistics after a file. */
    method Count(result: Result, ghost w: nat)
      requires Valid() && Enabled(model, BatchModel.Finish(w, result))
      modifies this
      ensures Valid() && model == Do(old(model), BatchModel.Finish(w, result))
      ensures totalProcessed == old(totalProcessed) + if result.Processed? then 1 else 0
      ensures totalErrors == old(totalErrors) + if result.Processed? then result.badRequests else 1
    {
      ghost var next := Do(model, BatchModel.Finish(w, result));
      match result {
        case CannotOpen => totalErrors := totalErrors + 1;
        case Processed(bad) =>
          totalProcessed := totalProcessed + 1;
          if bad > 0 {
            totalErrors := totalErrors + bad;
          }
      }
      model := next;
    }
  }

  lemma EnqueueOne(s: State, files: seq<string>, path: string)
    requires Enabled(EnqueueAll(s, files), BatchModel.Enqueue(path))
    ensures Do(EnqueueAll(s, files), BatchModel.Enqueue(path)) == EnqueueAll(s, files + [path])
  {
    assert s.queue + files + [path] == s.queue + (files + [path]);
    assert s.files + files + [path] == s.files + (files + [path]);
  }
}
