/** The thread pool's code: each lock-protected section as a method on the pool's fields,
    proved to do what PoolCore says it does. */
module ThreadPool {
  import opened Wrappers
  import opened PoolCore

  function RunSet(cells: seq<int>): set<int> {
    set i | 0 <= i < |cells| && cells[i] != 0
  }

  lemma RunSetUpdate(cells: seq<int>, g: nat, x: int)
    requires g < |cells|
    ensures RunSet(cells[g := x]) == if x != 0 then RunSet(cells) + {g} else RunSet(cells) - {g}
  {
  }

  lemma {:induction false} FirstEligibleAt(q: seq<Task>, run: set<int>, k: nat)
    requires k <= |q| && (forall j :: 0 <= j < k ==> Group(q[j]) in run)
    requires k < |q| ==> Group(q[k]) !in run
    ensures FirstEligible(q, run) == k
  {
    if k > 0 {
      FirstEligibleAt(q[1..], run, k - 1);
    }
  }

  /** One more task in front adds a group unless its id is queued already. */
  lemma GroupsCons(t: Task, rest: seq<Task>)
    ensures QueuedIds([t] + rest) == QueuedIds(rest) + if Group(t) != 0 then {Group(t)} else {}
    ensures Groups([t] + rest) == Groups(rest) + if Group(t) != 0 && Group(t) in QueuedIds(rest) then 0 else 1
  {
    ZeroConcat([t], rest);
    QueuedIdsConcat([t], rest);
    assert [t][1..] == [];
    assert forall u :: u in [t] ==> u == t;
    assert t in [t];
    assert QueuedIds([t]) == if Group(t) != 0 then {Group(t)} else {};
    var ids := QueuedIds(rest);
    if Group(t) != 0 && Group(t) in ids {
      assert ids + {Group(t)} == ids;
    }
  }

  /** What becomes of a task that a worker has just unlinked from the queue. */
  function Handle(s: Shared, t: Task): Section {
    if s.running || !s.immediate then
      Section(s.(run := if Group(t) != 0 then s.run + {Group(t)} else s.run), Runs(t), 0, false, [], 0)
    else
      Exit(s.(taskCount := s.taskCount - 1), [t])
  }

  lemma TakeHandles(sh: Shared, k: nat)
    requires k < |sh.queue|
    ensures Take(sh, k) == Handle(sh.(queue := RemoveAt(sh.queue, k)), sh.queue[k])
  {
  }

  class Pool {
    var queue: seq<Task>
    const idlistrun: array<int>
    var taskcount: int
    var waitingThread: int
    var numThreads: int
    var running: bool
    var immediate: bool
    var waiting: bool
    const maxThreads: nat

    ghost predicate Valid()
      reads this, idlistrun
    {
      idlistrun.Length == ID_LIST_SIZE && forall t :: t in queue ==> ValidTask(t)
    }

    ghost function View(): Shared
      reads this, idlistrun
    {
      Shared(queue, RunSet(idlistrun[..]), taskcount, waitingThread, numThreads, running, immediate, waiting)
    }

    constructor (maxThreads: nat)
      ensures Valid() && fresh(idlistrun) && this.maxThreads == maxThreads
      ensures View() == Shared([], {}, 0, 0, 0, true, false, false)
    {
      queue := [];
      idlistrun := new int[ID_LIST_SIZE](_ => 0);
      taskcount, waitingThread, numThreads := 0, 0, 0;
      running, immediate, waiting := true, false, false;
      this.maxThreads := maxThreads;
    }

    /** Queued groups minus waiting threads, counted with a scratch array. */
    method QueueGroupLength() returns (num: int)
      requires Valid()
      ensures num == GroupLength(View())
    {
      var seen := new int[ID_LIST_SIZE](_ => 0);
      num := 0;
      var i := |queue|;
      while i > 0
        invariant 0 <= i <= |queue|
        invariant num == Groups(queue[i..])
        invariant forall g :: 0 < g < ID_LIST_SIZE ==> (seen[g] != 0 <==> g in QueuedIds(queue[i..]))
      {
        i := i - 1;
        var t := queue[i];
        assert queue[i..] == [t] + queue[i + 1..];
        assert t in queue && ValidTask(t);
        GroupsCons(t, queue[i + 1..]);
        if Group(t) == 0 {
          num := num + 1;
        } else if seen[Group(t)] == 0 {
          num := num + 1;
          seen[Group(t)] := 1;
        }
      }
      assert queue[0..] == queue;
      num := num - waitingThread;
    }

    /** The oldest task whose group is not running. */
    method QueueValidTask() returns (k: nat)
      requires Valid()
      ensures k == FirstEligible(queue, RunSet(idlistrun[..]))
      ensures k <= |queue|
    {
      k := 0;
      while k < |queue|
        invariant k <= |queue|
        invariant forall j :: 0 <= j < k ==> Group(queue[j]) in RunSet(idlistrun[..])
      {
        assert queue[k] in queue;
        if idlistrun[Group(queue[k])] == 0 {
          break;
        }
        k := k + 1;
      }
      FirstEligibleAt(queue, RunSet(idlistrun[..]), k);
    }

    method QueueIdInPool(id: int) returns (found: bool)
      requires Valid() && 0 <= id < ID_LIST_SIZE
      ensures found <==> InPool(View(), id)
    {
      if id == 0 {
        return false;
      }
      if idlistrun[id] != 0 {
        return true;
      }
      var i := |queue|;
      while i > 0
        invariant 0 <= i <= |queue|
        invariant forall j :: i <= j < |queue| ==> Group(queue[j]) != id
      {
        i := i - 1;
        if Group(queue[i]) == id {
          assert queue[i] in queue;
          return true;
        }
      }
      return false;
    }

    method QueuePushUnlocked(t: Task) returns (signals: nat)
      requires Valid() && ValidTask(t)
      modifies this`queue
      ensures Valid() && queue == old(queue) + [t]
      ensures signals == if Group(t) !in RunSet(idlistrun[..]) && waitingThread > 0 then 1 else 0
    {
      queue := queue + [t];
      signals := 0;
      if idlistrun[Group(t)] != 0 {
        return;
      }
      if waitingThread > 0 {
        signals := 1;
      }
    }

    /** Push a task. `canCreate` says whether the system would create a thread now. */
    method ThreadpoolPush(t: Task, canCreate: bool) returns (ret: int, queued: bool, spawned: bool, failed: bool, signals: nat)
      requires Valid()
      modifies this
      ensures Valid()
      ensures PushResult(View(), ret, queued, spawned, failed, signals)
           == Push(old(View()), t, maxThreads, canCreate)
    {
      ret, queued, spawned, failed, signals := 0, false, false, false, 0;
      if !running || Group(t) < 0 || Group(t) > 255 {
        return -1, queued, spawned, failed, signals;
      }
      var inpool := QueueIdInPool(Group(t));
      var length := QueueGroupLength();
      if taskcount >= MAX_QUEUE_COUNT {
        return -1, queued, spawned, failed, signals;
      }
      taskcount := taskcount + 1;
      if !inpool && length >= 0 {
        ret, spawned, failed := StartThread(canCreate);
      }
      queued := true;
      signals := QueuePushUnlocked(t);
    }

    method StartThread(canCreate: bool) returns (ret: int, spawned: bool, failed: bool)
      modifies this`numThreads
      ensures spawned == (old(numThreads) < maxThreads && canCreate)
      ensures failed == (old(numThreads) < maxThreads && !canCreate)
      ensures ret == if failed then -1 else 0
      ensures numThreads == if spawned then old(numThreads) + 1 else old(numThreads)
    {
      if numThreads >= maxThreads {
        return 0, false, false;
      }
      if !canCreate {
        return -1, false, true;
      }
      numThreads := numThreads + 1;
      return 0, true, false;
    }

    method ThreadpoolWakeupStop() returns (signals: nat, tokens: nat)
      requires Valid()
      modifies this`immediate, this`queue
      ensures Valid()
      ensures View() == WakeupStop(old(View()))
      ensures signals == WakeupSignals(old(View())) && tokens == Count(old(numThreads))
    {
      immediate := true;
      signals, tokens := 0, 0;
      while tokens < numThreads
        invariant tokens <= Count(numThreads)
        invariant Valid() && immediate && queue == old(queue) + Tokens(tokens)
        invariant signals == if waitingThread > 0 && 0 !in RunSet(idlistrun[..]) then tokens else 0
      {
        var s := QueuePushUnlocked(Stop);
        signals := signals + s;
        assert Tokens(tokens) + [Stop] == Tokens(tokens + 1);
        tokens := tokens + 1;
      }
    }

    /** A worker with no task leaves. */
    method Leave(dropped: seq<Task>) returns (outcome: Outcome, signals: nat, broadcast: bool, tokens: nat)
      requires Valid()
      modifies this
      ensures Valid()
      ensures Section(View(), outcome, signals, broadcast, dropped, tokens) == Exit(old(View()), dropped)
    {
      var freePool := false;
      signals, broadcast, tokens := 0, false, 0;
      numThreads := numThreads - 1;
      if !running {
        if !waiting {
          if numThreads == 0 {
            freePool := true;
          } else {
            var length := QueueGroupLength();
            if length == -numThreads {
              signals, tokens := ThreadpoolWakeupStop();
            }
          }
        } else if immediate {
          broadcast := true;
        } else {
          var length := QueueGroupLength();
          broadcast := length <= 0;
        }
      }
      outcome := Leaves(freePool);
    }

    /** Look at the queue without blocking more than once: no task and not blocked means leave. */
    method WaitForTask() returns (blocked: bool, task: Option<Task>)
      requires Valid()
      modifies this`queue, this`waitingThread
      ensures Valid()
      ensures MustLeave(old(View()), maxThreads) ==> !blocked && task.None? && View() == old(View())
      ensures !MustLeave(old(View()), maxThreads) ==>
        var v := old(View());
        var k := FirstEligible(v.queue, v.run);
        if k < |v.queue| then
          !blocked && task == Some(v.queue[k]) && View() == v.(queue := RemoveAt(v.queue, k))
        else
          blocked && task.None? && View() == v.(waitingThread := v.waitingThread + 1)
      ensures task.Some? ==> ValidTask(task.value)
    {
      var length := QueueGroupLength();
      if (!running && (immediate || length <= 0)) || numThreads > maxThreads {
        return false, None;
      }
      var k := QueueValidTask();
      if k < |queue| {
        var t := Unlink(k);
        task := Some(t);
        blocked := false;
      } else {
        waitingThread := waitingThread + 1;
        return true, None;
      }
    }

    method Unlink(k: nat) returns (t: Task)
      requires Valid() && k < |queue|
      modifies this`queue
      ensures Valid() && t == old(queue)[k] && queue == RemoveAt(old(queue), k) && ValidTask(t)
    {
      t := queue[k];
      assert t in queue;
      assert forall u :: u in RemoveAt(queue, k) ==> u in queue;
      queue := queue[..k] + queue[k + 1..];
    }

    /** The loop of a worker thread from the point where it has, or has not, got a task, until
        it gives up the lock. */
    method Proceed(first: Option<Task>) returns (
        outcome: Outcome, signals: nat, broadcast: bool, dropped: seq<Task>, tokens: nat)
      requires Valid() && (first.Some? ==> ValidTask(first.value))
      modifies this, idlistrun
      ensures Valid()
      ensures Section(View(), outcome, signals, broadcast, dropped, tokens) ==
              if first.Some? then Handle(old(View()), first.value) else Exit(old(View()), [])
    {
      var task := first;
      dropped := [];
      ghost var v := View();
      ghost var cells := idlistrun[..];
      while task.Some?
        invariant idlistrun[..] == cells
        invariant Valid() && (task.Some? ==> ValidTask(task.value))
        invariant dropped == [] ==> View() == v && task == first
        invariant dropped != [] ==>
          && first.Some? && dropped == [first.value] && task.None?
          && !v.running && v.immediate && View() == v.(taskCount := v.taskCount - 1)
        decreases task.Some?
      {
        var t := task.value;
        if running || !immediate {
          if Group(t) != 0 {
            RunSetUpdate(idlistrun[..], Group(t), 1);
            idlistrun[Group(t)] := 1;
            assert idlistrun[..] == cells[Group(t) := 1];
          }
          return Runs(t), 0, false, [], 0;
        }
        taskcount := taskcount - 1;
        dropped := dropped + [t];
        var blocked;
        blocked, task := WaitForTask();
      }
      outcome, signals, broadcast, tokens := Leave(dropped);
    }

    /** A worker takes the lock and looks for work. */
    method LookSection() returns (outcome: Outcome, signals: nat, broadcast: bool, dropped: seq<Task>, tokens: nat)
      requires Valid()
      modifies this, idlistrun
      ensures Valid()
      ensures Section(View(), outcome, signals, broadcast, dropped, tokens) == Look(old(View()), maxThreads)
    {
      ghost var v := View();
      var blocked, task := WaitForTask();
      if blocked {
        return Blocks, 0, false, [], 0;
      }
      if task.Some? {
        TakeHandles(v, FirstEligible(v.queue, v.run));
      }
      outcome, signals, broadcast, dropped, tokens := Proceed(task);
    }

    /** A waiting worker is woken. */
    method WakeSection() returns (outcome: Outcome, signals: nat, broadcast: bool, dropped: seq<Task>, tokens: nat)
      requires Valid()
      modifies this, idlistrun
      ensures Valid()
      ensures Section(View(), outcome, signals, broadcast, dropped, tokens) == Wake(old(View()))
    {
      ghost var v := View();
      var k := QueueValidTask();
      if k == |queue| {
        return Blocks, 0, false, [], 0;
      }
      waitingThread := waitingThread - 1;
      TakeHandles(v.(waitingThread := v.waitingThread - 1), k);
      var t := Unlink(k);
      outcome, signals, broadcast, dropped, tokens := Proceed(Some(t));
    }

    /** A waiting worker's timed wait has expired. */
    method ExpiredSection() returns (outcome: Outcome, signals: nat, broadcast: bool, dropped: seq<Task>, tokens: nat)
      requires Valid()
      modifies this, idlistrun
      ensures Valid()
      ensures Section(View(), outcome, signals, broadcast, dropped, tokens) == LeaveExpired(old(View()))
    {
      waitingThread := waitingThread - 1;
      outcome, signals, broadcast, dropped, tokens := Proceed(None);
    }

    /** The bookkeeping after a task's function has returned; LookSection follows it. */
    method CompleteTask(t: Task) returns (signals: nat)
      requires Valid() && ValidTask(t)
      modifies this`taskcount, idlistrun
      ensures Valid()
      ensures View() == Complete(old(View()), t) && signals == CompleteSignals(old(View()), t)
    {
      RunSetUpdate(idlistrun[..], Group(t), 0);
      idlistrun[Group(t)] := 0;
      assert idlistrun[..] == old(idlistrun[..])[Group(t) := 0];
      signals := if Group(t) != 0 && !running then 1 else 0;
      taskcount := taskcount - 1;
    }

    method FreeAgain() returns (outcome: FreeOutcome, signals: nat, tokens: nat)
      requires Valid()
      modifies this
      ensures Valid()
      ensures FreeSection(View(), outcome, signals, tokens) == FreeCheck(old(View()))
    {
      signals, tokens := 0, 0;
      var length := QueueGroupLength();
      if waiting && length != -numThreads && !(immediate && numThreads == 0) {
        return FreeBlocks, 0, 0;
      }
      if immediate || length == -numThreads {
        if numThreads == 0 {
          return FreeDestroys, 0, 0;
        }
        signals, tokens := ThreadpoolWakeupStop();
      }
      waiting := false;
      outcome := FreeReturns;
    }

    /** free of a running pool, up to its first wait or its return. */
    method ThreadpoolFree(immediateFlag: bool, wait: bool) returns (outcome: FreeOutcome, signals: nat, tokens: nat)
      requires Valid()
      modifies this
      ensures Valid()
      ensures FreeSection(View(), outcome, signals, tokens) == Free(old(View()), immediateFlag, wait)
    {
      running := false;
      immediate := immediateFlag;
      waiting := wait;
      outcome, signals, tokens := FreeAgain();
    }
  }
}
