/** The promises of the thread pool, over every run. */
module PoolTheorems {
  import opened PoolCore
  import opened PoolSystem
  import opened PoolInvariants
  import opened PoolRuns

  lemma {:induction false} NewWorkers(ws: seq<Pc>)
    requires forall i :: 0 <= i < |ws| ==> ws[i] == Fresh
    ensures Cnt(ws, IsLive) == |ws|
    ensures Cnt(ws, IsWaiter) == Cnt(ws, IsBusy) == Cnt(ws, IsFreeing) == 0
    ensures Cnt(ws, IsExpired) == Cnt(ws, IsUnsignalled) == Cnt(ws, IsSignalled) == 0
    ensures Running(ws) == []
  {
    if ws != [] {
      NewWorkers(ws[1..]);
    }
  }

  lemma InitHolds(s: System)
    requires Init(s)
    ensures Inv(s)
  {
    NewWorkers(s.workers);
    assert multiset{}[Stop := 0] == multiset{};
  }

  lemma NextKeeps(s: System, s': System)
    requires Inv(s) && Next(s, s')
    ensures Inv(s')
  {
    if t, c :| PushStep(s, s', t, c) {
      PushKeeps(s, s', t, c);
    } else if i :| LookStep(s, s', i) {
      FreshHolds(s, i);
      LookKeeps(s, i, s', 0);
    } else if i :| WakeStep(s, s', i) {
      WakeKeeps(s, s', i);
    } else if i :| ExpireStep(s, s', i) {
      ExpireKeeps(s, s', i);
    } else if i :| LeaveExpiredStep(s, s', i) {
      LeaveExpiredKeeps(s, s', i);
    } else if i, m :| FinishStep(s, m, s', i) {
      FinishKeeps(s, m, s', i);
    } else if imm, w :| CallFreeStep(s, s', imm, w) {
      CallFreeKeeps(s, s', imm, w);
    } else if CallerWakeStep(s, s') {
      CallerWakeKeeps(s, s');
    } else if i :| WorkerDestroyStep(s, s', i) {
      WorkerDestroyKeeps(s, s', i);
    } else {
      CallerDestroyKeeps(s, s');
    }
  }

  lemma {:induction false} RunKeeps(tr: seq<System>, k: nat)
    requires Run(tr) && k < |tr|
    ensures Inv(tr[k])
  {
    if k == 0 {
      InitHolds(tr[0]);
    } else {
      RunKeeps(tr, k - 1);
      NextKeeps(tr[k - 1], tr[k]);
    }
  }

  // ---------- per-group serial order ----------

  /** In every run, the accepted tasks of a nonzero id are exactly, in push order, the finished
      ones, at most one running one, the thrown-away ones and the queued ones; the id is marked
      as running exactly while that one task runs; and only a forced stop throws any away. */
  lemma GroupsAreSerial(tr: seq<System>, k: nat, g: int)
    requires Run(tr) && k < |tr| && g != 0
    ensures var s, r := tr[k], Sub(Running(tr[k].workers), g);
      && Sub(s.accepted, g) == Sub(s.finished, g) + r + Sub(s.dropped, g) + Sub(s.sh.queue, g)
      && |r| == Bit(g in s.sh.run)
      && (!s.forced ==> Sub(s.dropped, g) == [])
  {
    RunKeeps(tr, k);
    var s := tr[k];
    if !s.forced {
      SubNone(s.dropped, g);
    }
  }

  /** Over all ids, tasks are neither lost nor invented nor run twice. */
  lemma TasksAreConserved(tr: seq<System>, k: nat, t: Task)
    requires Run(tr) && k < |tr| && t.Work?
    ensures var s := tr[k];
      multiset(s.accepted)[t] == multiset(s.finished)[t] + multiset(Running(s.workers))[t]
                                 + multiset(s.dropped)[t] + multiset(s.sh.queue)[t]
  {
    RunKeeps(tr, k);
    var s := tr[k];
    assert multiset(s.accepted)[Stop := s.tokens][t] == multiset(s.accepted)[t];
  }

  // ---------- shutdown ----------

  /** A caller that asked to wait, without the immediate flag, leaves its wait only when every
      accepted task has run exactly once, those of one id in push order. */
  lemma GracefulStopRunsAll(tr: seq<System>, k: nat)
    requires Run(tr) && k < |tr|
    requires !tr[k].forced && tr[k].waited && (tr[k].caller.Destroying? || tr[k].caller.Returned?)
    ensures multiset(tr[k].finished) == multiset(tr[k].accepted)
    ensures forall g :: g != 0 ==> Sub(tr[k].finished, g) == Sub(tr[k].accepted, g)
  {
    RunKeeps(tr, k);
    var s := tr[k];
    assert OnlyTokens(s.dropped) by {
      if s.dropped != [] {
        assert s.sh.immediate;
      }
    }
    forall t
      ensures multiset(s.finished)[t] == multiset(s.accepted)[t]
    {
      if t.Work? {
        TasksAreConserved(tr, k, t);
        assert t !in s.dropped && t !in s.sh.queue;
      } else {
        assert t !in s.finished && t !in s.accepted;
      }
    }
    forall g | g != 0
      ensures Sub(s.finished, g) == Sub(s.accepted, g)
    {
      SubNone(s.dropped, g);
      SubNone(s.sh.queue, g);
    }
  }

  /** The pool is destroyed at most once, by one thread, after the last worker has left. */
  lemma DestroyedOnce(tr: seq<System>, k: nat)
    requires Run(tr) && k < |tr|
    ensures var s := tr[k];
      && s.freed <= 1
      && Deaths(s) <= 1
      && (Deaths(s) == 1 ==>
            !s.sh.running && forall i :: 0 <= i < |s.workers| ==> !IsLive(s.workers[i]))
  {
    RunKeeps(tr, k);
    CntWitness(tr[k].workers, IsLive);
  }

  /** The caller of free is always woken: while it waits unsignalled, it could not go. */
  lemma CallerIsWoken(tr: seq<System>, k: nat)
    requires Run(tr) && k < |tr| && tr[k].caller == Waiting(false)
    ensures !FreeMayGo(tr[k].sh)
  {
    RunKeeps(tr, k);
  }

  // ---------- wakeups ----------

  /** Until a forced stop, while any worker waits unsignalled every eligible group (each task
      of id 0 is one) has its own signalled waiter. */
  lemma NoLostWakeup(tr: seq<System>, k: nat, i: nat)
    requires Run(tr) && k < |tr| && !tr[k].forced
    requires i < |tr[k].workers| && tr[k].workers[i] == Blocked(false)
    ensures Eligible(tr[k].sh.queue, tr[k].sh.run) <= Cnt(tr[k].workers, IsSignalled)
  {
    RunKeeps(tr, k);
    CntWitness(tr[k].workers, IsUnsignalled);
    assert IsUnsignalled(tr[k].workers[i]);
  }

  lemma IdleMeansNoRun(s: System, g: int)
    requires Serial(s) && Running(s.workers) == [] && g != 0
    ensures g !in s.sh.run
  {
    assert |Sub(Running(s.workers), g)| == Bit(g in s.sh.run);
  }

  predicate IsResting(pc: Pc) { pc == Blocked(false) || pc.Expired? }

  lemma RestingCounts(ws: seq<Pc>)
    requires Cnt(ws, IsActive) == 0
    ensures Cnt(ws, IsSignalled) == 0 && Cnt(ws, IsBusy) == 0
    ensures Cnt(ws, IsLive) == Cnt(ws, IsUnsignalled) + Cnt(ws, IsExpired)
  {
    CntLeq(ws, IsSignalled, IsActive);
    CntLeq(ws, IsBusy, IsActive);
    CntDisjoint(ws, IsUnsignalled, IsExpired, IsResting);
    CntDisjoint(ws, IsActive, IsResting, IsLive);
  }

  /** Queued work is never stranded: until the pool stops at once, and as long as no wait has
      expired and no thread was refused, some worker runs or will look at the queue unasked. */
  lemma WorkIsNeverStranded(tr: seq<System>, k: nat)
    requires Run(tr) && k < |tr|
    requires tr[k].expiries == 0 && tr[k].failures == 0 && !tr[k].forced && !tr[k].sh.immediate
    requires tr[k].sh.queue != []
    ensures exists i :: 0 <= i < |tr[k].workers| && IsActive(tr[k].workers[i])
  {
    RunKeeps(tr, k);
    var s := tr[k];
    CntWitness(s.workers, IsActive);
    if Cnt(s.workers, IsActive) == 0 {
      RestingCounts(s.workers);
      RunningCount(s.workers);
      forall g | g in QueuedIds(s.sh.queue) ensures g !in s.sh.run {
        IdleMeansNoRun(s, g);
      }
      assert QueuedIds(s.sh.queue) - s.sh.run == QueuedIds(s.sh.queue);
      GroupsZero(s.sh.queue);
      assert false;
    }
  }

  /** A draining pool never gets stuck under the same conditions. */
  lemma DrainIsNeverStuck(tr: seq<System>, k: nat)
    requires Run(tr) && k < |tr|
    requires tr[k].expiries == 0 && tr[k].failures == 0 && !tr[k].forced
    requires tr[k].caller == Waiting(false)
    ensures exists i :: 0 <= i < |tr[k].workers| && IsActive(tr[k].workers[i])
  {
    RunKeeps(tr, k);
    var s := tr[k];
    if s.sh.queue != [] {
      WorkIsNeverStranded(tr, k);
    } else {
      ShutdownTest(s);
      LiveParts(s.workers);
      CntLeq(s.workers, IsFresh, IsActive);
      CntLeq(s.workers, IsBusy, IsActive);
      CntWitness(s.workers, IsActive);
    }
  }

  // ---------- accounting ----------

  /** The counters always agree with the threads and the queue, and stay in their bounds. */
  lemma CountersAreExact(tr: seq<System>, k: nat)
    requires Run(tr) && k < |tr|
    ensures var s := tr[k];
      && 0 <= s.sh.waitingThread <= s.sh.numThreads <= s.maxThreads
      && s.sh.waitingThread == Cnt(s.workers, IsWaiter)
      && s.sh.numThreads == Cnt(s.workers, IsLive)
      && s.sh.taskCount == |s.sh.queue| + |Running(s.workers)| - s.tokens <= MAX_QUEUE_COUNT
  {
    RunKeeps(tr, k);
    CntLeq(tr[k].workers, IsWaiter, IsLive);
    RunningCount(tr[k].workers);
  }
}
