/** The pool grows as long as there is work that nobody is about to take. */
module PoolGrowth {
  import opened PoolCore
  import opened PoolSystem
  import opened PoolInvariants
  import opened PoolRuns
  import opened PoolTheorems
  import opened PoolLimits

  /** Workers that are about to look at the queue for work they have not been given yet. */
  ghost function Coming(ws: seq<Pc>): nat {
    Cnt(ws, IsFresh) + Cnt(ws, IsSignalled)
  }

  /** Every eligible group has a worker coming for it, or the pool cannot grow any more. */
  ghost predicate Served(s: System) {
    Eligible(s.sh.queue, s.sh.run) <= Coming(s.workers) || s.sh.numThreads == s.maxThreads
  }

  ghost predicate Grown(s: System) {
    s.sh.running && s.expiries == 0 && s.failures == 0 ==> Served(s)
  }

  /** A worker that holds the lock of a running pool takes a task or finds none. */
  lemma SectionServes(m: System, i: nat, sec: Section, s': System)
    requires Served(m) && Accounts(m) && Serial(m) && m.sh.running
    requires Ends(m.sh, sec) && Applied(m, i, sec, s') && !sec.outcome.Leaves?
    ensures Served(s')
  {
    AppliedSignals(m, i, sec, s');
    AppliedCounts(m, i, sec, s');
    LiveParts(m.workers);
    LiveParts(s'.workers);
    EligibleIffFound(m.sh.queue, m.sh.run);
    if sec.outcome.Runs? {
      EligibleAfterRun(m.sh.queue, m.sh.run, FirstEligible(m.sh.queue, m.sh.run));
    }
  }

  lemma RunningStays(sh: Shared, maxThreads: nat)
    requires sh.running && sh.numThreads <= maxThreads
    ensures Ends(sh, Look(sh, maxThreads)) && !Look(sh, maxThreads).outcome.Leaves?
  {
    LookEnds(sh, maxThreads);
  }

  lemma LookGrown(m: System, i: nat, s': System)
    requires Served(m) && Accounts(m) && Serial(m) && m.sh.running && Applied(m, i, Look(m.sh, m.maxThreads), s')
    ensures Served(s')
  {
    RunningStays(m.sh, m.maxThreads);
    SectionServes(m, i, Look(m.sh, m.maxThreads), s');
  }

  lemma WakeGrown(s: System, s': System, i: nat)
    requires Inv(s) && s.sh.running && Served(s) && WakeStep(s, s', i)
    ensures Served(s')
  {
    hide Notified, Wake, Served;
    ResumedKeeps(s, i);
    ResumedServed(s, i);
    WakeEnds(s.sh);
    WakeStays(s.sh);
    ResumedApplied(s, s', i);
    SectionServes(Resumed(s, i), i, Wake(s.sh), s');
  }

  lemma ResumedServed(s: System, i: nat)
    requires Served(s) && i < |s.workers| && s.workers[i].Blocked?
    ensures Served(Resumed(s, i))
  {
    CntUpdate(s.workers, i, Fresh, IsFresh);
    CntUpdate(s.workers, i, Fresh, IsSignalled);
  }

  lemma WakeStays(sh: Shared)
    requires sh.running
    ensures !Wake(sh).outcome.Leaves?
  {
  }

  lemma ResumedApplied(s: System, s': System, i: nat)
    requires WakeStep(s, s', i)
    ensures Applied(Resumed(s, i), i, Wake(s.sh), s')
  {
  }

  lemma FinishGrown(s: System, m: System, s': System, i: nat)
    requires Inv(s) && s.sh.running && Served(s) && FinishStep(s, m, s', i)
    ensures Served(s')
  {
    hide Notified;
    CompletedKeeps(s, m, i);
    CompletedServed(s, m, i);
    LookGrown(m, i, s');
  }

  lemma CompletedServed(s: System, m: System, i: nat)
    requires s.sh.running && Served(s) && Completed(s, m, i)
    ensures Served(m) && m.sh.running
  {
    var t, w := s.workers[i].task, s.workers[i := Fresh];
    CntUpdate(s.workers, i, Fresh, IsFresh);
    CntUpdate(s.workers, i, Fresh, IsSignalled);
    NotifiedCounts(w, m.workers, CompleteSignals(s.sh, t));
    CntNotified(w, m.workers, IsFresh);
    EligibleAfterFinish(s.sh.queue, s.sh.run, Group(t));
    NotifiedNone(w, m.workers);
  }

  /** A push brings a worker for the group it makes eligible, unless the pool is full. */
  lemma PushGrown(s: System, s': System, t: Task, c: bool)
    requires Inv(s) && s.sh.running && Served(s) && s.expiries == 0 && PushStep(s, s', t, c) && s'.failures == s.failures
    ensures Served(s')
  {
    hide Notified;
    var r := Push(s.sh, t, s.maxThreads, c);
    PushCounts(s, s', t, c);
    LiveParts(s.workers);
    LiveParts(s'.workers);
    WaitersSplit(s.workers);
    if r.queued {
      EligibleAfterPush(s.sh.queue, s.sh.run, t);
      if InPool(s.sh, Group(t)) {
        PooledAddsNothing(s.sh.queue, s.sh.run, t);
      }
      EligibleWithin(s.sh.queue, s.sh.run);
    }
  }

  lemma WaitersSplit(ws: seq<Pc>)
    ensures Cnt(ws, IsWaiter) == Cnt(ws, IsUnsignalled) + Cnt(ws, IsSignalled) + Cnt(ws, IsExpired)
  {
    CntDisjoint(ws, IsUnsignalled, IsSignalled, IsBlocked);
    CntDisjoint(ws, IsBlocked, IsExpired, IsWaiter);
  }

  lemma EligibleWithin(q: seq<Task>, run: set<int>)
    ensures Eligible(q, run) <= Groups(q)
  {
    Subset(QueuedIds(q) - run, QueuedIds(q));
  }

  /** A task of an id that runs or is queued makes no further group eligible. */
  lemma PooledAddsNothing(q: seq<Task>, run: set<int>, t: Task)
    requires Group(t) != 0 && (Group(t) in run || exists u :: u in q && Group(u) == Group(t))
    ensures Eligible(q + [t], run) == Eligible(q, run)
  {
    ZeroConcat(q, [t]);
    QueuedIdsConcat(q, [t]);
    assert forall g :: g in QueuedIds([t]) ==> g == Group(t);
    assert QueuedIds(q + [t]) - run == QueuedIds(q) - run;
  }

  lemma GrownStays(s: System, s': System)
    requires Inv(s) && Grown(s) && Next(s, s')
    ensures Grown(s')
  {
    hide Inv, Applied, Completed, Served;
    if s'.sh.running && s'.expiries == 0 && s'.failures == 0 {
      CountersGrow(s, s');
      RanBefore(s, s');
      if t, c :| PushStep(s, s', t, c) {
        PushGrown(s, s', t, c);
      } else if i :| LookStep(s, s', i) {
        ParentOf(s);
        LookGrown(s, i, s');
      } else if i :| WakeStep(s, s', i) {
        WakeGrown(s, s', i);
      } else if i: nat, m :| FinishStep(s, m, s', i) {
        FinishGrown(s, m, s', i);
      } else if CallerWakeStep(s, s') {
        CallerWaits(s);
      } else if i :| LeaveExpiredStep(s, s', i) {
        ExpiredCounts(s, i);
      } else if i: nat :| WorkerDestroyStep(s, s', i) {
        NoDeathWhileRunning(s, i);
      } else if CallerDestroyStep(s, s') {
        CallerWaits(s);
      }
    }
  }

  lemma ParentOf(s: System)
    requires Inv(s)
    ensures Accounts(s) && Serial(s)
  {
  }

  lemma SectionsKeepRunning(sh: Shared, t: Task, maxThreads: nat, c: bool)
    ensures Look(sh, maxThreads).sh.running == Wake(sh).sh.running == LeaveExpired(sh).sh.running == sh.running
    ensures Complete(sh, t).running == Push(sh, t, maxThreads, c).sh.running == FreeCheck(sh).sh.running == sh.running
  {
    LookEnds(sh, maxThreads);
    SectionCounters(sh, Look(sh, maxThreads));
    WakeEnds(sh);
    SectionCounters(sh.(waitingThread := sh.waitingThread - 1), Wake(sh));
  }

  lemma FinishKeepsRunning(s: System, m: System, s': System, i: nat)
    requires FinishStep(s, m, s', i)
    ensures s'.sh.running == s.sh.running
  {
    hide Notified, Look, Complete;
    SectionsKeepRunning(s.sh, s.workers[i].task, s.maxThreads, true);
    SectionsKeepRunning(m.sh, Stop, m.maxThreads, true);
  }

  /** No step undoes an expiry or a refusal. */
  lemma CountersGrow(s: System, s': System)
    requires Next(s, s')
    ensures s.expiries <= s'.expiries && s.failures <= s'.failures
  {
    hide Notified, Look, Wake, LeaveExpired, Complete, FreeCheck, Free;
    if t, c :| PushStep(s, s', t, c) {
      hide Push;
    }
  }

  /** No step lets a stopped pool run again. */
  lemma RanBefore(s: System, s': System)
    requires Next(s, s') && s'.sh.running
    ensures s.sh.running
  {
    hide Notified, Look, Wake, LeaveExpired, Completed, Push, FreeCheck;
    SectionsKeepRunning(s.sh, Stop, s.maxThreads, true);
    if t, c :| PushStep(s, s', t, c) {
      SectionsKeepRunning(s.sh, t, s.maxThreads, c);
    } else if i: nat, m :| FinishStep(s, m, s', i) {
      FinishKeepsRunning(s, m, s', i);
    } else if imm, w :| CallFreeStep(s, s', imm, w) {
      SectionsKeepRunning(s.sh.(running := false, immediate := imm, waiting := w), Stop, s.maxThreads, true);
    }
  }

  lemma CallerWaits(s: System)
    requires Inv(s) && s.sh.running
    ensures s.caller.NotCalled?
  {
  }

  lemma ExpiredCounts(s: System, i: nat)
    requires Inv(s) && s.expiries == 0 && i < |s.workers|
    ensures s.workers[i] != Expired
  {
    CntWitness(s.workers, IsExpired);
    assert IsExpired(s.workers[i]) <==> s.workers[i] == Expired;
  }

  lemma NoDeathWhileRunning(s: System, i: nat)
    requires Inv(s) && s.sh.running && i < |s.workers|
    ensures s.workers[i] != Freeing
  {
    CntWitness(s.workers, IsFreeing);
    assert IsFreeing(s.workers[i]) <==> s.workers[i] == Freeing;
  }

  lemma {:induction false} RunGrown(tr: seq<System>, k: nat)
    requires Run(tr) && k < |tr|
    ensures Grown(tr[k])
  {
    hide Inv, Grown, Next;
    if k == 0 {
      InitGrown(tr[0]);
    } else {
      RunGrown(tr, k - 1);
      RunKeeps(tr, k - 1);
      GrownStays(tr[k - 1], tr[k]);
    }
  }

  lemma InitGrown(s: System)
    requires Init(s)
    ensures Grown(s)
  {
  }

  /** In every run without an expired wait or a refused thread: while the pool runs, either every
      eligible group, each task of id 0 being one, has a new or signalled worker of its own coming, or
      the pool has its maximum of threads. */
  lemma PoolGrowsWithWork(tr: seq<System>, k: nat)
    requires Run(tr) && k < |tr| && tr[k].sh.running && tr[k].expiries == 0 && tr[k].failures == 0
    ensures var s := tr[k];
      || Eligible(s.sh.queue, s.sh.run) <= Cnt(s.workers, IsFresh) + Cnt(s.workers, IsSignalled)
      || s.sh.numThreads == s.maxThreads
  {
    RunGrown(tr, k);
  }

  /** And it grows for work only: a push that creates a thread is accepted, brings a new group, and
      finds every waiter with a queued group of its own and the pool below its maximum. */
  lemma PoolGrowsOnlyForWork(s: System, s': System, t: Task, c: bool)
    requires Inv(s) && PushStep(s, s', t, c) && |s'.workers| > |s.workers|
    ensures s'.accepted == s.accepted + [t] && Cnt(s.workers, IsLive) < s.maxThreads
    ensures Cnt(s.workers, IsWaiter) <= Groups(s.sh.queue)
    ensures Group(t) != 0 ==> Sub(Running(s.workers), Group(t)) == [] && Sub(s.sh.queue, Group(t)) == []
  {
    if Group(t) != 0 {
      assert |Sub(Running(s.workers), Group(t))| == Bit(Group(t) in s.sh.run);
      SubNone(s.sh.queue, Group(t));
    }
  }

  /** A push is accepted exactly while the pool runs, for a task id of 0 to 255, and with fewer than
      1000 tasks queued or running. It reports success exactly if it is accepted and no thread was
      refused to it, so a task of a failed push may yet run. */
  lemma PushAcceptedIff(s: System, s': System, t: Task, c: bool)
    requires Inv(s) && PushStep(s, s', t, c)
    ensures s'.accepted != s.accepted <==>
      s.sh.running && 0 <= t.id < 256 && |s.sh.queue| + |Running(s.workers)| - s.tokens < 1000
    ensures s'.accepted != s.accepted ==> s'.accepted == s.accepted + [t] && s'.sh.queue == s.sh.queue + [t]
    ensures var ret := Push(s.sh, t, s.maxThreads, c).ret;
      (ret == 0 || ret == -1) && (ret == 0 <==> s'.accepted != s.accepted && s'.failures == s.failures)
  {
    RunningCount(s.workers);
    assert s.accepted + [t] != s.accepted;
  }
}
