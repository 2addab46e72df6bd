/** How a stop ends: once the caller of free has returned and no worker has anything left to do, the
    pool has been destroyed, by one thread, with all workers gone. */
module PoolEnding {
  import opened PoolCore
  import opened PoolSystem
  import opened PoolInvariants
  import opened PoolRuns
  import opened PoolTheorems
  import opened PoolLimits
  import opened PoolForced
  import opened PoolGrowth

  // ---------- the invariant ----------

  /** Stop tokens in the queue. */
  function TokensIn(q: seq<Task>): nat {
    if q == [] then 0 else (if q[0] == Stop then 1 else 0) + TokensIn(q[1..])
  }

  /** After an unwaited stop: the last worker destroys the pool; remaining workers either each find a
      token, and none of them sleeps unsignalled, or do not all sleep beside an empty queue. */
  ghost predicate Winding(s: System) {
    && !s.sh.running
    && if s.sh.numThreads == 0 then Deaths(s) == 1
       else
         && !s.sh.waiting
         && if s.sh.immediate then TokensIn(s.sh.queue) >= s.sh.numThreads && Cnt(s.workers, IsUnsignalled) == 0
            else GroupLength(s.sh) != -s.sh.numThreads
  }

  ghost predicate Settling(s: System) {
    s.expiries == 0 && s.failures == 0 && s.caller.Returned? ==> Winding(s)
  }

  // ---------- tokens ----------

  lemma {:induction false} TokensConcat(a: seq<Task>, b: seq<Task>)
    ensures TokensIn(a + b) == TokensIn(a) + TokensIn(b)
  {
    if a == [] {
      assert a + b == b;
    } else {
      assert (a + b)[1..] == a[1..] + b;
      TokensConcat(a[1..], b);
    }
  }

  lemma {:induction false} TokensCount(n: nat)
    ensures TokensIn(Tokens(n)) == n
  {
    if n > 0 {
      assert Tokens(n)[1..] == Tokens(n - 1);
      TokensCount(n - 1);
    }
  }

  lemma {:induction false} TokensRemove(q: seq<Task>, k: nat)
    requires k < |q|
    ensures TokensIn(RemoveAt(q, k)) >= TokensIn(q) - 1
  {
    if k == 0 {
      assert RemoveAt(q, 0) == q[1..];
    } else {
      TokensRemove(q[1..], k - 1);
      assert RemoveAt(q, k)[1..] == RemoveAt(q[1..], k - 1);
    }
  }

  /** A token is always eligible and is a group of its own. */
  lemma {:induction false} TokenFound(q: seq<Task>, run: set<int>)
    requires TokensIn(q) > 0 && 0 !in run
    ensures FirstEligible(q, run) < |q| && Groups(q) > 0
  {
    if FirstEligible(q, run) == |q| {
      NoTokens(q, run);
    }
    GroupsZero(q);
  }

  lemma {:induction false} NoTokens(q: seq<Task>, run: set<int>)
    requires FirstEligible(q, run) == |q| && 0 !in run
    ensures TokensIn(q) == 0
  {
    if q != [] {
      NoTokens(q[1..], run);
    }
  }

  // ---------- one worker's lock section ----------

  /** What a section that starts with a fresh worker i leaves behind. */
  lemma ExitWinds(m: System, i: nat, dropped: seq<Task>, sh: Shared, s': System)
    requires Accounts(m) && i < |m.workers| && m.workers[i] == Fresh && Deaths(m) == 0 && m.caller.Returned?
    requires !sh.running && !sh.waiting && sh.numThreads == m.sh.numThreads && sh.waitingThread == m.sh.waitingThread
    requires sh.immediate ==> TokensIn(sh.queue) >= sh.numThreads - 1 && Cnt(m.workers, IsUnsignalled) == 0
    requires Applied(m, i, Exit(sh, dropped), s') && 0 !in sh.run
    ensures Winding(s')
  {
    var sec := Exit(sh, dropped);
    AppliedCounts(m, i, sec, s');
    AppliedSignals(m, i, sec, s');
    FreshIsLive(m.workers, i);
    UnsignalledWaits(m.workers);
    GroupsZero(sh.queue);
    var n := sh.numThreads - 1;
    if n > 0 {
      if sh.immediate {
        TokenFound(sh.queue, sh.run);
      }
      TokensConcat(sh.queue, Tokens(Count(n)));
      TokensCount(n);
    }
  }

  /** A worker that runs a task keeps the shutdown test from holding. */
  lemma BusyKeepsOpen(s: System)
    requires Accounts(s) && Cnt(s.workers, IsBusy) > 0
    ensures GroupLength(s.sh) != -s.sh.numThreads && s.sh.numThreads > 0
  {
    ShutdownTest(s);
    RunningCount(s.workers);
    LiveParts(s.workers);
  }

  lemma TakeWinds(m: System, i: nat, k: nat, sh: Shared, s': System)
    requires Base(m) && Winding(m) && m.caller.Returned? && !m.sh.immediate
    requires k < |sh.queue| && sh == m.sh && Applied(m, i, Take(sh, k), s') && Accounts(s')
    ensures Winding(s')
  {
    AppliedCounts(m, i, Take(sh, k), s');
    FreshIsLive(m.workers, i);
    BusyKeepsOpen(s');
  }

  lemma LookWinds(m: System, i: nat, s': System)
    requires Base(m) && Winding(m) && m.caller.Returned? && Applied(m, i, Look(m.sh, m.maxThreads), s') && Accounts(s')
    ensures Winding(s')
  {
    hide Notified;
    FreshIsLive(m.workers, i);
    if MustLeave(m.sh, m.maxThreads) {
      ExitWinds(m, i, [], m.sh, s');
    } else {
      var k := FirstEligible(m.sh.queue, m.sh.run);
      if k < |m.sh.queue| {
        TakeWinds(m, i, k, m.sh, s');
      } else {
        AppliedCounts(m, i, Look(m.sh, m.maxThreads), s');
      }
    }
  }

  lemma WakeWinds(s: System, s': System, i: nat)
    requires Inv(s) && Winding(s) && s.caller.Returned? && WakeStep(s, s', i) && Accounts(s')
    ensures Winding(s')
  {
    hide Notified, Winding, Wake;
    ResumedKeeps(s, i);
    ResumedApplied(s, s', i);
    ResumedWinds(s, i);
    if FirstEligible(s.sh.queue, s.sh.run) == |s.sh.queue| {
      WakeSleepsOn(s.sh);
      SleepWinds(s, i, s');
    } else {
      WakeTakesIt(s.sh);
      WokenWinds(Resumed(s, i), i, s');
    }
  }

  lemma WakeTakesIt(sh: Shared)
    requires FirstEligible(sh.queue, sh.run) < |sh.queue|
    ensures Wake(sh) == Take(sh.(waitingThread := sh.waitingThread - 1), FirstEligible(sh.queue, sh.run))
  {
  }

  lemma SleepWinds(s: System, i: nat, s': System)
    requires Inv(s) && Winding(s) && WakeStep(s, s', i) && Wake(s.sh) == Section(s.sh, Blocks, 0, false, [], 0)
    requires FirstEligible(s.sh.queue, s.sh.run) == |s.sh.queue|
    ensures Winding(s')
  {
    hide Notified;
    ResumedApplied(s, s', i);
    ResumedCounts(s, i);
    AppliedCounts(Resumed(s, i), i, Wake(s.sh), s');
    if s.sh.immediate && s.sh.numThreads > 0 {
      TokenFound(s.sh.queue, s.sh.run);
    }
  }

  lemma WokenWinds(m: System, i: nat, s': System)
    requires Base(m) && Winding(m) && m.caller.Returned? && FirstEligible(m.sh.queue, m.sh.run) < |m.sh.queue|
    requires Applied(m, i, Take(m.sh, FirstEligible(m.sh.queue, m.sh.run)), s') && Accounts(s')
    ensures Winding(s')
  {
    hide Notified, Exit, Winding, Base;
    if m.sh.immediate {
      DropWinds(m, i, s');
    } else {
      TakeWinds(m, i, FirstEligible(m.sh.queue, m.sh.run), m.sh, s');
    }
  }

  /** Once tokens are queued, a woken worker takes a task off the queue and leaves. */
  lemma DropWinds(m: System, i: nat, s': System)
    requires Base(m) && Winding(m) && m.caller.Returned? && FirstEligible(m.sh.queue, m.sh.run) < |m.sh.queue|
    requires Applied(m, i, Take(m.sh, FirstEligible(m.sh.queue, m.sh.run)), s') && m.sh.immediate
    ensures Winding(s')
  {
    hide Exit, Applied, Base, Winding, FirstEligible;
    var k := FirstEligible(m.sh.queue, m.sh.run);
    WindsOn(m, i, Take(m.sh, k), s');
    TokensRemove(m.sh.queue, k);
    ExitWinds(m, i, [m.sh.queue[k]],
              m.sh.(queue := RemoveAt(m.sh.queue, k), taskCount := m.sh.taskCount - 1), s');
  }

  lemma WindsOn(m: System, i: nat, sec: Section, s': System)
    requires Base(m) && Winding(m) && m.caller.Returned? && m.sh.immediate && Applied(m, i, sec, s')
    ensures Accounts(m) && i < |m.workers| && m.workers[i] == Fresh && Deaths(m) == 0
    ensures !m.sh.running && !m.sh.waiting && 0 !in m.sh.run
    ensures TokensIn(m.sh.queue) >= m.sh.numThreads && Cnt(m.workers, IsUnsignalled) == 0
  {
    hide Notified;
    FreshIsLive(m.workers, i);
  }

  lemma ResumedWinds(s: System, i: nat)
    requires Inv(s) && Winding(s) && i < |s.workers| && s.workers[i].Blocked?
    ensures Winding(Resumed(s, i))
  {
    ResumedCounts(s, i);
    CntUpdate(s.workers, i, Fresh, IsUnsignalled);
    FreshHolds(Resumed(s, i), i);
    FreshIsLive(Resumed(s, i).workers, i);
  }

  lemma FinishWinds(s: System, m: System, s': System, i: nat)
    requires Inv(s) && Winding(s) && s.caller.Returned? && FinishStep(s, m, s', i) && Accounts(s')
    ensures Winding(s')
  {
    hide Notified, Winding;
    CompletedKeeps(s, m, i);
    CompletedWinds(s, m, i);
    LookWinds(m, i, s');
  }

  lemma CompletedWinds(s: System, m: System, i: nat)
    requires Winding(s) && Completed(s, m, i)
    ensures Winding(m)
  {
    var w := s.workers[i := Fresh];
    CntUpdate(s.workers, i, Fresh, IsUnsignalled);
    CntUpdate(s.workers, i, Fresh, IsFreeing);
    NotifiedCounts(w, m.workers, CompleteSignals(s.sh, s.workers[i].task));
  }

  // ---------- free ----------

  lemma FreeWinds(m: System, sec: FreeSection, s': System)
    requires Accounts(m) && !sec.sh.running && FreeApplied(m, sec, s') && s'.caller.Returned? && Deaths(m) == 0
    requires exists sh :: Stopping(m.sh, sh) && sec == FreeCheck(sh)
    requires !m.sh.immediate && m.sh.queue != [] ==> m.sh.numThreads > 0
    requires 0 !in m.sh.run
    ensures Winding(s')
  {
    var sh :| Stopping(m.sh, sh) && sec == FreeCheck(sh);
    NotifiedCounts(m.workers, s'.workers, sec.signals);
    UnsignalledWaits(m.workers);
    LiveParts(m.workers);
    GroupsZero(sh.queue);
    TokensConcat(sh.queue, Tokens(Count(sh.numThreads)));
    TokensCount(Count(sh.numThreads));
  }

  /** The shared fields of a stop: only flags differ. */
  ghost predicate Stopping(was: Shared, sh: Shared) {
    sh == was.(running := false, immediate := sh.immediate, waiting := sh.waiting) && (was.immediate ==> sh.immediate)
  }

  lemma CallWinds(s: System, s': System, imm: bool, w: bool)
    requires Inv(s) && s.expiries == 0 && s.failures == 0 && CallFreeStep(s, s', imm, w) && s'.caller.Returned?
    ensures Winding(s')
  {
    hide Notified, FreeCheck;
    var sh := s.sh.(running := false, immediate := imm, waiting := w);
    var m := s.(forced := imm, waited := w);
    assert Stopping(m.sh, sh);
    FreeStops(sh);
    FreeWinds(m, Free(s.sh, imm, w), s');
  }

  lemma FreeStops(sh: Shared)
    requires !sh.running
    ensures !FreeCheck(sh).sh.running
  {
  }

  lemma CallerWinds(s: System, s': System)
    requires Inv(s) && s.expiries == 0 && s.failures == 0 && CallerWakeStep(s, s') && s'.caller.Returned?
    ensures Winding(s')
  {
    hide Notified, FreeCheck;
    assert s.sh.running == false;
    assert Stopping(s.sh, s.sh);
    FreeStops(s.sh);
    FreeWinds(s, FreeCheck(s.sh), s');
  }

  lemma ReturnedBefore(s: System, s': System)
    requires Next(s, s') && s'.caller.Returned? && !CallerWakeStep(s, s') && !CallerDestroyStep(s, s')
    requires forall imm, w :: !CallFreeStep(s, s', imm, w)
    ensures s.caller.Returned?
  {
    hide Notified, Look, Wake, LeaveExpired, Complete, Push, FreeCheck, Free;
  }

  lemma SettlingStays(s: System, s': System)
    requires Inv(s) && Settling(s) && Next(s, s')
    ensures Settling(s')
  {
    hide Winding, Applied, Completed, Notified;
    if s'.expiries == 0 && s'.failures == 0 && s'.caller.Returned? {
      NextKeeps(s, s');
      if CallerWakeStep(s, s') {
        CountersGrow(s, s');
        CallerWinds(s, s');
      } else if CallerDestroyStep(s, s') {
        DestroyWinds(s, s');
      } else if imm, w :| CallFreeStep(s, s', imm, w) {
        CountersGrow(s, s');
        CallWinds(s, s', imm, w);
      } else {
        CountersGrow(s, s');
        ReturnedBefore(s, s');
        StepWinds(s, s');
      }
    }
  }

  lemma DestroyWinds(s: System, s': System)
    requires Inv(s) && CallerDestroyStep(s, s')
    ensures Winding(s')
  {
  }

  lemma StepWinds(s: System, s': System)
    requires Inv(s) && Inv(s') && s.expiries == 0 && s.caller.Returned? && Winding(s) && Next(s, s')
    requires !CallerWakeStep(s, s') && !CallerDestroyStep(s, s') && forall imm, w :: !CallFreeStep(s, s', imm, w)
    requires s'.expiries == 0
    ensures Winding(s')
  {
    hide Inv, Winding, Applied, Completed, Notified;
    BaseOf(s);
    BaseOf(s');
    if t, c :| PushStep(s, s', t, c) {
      PushWinds(s, s', t, c);
    } else if i: nat :| LookStep(s, s', i) {
      LookWinds(s, i, s');
    } else if i: nat :| WakeStep(s, s', i) {
      WakeWinds(s, s', i);
    } else if i: nat, m :| FinishStep(s, m, s', i) {
      FinishWinds(s, m, s', i);
    } else if i: nat :| LeaveExpiredStep(s, s', i) {
      ExpiredCounts(s, i);
    } else if i: nat :| WorkerDestroyStep(s, s', i) {
      WorkerDestroyWinds(s, s', i);
    }
  }

  lemma BaseOf(s: System)
    requires Inv(s)
    ensures Base(s)
  {
  }

  lemma PushWinds(s: System, s': System, t: Task, c: bool)
    requires Winding(s) && PushStep(s, s', t, c)
    ensures Winding(s')
  {
    assert s'.workers[..|s.workers|] == s'.workers;
    NotifiedNone(s.workers, s'.workers);
  }

  lemma WorkerDestroyWinds(s: System, s': System, i: nat)
    requires Winding(s) && WorkerDestroyStep(s, s', i)
    ensures Winding(s')
  {
    CntUpdate(s.workers, i, Gone, IsFreeing);
    CntUpdate(s.workers, i, Gone, IsUnsignalled);
  }

  lemma {:induction false} RunSettles(tr: seq<System>, k: nat)
    requires Run(tr) && k < |tr|
    ensures Settling(tr[k])
  {
    hide Inv, Settling, Next;
    if k == 0 {
      InitSettles(tr[0]);
    } else {
      RunSettles(tr, k - 1);
      RunKeeps(tr, k - 1);
      SettlingStays(tr[k - 1], tr[k]);
    }
  }

  lemma InitSettles(s: System)
    requires Init(s)
    ensures Settling(s)
  {
  }

  // ---------- the end ----------

  /** The caller of free has returned, and no worker has anything left to do. */
  ghost predicate AtRest(s: System) {
    s.caller.Returned? && forall i :: 0 <= i < |s.workers| ==> s.workers[i].Gone? || s.workers[i] == Blocked(false)
  }

  lemma RestCounts(s: System)
    requires AtRest(s)
    ensures Cnt(s.workers, IsSignalled) == 0 && Cnt(s.workers, IsBusy) == 0 && Cnt(s.workers, IsFresh) == 0
    ensures Cnt(s.workers, IsFreeing) == 0 && Cnt(s.workers, IsExpired) == 0
    ensures Cnt(s.workers, IsWaiter) == Cnt(s.workers, IsUnsignalled)
  {
    CntWitness(s.workers, IsSignalled);
    CntWitness(s.workers, IsBusy);
    CntWitness(s.workers, IsFresh);
    CntWitness(s.workers, IsFreeing);
    CntWitness(s.workers, IsExpired);
    WaitersSplit(s.workers);
  }

  lemma RestIsEmpty(s: System)
    requires Inv(s) && AtRest(s) && Winding(s) && (s.forced ==> s.sh.immediate)
    ensures s.sh.numThreads == 0
  {
    RestCounts(s);
    LiveParts(s.workers);
    RunningCount(s.workers);
    NothingRuns(s);
    GroupsZero(s.sh.queue);
    assert QueuedIds(s.sh.queue) - {} == QueuedIds(s.sh.queue);
  }

  /** In every run without an expired wait or a refused thread: once the caller of free has returned
      and no worker has anything left to do, the pool has been destroyed exactly once and every worker
      is gone; so stop tokens reach everybody, also when nobody waited for the stop. */
  lemma StopEndsInDestruction(tr: seq<System>, k: nat)
    requires Run(tr) && k < |tr| && tr[k].expiries == 0 && tr[k].failures == 0 && AtRest(tr[k])
    ensures tr[k].freed == 1
    ensures forall i :: 0 <= i < |tr[k].workers| ==> tr[k].workers[i].Gone?
  {
    var s := tr[k];
    RunKeeps(tr, k);
    RunSettles(tr, k);
    ForcedIsImmediate(tr, k);
    RestIsEmpty(s);
    RestCounts(s);
    CntWitness(s.workers, IsLive);
    forall i | 0 <= i < |s.workers| ensures s.workers[i].Gone? {
      assert !IsLive(s.workers[i]);
    }
  }

  // ---------- nothing is left undone ----------

  /** In such a run a pool that is not stopped by force, waited for or not, is destroyed only when every
      accepted task has run exactly once, those of one id in push order. */
  lemma DestructionLeavesNothing(tr: seq<System>, k: nat)
    requires Run(tr) && k < |tr| && tr[k].expiries == 0 && tr[k].failures == 0
    requires !tr[k].forced && Deaths(tr[k]) == 1
    ensures multiset(tr[k].finished) == multiset(tr[k].accepted)
    ensures forall g :: g != 0 ==> Sub(tr[k].finished, g) == Sub(tr[k].accepted, g)
  {
    RunKeeps(tr, k);
    var s := tr[k];
    LiveParts(s.workers);
    RunningCount(s.workers);
    AllRan(s);
  }

  lemma AllRan(s: System)
    requires Inv(s) && !s.forced && Running(s.workers) == [] && OnlyTokens(s.sh.queue)
    ensures multiset(s.finished) == multiset(s.accepted)
    ensures forall g :: g != 0 ==> Sub(s.finished, g) == Sub(s.accepted, g)
  {
    assert OnlyTokens(s.dropped);
    forall t ensures multiset(s.finished)[t] == multiset(s.accepted)[t] {
      if t.Work? {
        assert multiset(s.accepted)[Stop := s.tokens][t] == multiset(s.accepted)[t];
        assert t !in s.dropped && t !in s.sh.queue;
      } else {
        assert t !in s.finished && t !in s.accepted;
      }
    }
    forall g | g != 0 ensures Sub(s.finished, g) == Sub(s.accepted, g) {
      SubNone(s.dropped, g);
      SubNone(s.sh.queue, g);
    }
  }
}
