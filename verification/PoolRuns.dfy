/** Every run of the thread pool keeps the invariants, and what follows from that. */
module PoolRuns {
  import opened PoolCore
  import opened PoolSystem
  import opened PoolInvariants

  /** Everything but the wakeup facts: what holds while a worker has the lock. */
  ghost predicate Base(s: System) {
    && Accounts(s) && Serial(s) && Ordered(s) && Conserved(s) && Flags(s) && Drained(s)
    && Lifetime(s) && RealWork(s) && Staffed(s)
  }

  lemma SectionKeeps(m: System, i: nat, sec: Section, s': System)
    requires Base(m) && Heard(m) && Ends(m.sh, sec) && Applied(m, i, sec, s')
    requires sec == Exit(m.sh, []) ==> MustLeave(m.sh, m.maxThreads) || m.expiries > 0
    ensures Base(s')
    ensures (sec.outcome.Blocks? ==> !MustLeave(m.sh, m.maxThreads)) ==> Heard(s')
  {
    AccountsAfter(m, i, sec, s');
    SerialAfter(m, i, sec, s');
    OrderedAfter(m, i, sec, s');
    ConservedAfter(m, i, sec, s');
    FlagsAfter(m, i, sec, s');
    DrainedAfter(m, i, sec, s');
    LifetimeAfter(m, i, sec, s');
    RealWorkAfter(m, i, sec, s');
    StaffedAfter(m, i, sec, s');
    if sec.outcome.Blocks? ==> !MustLeave(m.sh, m.maxThreads) {
      HeardAfter(m, i, sec, s');
    }
  }

  /** While some worker holds the lock, the caller of free could not go anyway. */
  lemma FreshHolds(m: System, i: nat)
    requires Accounts(m) && i < |m.workers| && m.workers[i] == Fresh
    ensures !FreeMayGo(m.sh)
  {
    FreshIsLive(m.workers, i);
  }

  // ---------- looking for work ----------

  lemma LookNotLost(m: System, i: nat, s': System, x: nat)
    requires Base(m) && x <= 1 && Excess(m, x)
    requires Applied(m, i, Look(m.sh, m.maxThreads), s')
    requires x == 1 ==> m.sh.running
    ensures NoneLost(s')
  {
    LookEnds(m.sh, m.maxThreads);
    if x == 1 {
      assert m.sh.running && m.sh.numThreads <= m.maxThreads;
      assert !MustLeave(m.sh, m.maxThreads);
      LookStays(m.sh, m.maxThreads);
    }
    NoneLostAfter(m, i, Look(m.sh, m.maxThreads), s', x);
  }

  lemma LookStays(sh: Shared, maxThreads: nat)
    requires sh.running && !MustLeave(sh, maxThreads)
    ensures Look(sh, maxThreads) != Exit(sh, [])
  {
    assert Exit(sh, []).outcome.Leaves?;
  }

  lemma LookKeeps(m: System, i: nat, s': System, x: nat)
    requires Base(m) && x <= 1 && Excess(m, x) && Heard(m)
    requires Applied(m, i, Look(m.sh, m.maxThreads), s')
    requires x == 1 ==> m.sh.running
    ensures Inv(s')
  {
    LookEnds(m.sh, m.maxThreads);
    LookExits(m.sh, m.maxThreads);
    SectionKeeps(m, i, Look(m.sh, m.maxThreads), s');
    LookNotLost(m, i, s', x);
  }

  lemma LookExits(sh: Shared, maxThreads: nat)
    ensures Look(sh, maxThreads) == Exit(sh, []) ==> MustLeave(sh, maxThreads)
    ensures Look(sh, maxThreads).outcome.Blocks? ==> !MustLeave(sh, maxThreads)
  {
    ExitLeaves(sh);
    assert Exit(sh, []).dropped == [];
  }

  // ---------- waking up ----------

  /** A waiter that has taken the lock again no longer counts as waiting. */
  function Resumed(s: System, i: nat): System
    requires i < |s.workers|
  {
    s.(sh := s.sh.(waitingThread := s.sh.waitingThread - 1), workers := s.workers[i := Fresh])
  }

  lemma ResumedCounts(s: System, i: nat)
    requires i < |s.workers| && IsWaiter(s.workers[i])
    ensures var m := Resumed(s, i);
            && Cnt(m.workers, IsWaiter) == Cnt(s.workers, IsWaiter) - 1
            && Cnt(m.workers, IsLive) == Cnt(s.workers, IsLive)
            && Cnt(m.workers, IsBusy) == Cnt(s.workers, IsBusy)
            && Cnt(m.workers, IsFreeing) == Cnt(s.workers, IsFreeing)
            && Cnt(m.workers, IsExpired) <= Cnt(s.workers, IsExpired)
            && Running(m.workers) == Running(s.workers)
  {
    CntUpdate(s.workers, i, Fresh, IsWaiter);
    CntUpdate(s.workers, i, Fresh, IsLive);
    CntUpdate(s.workers, i, Fresh, IsBusy);
    CntUpdate(s.workers, i, Fresh, IsFreeing);
    CntUpdate(s.workers, i, Fresh, IsExpired);
    RunningSame(s.workers, i, Fresh);
  }

  lemma ResumedKeeps(s: System, i: nat)
    requires Base(s) && i < |s.workers| && IsWaiter(s.workers[i])
    ensures Base(Resumed(s, i))
    ensures Heard(Resumed(s, i))
  {
    ResumedCounts(s, i);
    FreshHolds(Resumed(s, i), i);
  }

  lemma ResumedExcess(s: System, i: nat)
    requires NoneLost(s) && i < |s.workers| && IsWaiter(s.workers[i])
    ensures Excess(Resumed(s, i), Bit(s.workers[i] == Blocked(true)))
  {
    CntUpdate(s.workers, i, Fresh, IsUnsignalled);
    CntUpdate(s.workers, i, Fresh, IsSignalled);
  }

  lemma WakeSleeps(s: System, s': System, i: nat)
    requires Inv(s) && WakeStep(s, s', i) && Wake(s.sh).outcome.Blocks?
    ensures s' == s.(workers := s.workers[i := Blocked(false)])
    ensures Inv(s')
  {
    hide Inv;
    SleepsAgain(s, s', i);
    WakeBlocks(s.sh);
    SleepKeeps(s, i);
  }

  lemma SleepsAgain(s: System, s': System, i: nat)
    requires WakeStep(s, s', i) && Wake(s.sh).outcome.Blocks?
    ensures s' == s.(workers := s.workers[i := Blocked(false)])
  {
    var w := s.workers[i := Fresh];
    var w' := s'.workers[i := Fresh];
    WakeBlocks(s.sh);
    assert s.dropped + [] == s.dropped;
    NotifiedNone(w, w');
    assert s'.workers == w'[i := Blocked(false)] == s.workers[i := Blocked(false)];
  }

  /** A waiter that finds nothing and sleeps on keeps the invariants. */
  lemma SleepKeeps(s: System, i: nat)
    requires Inv(s) && i < |s.workers| && s.workers[i].Blocked? && FirstEligible(s.sh.queue, s.sh.run) == |s.sh.queue|
    ensures Inv(s.(workers := s.workers[i := Blocked(false)]))
  {
    CntUpdate(s.workers, i, Blocked(false), IsWaiter);
    CntUpdate(s.workers, i, Blocked(false), IsLive);
    CntUpdate(s.workers, i, Blocked(false), IsBusy);
    CntUpdate(s.workers, i, Blocked(false), IsFreeing);
    CntUpdate(s.workers, i, Blocked(false), IsExpired);
    RunningSame(s.workers, i, Blocked(false));
    EligibleIffFound(s.sh.queue, s.sh.run);
  }

  lemma WakeBlocks(sh: Shared)
    requires Wake(sh).outcome.Blocks?
    ensures Wake(sh) == Section(sh, Blocks, 0, false, [], 0)
    ensures FirstEligible(sh.queue, sh.run) == |sh.queue|
  {
  }

  lemma {:induction false} NotifiedNone(ws: seq<Pc>, ws': seq<Pc>)
    requires Notified(ws, ws', 0)
    ensures ws' == ws
  {
    forall i | 0 <= i < |ws| ensures ws'[i] == ws[i] {
      if ws'[i] != ws[i] {
        NotifiedStrict(ws, ws', i);
      }
    }
  }

  lemma {:induction false} NotifiedStrict(ws: seq<Pc>, ws': seq<Pc>, i: nat)
    requires |ws'| == |ws| && i < |ws| && ws'[i] != ws[i]
    requires forall i :: 0 <= i < |ws| ==> ws'[i] == ws[i] || (ws[i] == Blocked(false) && ws'[i] == Blocked(true))
    ensures Cnt(ws', IsUnsignalled) < Cnt(ws, IsUnsignalled)
  {
    var w := ws[i := ws'[i]];
    CntUpdate(ws, i, ws'[i], IsUnsignalled);
    NotifiedFewer(w, ws');
  }

  lemma {:induction false} NotifiedFewer(ws: seq<Pc>, ws': seq<Pc>)
    requires |ws'| == |ws|
    requires forall i :: 0 <= i < |ws| ==> ws'[i] == ws[i] || (ws[i] == Blocked(false) && ws'[i] == Blocked(true))
    ensures Cnt(ws', IsUnsignalled) <= Cnt(ws, IsUnsignalled)
  {
    if ws != [] {
      NotifiedFewer(ws[1..], ws'[1..]);
    }
  }

  lemma WakeTaken(s: System, s': System, i: nat)
    requires Inv(s) && WakeStep(s, s', i) && !Wake(s.sh).outcome.Blocks?
    ensures Base(s') && Heard(s')
  {
    hide Wake, Exit, Take, FirstEligible, Notified;
    var m := Resumed(s, i);
    ResumedKeeps(s, i);
    WakeEnds(s.sh);
    WakeTakes(s.sh);
    SectionKeeps(m, i, Wake(s.sh), s');
  }

  lemma WakeNotLost(s: System, s': System, i: nat)
    requires Inv(s) && WakeStep(s, s', i) && !Wake(s.sh).outcome.Blocks?
    ensures NoneLost(s')
  {
    hide Wake, Exit, Take, FirstEligible, Notified;
    var m := Resumed(s, i);
    ResumedKeeps(s, i);
    ResumedExcess(s, i);
    WakeEnds(s.sh);
    WakeTakes(s.sh);
    NoneLostAfter(m, i, Wake(s.sh), s', Bit(s.workers[i] == Blocked(true)));
  }

  lemma WakeKeeps(s: System, s': System, i: nat)
    requires Inv(s) && WakeStep(s, s', i)
    ensures Inv(s')
  {
    if Wake(s.sh).outcome.Blocks? {
      WakeSleeps(s, s', i);
    } else {
      WakeTaken(s, s', i);
      WakeNotLost(s, s', i);
    }
  }

  lemma WakeTakes(sh: Shared)
    requires !Wake(sh).outcome.Blocks?
    ensures Wake(sh) != Exit(sh.(waitingThread := sh.waitingThread - 1), [])
  {
    assert Exit(sh.(waitingThread := sh.waitingThread - 1), []).dropped == [];
  }

  lemma LeaveExpiredKeeps(s: System, s': System, i: nat)
    requires Inv(s) && LeaveExpiredStep(s, s', i)
    ensures Inv(s')
  {
    hide Exit, Take, FirstEligible, Notified;
    var m := Resumed(s, i);
    ResumedKeeps(s, i);
    ResumedExcess(s, i);
    CntWitness(s.workers, IsExpired);
    assert IsExpired(s.workers[i]);
    assert Applied(m, i, LeaveExpired(s.sh), s');
    ExitLeaves(m.sh);
    SectionKeeps(m, i, LeaveExpired(s.sh), s');
    NoneLostAfter(m, i, LeaveExpired(s.sh), s', 0);
  }

  lemma ExitLeaves(sh: Shared)
    ensures Exit(sh, []).outcome.Leaves?
  {
  }

  lemma ExpireKeeps(s: System, s': System, i: nat)
    requires Inv(s) && ExpireStep(s, s', i)
    ensures Inv(s')
  {
    CntUpdate(s.workers, i, Expired, IsWaiter);
    CntUpdate(s.workers, i, Expired, IsLive);
    CntUpdate(s.workers, i, Expired, IsBusy);
    CntUpdate(s.workers, i, Expired, IsFreeing);
    CntUpdate(s.workers, i, Expired, IsUnsignalled);
    CntUpdate(s.workers, i, Expired, IsSignalled);
    RunningSame(s.workers, i, Expired);
  }

  // ---------- finishing a task ----------

  lemma CompletedCounts(s: System, m: System, i: nat)
    requires Completed(s, m, i)
    ensures Cnt(m.workers, IsWaiter) == Cnt(s.workers, IsWaiter)
    ensures Cnt(m.workers, IsLive) == Cnt(s.workers, IsLive)
    ensures Cnt(m.workers, IsBusy) == Cnt(s.workers, IsBusy) - 1
    ensures Cnt(m.workers, IsFreeing) == Cnt(s.workers, IsFreeing)
    ensures Cnt(m.workers, IsExpired) == Cnt(s.workers, IsExpired)
  {
    var w := s.workers[i := Fresh];
    NotifiedCounts(w, m.workers, CompleteSignals(s.sh, s.workers[i].task));
    CntUpdate(s.workers, i, Fresh, IsWaiter);
    CntUpdate(s.workers, i, Fresh, IsLive);
    CntUpdate(s.workers, i, Fresh, IsBusy);
    CntUpdate(s.workers, i, Fresh, IsFreeing);
    CntUpdate(s.workers, i, Fresh, IsExpired);
  }

  lemma CompletedRunning(s: System, m: System, i: nat)
    requires Completed(s, m, i)
    ensures var t, r, r' := s.workers[i].task, Running(s.workers), Running(m.workers);
            && multiset(r) == multiset(r') + multiset{t}
            && (forall g :: g != Group(t) ==> Sub(r', g) == Sub(r, g))
            && |Sub(r, Group(t))| == |Sub(r', Group(t))| + 1
            && (Sub(r', Group(t)) == [] ==> Sub(r, Group(t)) == [t])
            && r != []
  {
    var w := s.workers[i := Fresh];
    NotifiedCounts(w, m.workers, CompleteSignals(s.sh, s.workers[i].task));
    assert s.workers == w[i := s.workers[i]];
    RunningStart(w, i, s.workers[i].task);
    assert s.workers[i].task in multiset(Running(s.workers));
  }

  lemma CompletedSerial(s: System, m: System, i: nat)
    requires Serial(s) && Completed(s, m, i)
    ensures Serial(m)
  {
    CompletedRunning(s, m, i);
    forall g | g != 0
      ensures |Sub(Running(m.workers), g)| == Bit(g in m.sh.run)
    {
      assert |Sub(Running(s.workers), g)| == Bit(g in s.sh.run);
    }
  }

  lemma CompletedOrdered(s: System, m: System, i: nat)
    requires Serial(s) && Ordered(s) && Completed(s, m, i)
    ensures Ordered(m)
  {
    CompletedRunning(s, m, i);
    forall g | g != 0
      ensures Sub(m.accepted, g) ==
              Sub(m.finished, g) + Sub(Running(m.workers), g) + Sub(m.dropped, g) + Sub(m.sh.queue, g)
    {
      assert |Sub(Running(s.workers), g)| == Bit(g in s.sh.run);
      FinishedFor(s.workers[i].task, g, s.finished, Running(s.workers), Running(m.workers),
                  Sub(s.dropped, g), Sub(s.sh.queue, g));
    }
  }

  lemma FinishedFor(t: Task, g: int, f: seq<Task>, r: seq<Task>, r': seq<Task>, d: seq<Task>, q: seq<Task>)
    requires g != Group(t) ==> Sub(r', g) == Sub(r, g)
    requires g == Group(t) ==> Sub(r', g) == [] && Sub(r, g) == [t]
    ensures Sub(f + [t], g) + Sub(r', g) + d + q == Sub(f, g) + Sub(r, g) + d + q
  {
    SubConcat(f, [t], g);
    SubOne(t, g);
    if g == Group(t) {
      FinishFront(Sub(f, g), t, d, q);
    } else {
      assert Sub(f, g) + [] == Sub(f, g);
    }
  }

  lemma CompletedConserved(s: System, m: System, i: nat)
    requires Conserved(s) && Completed(s, m, i)
    ensures Conserved(m)
  {
    CompletedRunning(s, m, i);
    var one := multiset{s.workers[i].task};
    assert multiset(s.finished + [s.workers[i].task]) == multiset(s.finished) + one;
    BagFinish(multiset(s.finished), multiset(Running(s.workers)), multiset(Running(m.workers)), one,
              multiset(s.dropped), multiset(s.sh.queue), multiset(s.accepted)[Stop := s.tokens]);
  }

  lemma BagFinish(f: multiset<Task>, r: multiset<Task>, r': multiset<Task>, one: multiset<Task>,
                  d: multiset<Task>, q: multiset<Task>, all: multiset<Task>)
    requires r == r' + one && f + r + d + q == all
    ensures (f + one) + r' + d + q == all
  {
  }

  lemma FinishFront(f: seq<Task>, t: Task, d: seq<Task>, q: seq<Task>)
    ensures f + [t] + [] + d + q == f + [t] + d + q
  {
  }

  lemma CompletedReal(s: System, m: System, i: nat)
    requires RealWork(s) && Completed(s, m, i)
    ensures RealWork(m)
  {
    CompletedRunning(s, m, i);
    assert s.workers[i].task in multiset(Running(s.workers));
    assert Stop !in multiset(Running(s.workers));
    assert Stop !in multiset(Running(m.workers));
  }

  lemma CompletedKeeps(s: System, m: System, i: nat)
    requires Base(s) && Completed(s, m, i)
    ensures Base(m) && Heard(m)
  {
    CompletedCounts(s, m, i);
    CompletedRunning(s, m, i);
    CompletedSerial(s, m, i);
    CompletedOrdered(s, m, i);
    CompletedConserved(s, m, i);
    CompletedReal(s, m, i);
    FreshHolds(m, i);
  }

  lemma CompletedExcess(s: System, m: System, i: nat)
    requires NoneLost(s) && Completed(s, m, i)
    ensures Excess(m, Bit(s.sh.running))
  {
    var t := s.workers[i].task;
    var w := s.workers[i := Fresh];
    NotifiedCounts(w, m.workers, CompleteSignals(s.sh, t));
    CntUpdate(s.workers, i, Fresh, IsUnsignalled);
    CntUpdate(s.workers, i, Fresh, IsSignalled);
    EligibleAfterFinish(s.sh.queue, s.sh.run, Group(t));
  }

  lemma FinishKeeps(s: System, m: System, s': System, i: nat)
    requires Inv(s) && FinishStep(s, m, s', i)
    ensures Inv(s')
  {
    CompletedKeeps(s, m, i);
    CompletedExcess(s, m, i);
    LookKeeps(m, i, s', Bit(s.sh.running));
  }

  // ---------- pushing ----------

  lemma PushCounts(s: System, s': System, t: Task, c: bool)
    requires PushStep(s, s', t, c)
    ensures var r := Push(s.sh, t, s.maxThreads, c);
      && Cnt(s'.workers, IsWaiter) == Cnt(s.workers, IsWaiter)
      && Cnt(s'.workers, IsLive) == Cnt(s.workers, IsLive) + Bit(r.spawned)
      && Cnt(s'.workers, IsBusy) == Cnt(s.workers, IsBusy)
      && Cnt(s'.workers, IsFreeing) == Cnt(s.workers, IsFreeing)
      && Cnt(s'.workers, IsExpired) == Cnt(s.workers, IsExpired)
      && Running(s'.workers) == Running(s.workers)
      && Cnt(s'.workers, IsUnsignalled) + Cnt(s'.workers, IsSignalled)
         == Cnt(s.workers, IsUnsignalled) + Cnt(s.workers, IsSignalled)
      && Cnt(s'.workers, IsUnsignalled)
         == (if Cnt(s.workers, IsUnsignalled) < r.signals then 0 else Cnt(s.workers, IsUnsignalled) - r.signals)
  {
    var r := Push(s.sh, t, s.maxThreads, c);
    NotifiedCounts(s.workers, s'.workers[..|s.workers|], r.signals);
    PushSplit(s, s', t, c, IsWaiter);
    PushSplit(s, s', t, c, IsLive);
    PushSplit(s, s', t, c, IsBusy);
    PushSplit(s, s', t, c, IsFreeing);
    PushSplit(s, s', t, c, IsExpired);
    PushSplit(s, s', t, c, IsUnsignalled);
    PushSplit(s, s', t, c, IsSignalled);
  }

  lemma PushSplit(s: System, s': System, t: Task, c: bool, p: Pc -> bool)
    requires PushStep(s, s', t, c)
    ensures Cnt(s'.workers, p)
         == Cnt(s'.workers[..|s.workers|], p) + Bit(Push(s.sh, t, s.maxThreads, c).spawned && p(Fresh))
    ensures Running(s'.workers) == Running(s'.workers[..|s.workers|])
  {
    var a, b := s'.workers[..|s.workers|], s'.workers[|s.workers|..];
    assert s'.workers == a + b;
    CntConcat(a, b, p);
    RunningConcat(a, b);
    if Push(s.sh, t, s.maxThreads, c).spawned {
      assert b == [Fresh] && b[1..] == [];
    } else {
      assert b == [];
    }
  }

  lemma PushOrdered(s: System, s': System, t: Task, c: bool)
    requires Serial(s) && Ordered(s) && PushStep(s, s', t, c)
    ensures Serial(s') && Ordered(s')
  {
    PushSplit(s, s', t, c, IsBusy);
    NotifiedCounts(s.workers, s'.workers[..|s.workers|], Push(s.sh, t, s.maxThreads, c).signals);
    if Push(s.sh, t, s.maxThreads, c).queued {
      forall g | g != 0
        ensures Sub(s'.accepted, g) ==
                Sub(s'.finished, g) + Sub(Running(s'.workers), g) + Sub(s'.dropped, g) + Sub(s'.sh.queue, g)
      {
        SubConcat(s.accepted, [t], g);
        SubConcat(s.sh.queue, [t], g);
      }
    }
  }

  lemma PushConserved(s: System, s': System, t: Task, c: bool)
    requires Conserved(s) && PushStep(s, s', t, c)
    ensures Conserved(s')
  {
    PushSplit(s, s', t, c, IsBusy);
    NotifiedCounts(s.workers, s'.workers[..|s.workers|], Push(s.sh, t, s.maxThreads, c).signals);
    if Push(s.sh, t, s.maxThreads, c).queued {
      assert multiset(s.sh.queue + [t]) == multiset(s.sh.queue) + multiset{t};
      assert multiset(s.accepted + [t]) == multiset(s.accepted) + multiset{t};
      var a, n := multiset(s.accepted), s.tokens;
      assert (a + multiset{t})[Stop := n] == a[Stop := n] + multiset{t};
    }
  }

  lemma PushNotLost(s: System, s': System, t: Task, c: bool)
    requires Inv(s) && PushStep(s, s', t, c)
    ensures NoneLost(s')
  {
    PushCounts(s, s', t, c);
    if Push(s.sh, t, s.maxThreads, c).queued {
      EligibleAfterPush(s.sh.queue, s.sh.run, t);
      UnsignalledWaits(s.workers);
    }
  }

  lemma PushStaffed(s: System, s': System, t: Task, c: bool)
    requires Inv(s) && PushStep(s, s', t, c)
    ensures Staffed(s')
  {
    PushCounts(s, s', t, c);
    var r := Push(s.sh, t, s.maxThreads, c);
    if r.queued && s.sh.queue == [] && s.sh.numThreads == 0 {
      LiveParts(s.workers);
      RunningCount(s.workers);
      GroupsZero(s.sh.queue);
      assert Sub(Running(s.workers), Group(t)) == [];
      assert !InPool(s.sh, Group(t)) by {
        if Group(t) != 0 {
          assert |Sub(Running(s.workers), Group(t))| == Bit(Group(t) in s.sh.run);
        }
      }
    }
  }

  lemma PushKeeps(s: System, s': System, t: Task, c: bool)
    requires Inv(s) && PushStep(s, s', t, c)
    ensures Inv(s')
  {
    PushOrdered(s, s', t, c);
    PushConserved(s, s', t, c);
    PushCounts(s, s', t, c);
    PushNotLost(s, s', t, c);
    PushStaffed(s, s', t, c);
  }

  // ---------- free ----------

  /** The state in which free makes its test. */
  ghost predicate Ready(x: System) {
    && Accounts(x) && Serial(x) && Ordered(x) && Conserved(x) && RealWork(x) && NoneLost(x) && Staffed(x)
    && !x.sh.running && x.waited == x.sh.waiting && Deaths(x) == Bit(x.caller.Destroying?) && !x.caller.Destroying?
    && (x.dropped != [] ==> x.sh.immediate)
    && (Stop in x.sh.queue ==> x.sh.immediate)
    && (!x.forced ==> !x.sh.immediate)
  }

  lemma FreeCounts(x: System, s': System)
    requires FreeApplied(x, FreeCheck(x.sh), s')
    ensures Cnt(s'.workers, IsWaiter) == Cnt(x.workers, IsWaiter)
    ensures Cnt(s'.workers, IsLive) == Cnt(x.workers, IsLive)
    ensures Cnt(s'.workers, IsBusy) == Cnt(x.workers, IsBusy)
    ensures Cnt(s'.workers, IsFreeing) == Cnt(x.workers, IsFreeing)
    ensures Cnt(s'.workers, IsExpired) == Cnt(x.workers, IsExpired)
    ensures Running(s'.workers) == Running(x.workers)
  {
    NotifiedCounts(x.workers, s'.workers, FreeCheck(x.sh).signals);
  }

  lemma FreeTokens(sh: Shared)
    ensures var sec := FreeCheck(sh);
      && sec.sh.queue == sh.queue + Tokens(sec.tokens) && sec.sh.run == sh.run
      && sec.sh.waitingThread == sh.waitingThread && sec.sh.numThreads == sh.numThreads
      && sec.sh.taskCount == sh.taskCount && sec.sh.running == sh.running
      && (sh.immediate ==> sec.sh.immediate)
      && (sec.tokens > 0 ==> sec.sh.immediate)
      && (sec.sh.immediate && !sh.immediate ==> GroupLength(sh) == -sh.numThreads)
      && (sh.waitingThread > 0 && 0 !in sh.run ==> sec.signals == sec.tokens)
  {
    assert sh.queue + Tokens(0) == sh.queue;
  }

  lemma FreeOrdered(x: System, s': System)
    requires Ready(x) && FreeApplied(x, FreeCheck(x.sh), s')
    ensures Accounts(s') && Serial(s') && Ordered(s')
  {
    var sec := FreeCheck(x.sh);
    FreeCounts(x, s');
    FreeTokens(x.sh);
    forall g | g != 0
      ensures Sub(s'.accepted, g) ==
              Sub(s'.finished, g) + Sub(Running(s'.workers), g) + Sub(s'.dropped, g) + Sub(s'.sh.queue, g)
    {
      SubTokens(x.sh.queue, sec.tokens, g);
    }
  }

  lemma FreeConserved(x: System, s': System)
    requires Conserved(x) && FreeApplied(x, FreeCheck(x.sh), s')
    ensures Conserved(s')
  {
    var sec := FreeCheck(x.sh);
    FreeCounts(x, s');
    FreeTokens(x.sh);
    BagTokens(multiset(x.finished), multiset(Running(x.workers)), multiset(x.dropped),
              x.sh.queue, multiset(x.accepted), x.tokens, sec.tokens);
  }

  lemma BagTokens(f: multiset<Task>, r: multiset<Task>, d: multiset<Task>, q: seq<Task>,
                  a: multiset<Task>, n: nat, k: nat)
    requires f + r + d + multiset(q) == a[Stop := n]
    ensures f + r + d + multiset(q + Tokens(k)) == a[Stop := n + k]
  {
    TokenBag(k);
    assert multiset(q + Tokens(k)) == multiset(q) + multiset(Tokens(k));
    assert a[Stop := n] + multiset(Tokens(k)) == a[Stop := n + k];
    assert f + r + d + (multiset(q) + multiset(Tokens(k))) == (f + r + d + multiset(q)) + multiset(Tokens(k));
  }

  lemma FreeNotLost(x: System, s': System)
    requires Ready(x) && FreeApplied(x, FreeCheck(x.sh), s')
    ensures NoneLost(s')
  {
    var sec := FreeCheck(x.sh);
    FreeTokens(x.sh);
    NotifiedCounts(x.workers, s'.workers, sec.signals);
    EligibleAfterTokens(x.sh.queue, x.sh.run, sec.tokens);
    UnsignalledWaits(x.workers);
  }

  lemma FreeDrained(x: System, s': System)
    requires Ready(x) && FreeApplied(x, FreeCheck(x.sh), s')
    ensures Flags(s') && Drained(s') && RealWork(s')
  {
    FreeCounts(x, s');
    FreeTokens(x.sh);
    ShutdownTest(x);
    if !x.forced {
      assert x.dropped == [];
    }
  }

  lemma FreeLifetime(x: System, s': System)
    requires Ready(x) && FreeApplied(x, FreeCheck(x.sh), s')
    ensures Lifetime(s') && Heard(s') && Staffed(s')
  {
    FreeCounts(x, s');
    FreeTokens(x.sh);
  }

  lemma FreeKeeps(x: System, s': System)
    requires Ready(x) && FreeApplied(x, FreeCheck(x.sh), s')
    ensures Inv(s')
  {
    FreeOrdered(x, s');
    FreeConserved(x, s');
    FreeDrained(x, s');
    FreeLifetime(x, s');
    FreeNotLost(x, s');
  }

  lemma CallFreeKeeps(s: System, s': System, immediate: bool, wait: bool)
    requires Inv(s) && CallFreeStep(s, s', immediate, wait)
    ensures Inv(s')
  {
    var x := s.(forced := immediate, waited := wait,
                sh := s.sh.(running := false, immediate := immediate, waiting := wait));
    assert s.caller.NotCalled? && !s.sh.immediate;
    assert Deaths(x) == Deaths(s) == 0;
    assert FreeApplied(x, FreeCheck(x.sh), s');
    FreeKeeps(x, s');
  }

  lemma CallerWakeKeeps(s: System, s': System)
    requires Inv(s) && CallerWakeStep(s, s')
    ensures Inv(s')
  {
    FreeKeeps(s, s');
  }

  lemma WorkerDestroyKeeps(s: System, s': System, i: nat)
    requires Inv(s) && WorkerDestroyStep(s, s', i)
    ensures Inv(s')
  {
    CntUpdate(s.workers, i, Gone, IsWaiter);
    CntUpdate(s.workers, i, Gone, IsLive);
    CntUpdate(s.workers, i, Gone, IsBusy);
    CntUpdate(s.workers, i, Gone, IsFreeing);
    CntUpdate(s.workers, i, Gone, IsExpired);
    CntUpdate(s.workers, i, Gone, IsUnsignalled);
    CntUpdate(s.workers, i, Gone, IsSignalled);
    RunningSame(s.workers, i, Gone);
  }

  lemma CallerDestroyKeeps(s: System, s': System)
    requires Inv(s) && CallerDestroyStep(s, s')
    ensures Inv(s')
  {
  }
}
