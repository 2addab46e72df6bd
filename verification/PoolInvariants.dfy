/** What every step of the thread pool keeps. Each invariant is proved for the three ways a
    worker can end its lock section (leave, take a task, block) and for the remaining steps. */
module PoolInvariants {
  import opened PoolCore
  import opened PoolSystem

  // ---------- the invariants ----------

  /** The pool's counters tell the truth. */
  ghost predicate Accounts(s: System) {
    && s.sh.waitingThread == Cnt(s.workers, IsWaiter)
    && s.sh.numThreads == Cnt(s.workers, IsLive) <= s.maxThreads
    && s.sh.taskCount == |s.sh.queue| + Cnt(s.workers, IsBusy) - s.tokens
    && s.sh.taskCount <= MAX_QUEUE_COUNT
  }

  /** An id is marked as running exactly while one task of that id runs. */
  ghost predicate Serial(s: System) {
    0 !in s.sh.run && forall g :: g != 0 ==> |Sub(Running(s.workers), g)| == Bit(g in s.sh.run)
  }

  /** The accepted tasks of an id are, in push order, finished, running, thrown away, queued. */
  ghost predicate Ordered(s: System) {
    forall g :: g != 0 ==>
      Sub(s.accepted, g) ==
      Sub(s.finished, g) + Sub(Running(s.workers), g) + Sub(s.dropped, g) + Sub(s.sh.queue, g)
  }

  /** No task is lost, invented or run twice. */
  ghost predicate Conserved(s: System) {
    && Stop !in s.accepted
    && multiset(s.finished) + multiset(Running(s.workers)) + multiset(s.dropped) + multiset(s.sh.queue)
       == multiset(s.accepted)[Stop := s.tokens]
  }

  predicate OnlyTokens(q: seq<Task>) {
    forall t :: t in q ==> t == Stop
  }

  /** Stop tokens are never handed to the task function. */
  ghost predicate RealWork(s: System) {
    Stop !in Running(s.workers) && Stop !in s.finished
  }

  ghost predicate Flags(s: System) {
    && (s.sh.immediate ==> !s.sh.running)
    && (s.dropped != [] ==> s.sh.immediate)
    && (Stop in s.sh.queue ==> s.sh.immediate)
    && (s.caller.NotCalled? <==> s.sh.running)
    && (s.sh.running ==> !s.forced && !s.waited && !s.sh.waiting)
    && (s.caller.Waiting? ==> s.sh.waiting && s.waited)
    && (s.caller.Waiting? && !s.forced ==> !s.sh.immediate)
  }

  /** After a stop that was not forced, tokens are queued only when the real work is done. */
  ghost predicate Drained(s: System) {
    && (!s.forced && s.sh.immediate ==>
          OnlyTokens(s.sh.queue) && Running(s.workers) == [] && OnlyTokens(s.dropped))
    && (!s.forced && s.waited && (s.caller.Destroying? || s.caller.Returned?) ==>
          OnlyTokens(s.sh.queue) && Running(s.workers) == [])
  }

  function Deaths(s: System): nat {
    s.freed + Cnt(s.workers, IsFreeing) + Bit(s.caller.Destroying?)
  }

  /** At most one thread ever destroys the pool, and only when no worker is left. */
  ghost predicate Lifetime(s: System) {
    && Deaths(s) <= 1
    && (Deaths(s) == 1 ==> s.sh.numThreads == 0 && !s.sh.running)
    && (s.caller.Waiting? ==> Deaths(s) == 0)
  }

  /** A waiting caller of free is never left waiting once it could go. */
  ghost predicate Heard(s: System) {
    s.caller == Waiting(false) ==> !FreeMayGo(s.sh)
  }

  /** No signal is lost: while some worker waits unsignalled, every eligible group has a
      signalled worker of its own. */
  ghost predicate NoneLost(s: System) {
    !s.forced && Cnt(s.workers, IsUnsignalled) > 0 ==>
      Eligible(s.sh.queue, s.sh.run) <= Cnt(s.workers, IsSignalled)
  }

  /** Without expired waits and refused threads, queued work always has a worker. */
  ghost predicate Staffed(s: System) {
    && (s.expiries == 0 ==> Cnt(s.workers, IsExpired) == 0)
    && (s.expiries == 0 && s.failures == 0 && !s.sh.immediate && s.sh.queue != [] ==> s.sh.numThreads > 0)
    && s.maxThreads > 0
  }

  ghost predicate Inv(s: System) {
    && Accounts(s) && Serial(s) && Ordered(s) && Conserved(s) && Flags(s) && Drained(s)
    && Lifetime(s) && RealWork(s) && Heard(s) && NoneLost(s) && Staffed(s)
  }

  // ---------- ending a lock section ----------

  /** The three ways a worker that holds the lock ends its section. */
  ghost predicate Ends(sh: Shared, sec: Section) {
    || sec == Exit(sh, [])
    || (FirstEligible(sh.queue, sh.run) < |sh.queue| && sec == Take(sh, FirstEligible(sh.queue, sh.run)))
    || (FirstEligible(sh.queue, sh.run) == |sh.queue|
        && sec == Section(sh.(waitingThread := sh.waitingThread + 1), Blocks, 0, false, [], 0))
  }

  lemma LookEnds(sh: Shared, maxThreads: nat)
    ensures Ends(sh, Look(sh, maxThreads))
  {
  }

  lemma WakeEnds(sh: Shared)
    ensures Ends(sh.(waitingThread := sh.waitingThread - 1), Wake(sh))
  {
  }

  /** Counters after a section. */
  lemma SectionCounters(sh: Shared, sec: Section)
    requires Ends(sh, sec)
    ensures sec.sh.waitingThread == sh.waitingThread + Bit(sec.outcome.Blocks?)
    ensures sec.sh.numThreads == sh.numThreads - Bit(sec.outcome.Leaves?)
    ensures sec.sh.taskCount - |sec.sh.queue| ==
            sh.taskCount - |sh.queue| + Bit(sec.outcome.Runs?) - sec.tokens
    ensures sec.sh.taskCount <= sh.taskCount
    ensures sec.sh.running == sh.running && sec.sh.waiting == sh.waiting
    ensures sh.immediate ==> sec.sh.immediate
  {
  }

  /** Tasks moved by a section. */
  ghost predicate Moved(sh: Shared, sec: Section) {
    var k := FirstEligible(sh.queue, sh.run);
    match sec.outcome
    case Blocks => sec.sh.queue == sh.queue && sec.sh.run == sh.run && sec.dropped == [] && sec.tokens == 0
    case Runs(t) =>
      && k < |sh.queue| && t == sh.queue[k] && (sh.running || !sh.immediate)
      && sec.sh.queue == RemoveAt(sh.queue, k) && sec.dropped == [] && sec.tokens == 0
      && sec.sh.run == (if Group(t) != 0 then sh.run + {Group(t)} else sh.run)
    case Leaves(_) =>
      && sec.sh.run == sh.run
      && (|| (sec.dropped == [] && sec.sh.queue == sh.queue + Tokens(sec.tokens))
          || (&& k < |sh.queue| && !sh.running && sh.immediate
              && sec.dropped == [sh.queue[k]]
              && sec.sh.queue == RemoveAt(sh.queue, k) + Tokens(sec.tokens)))
  }

  lemma SectionMoves(sh: Shared, sec: Section)
    requires Ends(sh, sec)
    ensures Moved(sh, sec)
  {
    assert Tokens(0) == [];
    assert sh.queue + [] == sh.queue;
    var k := FirstEligible(sh.queue, sh.run);
    if k < |sh.queue| {
      assert RemoveAt(sh.queue, k) + [] == RemoveAt(sh.queue, k);
    }
  }

  /** Thread counts after a section. */
  lemma AppliedCounts(m: System, i: nat, sec: Section, s': System)
    requires Applied(m, i, sec, s')
    ensures Cnt(s'.workers, IsWaiter) == Cnt(m.workers, IsWaiter) + Bit(sec.outcome.Blocks?)
    ensures Cnt(s'.workers, IsLive) == Cnt(m.workers, IsLive) - Bit(sec.outcome.Leaves?)
    ensures Cnt(s'.workers, IsBusy) == Cnt(m.workers, IsBusy) + Bit(sec.outcome.Runs?)
    ensures Cnt(s'.workers, IsFreeing) == Cnt(m.workers, IsFreeing) + Bit(sec.outcome == Leaves(true))
    ensures Cnt(s'.workers, IsExpired) == Cnt(m.workers, IsExpired)
  {
    var w := s'.workers[i := Fresh];
    var pc := PcAfter(sec.outcome);
    NotifiedCounts(m.workers, w, sec.signals);
    assert s'.workers == w[i := pc];
    CntUpdate(w, i, pc, IsWaiter);
    CntUpdate(w, i, pc, IsLive);
    CntUpdate(w, i, pc, IsBusy);
    CntUpdate(w, i, pc, IsFreeing);
    CntUpdate(w, i, pc, IsExpired);
  }

  lemma AppliedSignals(m: System, i: nat, sec: Section, s': System)
    requires Applied(m, i, sec, s')
    ensures var u := Cnt(m.workers, IsUnsignalled);
            && Cnt(s'.workers, IsUnsignalled) ==
               (if u < sec.signals then 0 else u - sec.signals) + Bit(sec.outcome.Blocks?)
            && Cnt(s'.workers, IsUnsignalled) + Cnt(s'.workers, IsSignalled) ==
               u + Cnt(m.workers, IsSignalled) + Bit(sec.outcome.Blocks?)
  {
    var w := s'.workers[i := Fresh];
    var pc := PcAfter(sec.outcome);
    NotifiedCounts(m.workers, w, sec.signals);
    assert s'.workers == w[i := pc];
    CntUpdate(w, i, pc, IsUnsignalled);
    CntUpdate(w, i, pc, IsSignalled);
  }

  lemma AppliedRunning(m: System, i: nat, sec: Section, s': System)
    requires Applied(m, i, sec, s')
    ensures !sec.outcome.Runs? ==> Running(s'.workers) == Running(m.workers)
    ensures sec.outcome.Runs? ==>
      var t, r, r' := sec.outcome.task, Running(m.workers), Running(s'.workers);
      && multiset(r') == multiset(r) + multiset{t}
      && (forall g :: g != Group(t) ==> Sub(r', g) == Sub(r, g))
      && |Sub(r', Group(t))| == |Sub(r, Group(t))| + 1
      && (Sub(r, Group(t)) == [] ==> Sub(r', Group(t)) == [t])
  {
    var w := s'.workers[i := Fresh];
    NotifiedCounts(m.workers, w, sec.signals);
    assert s'.workers == w[i := PcAfter(sec.outcome)];
    if sec.outcome.Runs? {
      RunningStart(w, i, sec.outcome.task);
    } else {
      RunningSame(w, i, PcAfter(sec.outcome));
    }
  }

  lemma AccountsAfter(m: System, i: nat, sec: Section, s': System)
    requires Accounts(m) && Ends(m.sh, sec) && Applied(m, i, sec, s')
    ensures Accounts(s')
  {
    SectionCounters(m.sh, sec);
    AppliedCounts(m, i, sec, s');
  }

  lemma SerialAfter(m: System, i: nat, sec: Section, s': System)
    requires Serial(m) && Ends(m.sh, sec) && Applied(m, i, sec, s')
    ensures Serial(s')
  {
    SectionMoves(m.sh, sec);
    AppliedRunning(m, i, sec, s');
  }

  lemma SubTokens(q: seq<Task>, n: nat, g: int)
    requires g != 0
    ensures Sub(q + Tokens(n), g) == Sub(q, g)
  {
    SubConcat(q, Tokens(n), g);
    SubNone(Tokens(n), g);
  }

  lemma OrderedAfter(m: System, i: nat, sec: Section, s': System)
    requires Ordered(m) && Serial(m) && Flags(m) && Ends(m.sh, sec) && Applied(m, i, sec, s')
    ensures Ordered(s')
  {
    SectionMoves(m.sh, sec);
    AppliedRunning(m, i, sec, s');
    forall g | g != 0
      ensures Sub(s'.accepted, g) ==
              Sub(s'.finished, g) + Sub(Running(s'.workers), g) + Sub(s'.dropped, g) + Sub(s'.sh.queue, g)
    {
      assert |Sub(Running(m.workers), g)| == Bit(g in m.sh.run);
      OrderedAfterFor(m.sh, sec, g, Sub(m.finished, g), Running(m.workers), Running(s'.workers), m.dropped);
    }
  }

  lemma OrderedAfterFor(sh: Shared, sec: Section, g: int, f: seq<Task>, r: seq<Task>, r': seq<Task>, d: seq<Task>)
    requires g != 0 && Moved(sh, sec) && |Sub(r, g)| == Bit(g in sh.run)
    requires d != [] ==> sh.immediate && !sh.running
    requires !sec.outcome.Runs? ==> r' == r
    requires sec.outcome.Runs? && g != Group(sec.outcome.task) ==> Sub(r', g) == Sub(r, g)
    requires sec.outcome.Runs? && g == Group(sec.outcome.task) && Sub(r, g) == [] ==> Sub(r', g) == [sec.outcome.task]
    ensures f + Sub(r', g) + Sub(d + sec.dropped, g) + Sub(sec.sh.queue, g)
         == f + Sub(r, g) + Sub(d, g) + Sub(sh.queue, g)
  {
    var k := FirstEligible(sh.queue, sh.run);
    match sec.outcome
    case Blocks =>
      assert d + [] == d;
    case Runs(t) =>
      assert d + sec.dropped == d == [];
      TakeIsOldestOfGroup(sh.queue, sh.run, k, g);
      if g == Group(t) {
        MoveFront(f, t, Sub(sec.sh.queue, g));
      }
    case Leaves(_) =>
      SubConcat(d, sec.dropped, g);
      if sec.dropped == [] {
        SubTokens(sh.queue, sec.tokens, g);
        assert d + [] == d;
      } else {
        SubTokens(RemoveAt(sh.queue, k), sec.tokens, g);
        TakeIsOldestOfGroup(sh.queue, sh.run, k, g);
        SubOne(sh.queue[k], g);
        Regroup(f + Sub(r, g), Sub(d, g), Sub(sec.dropped, g), Sub(sec.sh.queue, g));
      }
  }

  lemma MoveFront(f: seq<Task>, t: Task, q: seq<Task>)
    ensures f + [t] + [] + q == f + [] + [] + ([t] + q)
  {
  }

  lemma Regroup(a: seq<Task>, b: seq<Task>, c: seq<Task>, d: seq<Task>)
    ensures a + (b + c) + d == a + b + (c + d)
  {
  }

  lemma SubOne(t: Task, g: int)
    ensures Sub([t], g) == if Group(t) == g then [t] else []
  {
    assert [t][1..] == [];
  }

  lemma {:induction false} TokenBag(n: nat)
    ensures multiset(Tokens(n)) == multiset{}[Stop := n]
  {
    if n > 0 {
      TokenBag(n - 1);
      assert Tokens(n) == Tokens(n - 1) + [Stop];
    } else {
      assert Tokens(0) == [];
    }
  }

  lemma BagMoved(sh: Shared, sec: Section)
    requires Moved(sh, sec)
    ensures multiset(sec.sh.queue) + multiset(sec.dropped)
              + (if sec.outcome.Runs? then multiset{sec.outcome.task} else multiset{})
         == multiset(sh.queue) + multiset(Tokens(sec.tokens))
  {
    var k := FirstEligible(sh.queue, sh.run);
    if k < |sh.queue| {
      RemoveMembers(sh.queue, k);
    }
    assert Tokens(0) == [];
  }

  lemma ConservedAfter(m: System, i: nat, sec: Section, s': System)
    requires Conserved(m) && Ends(m.sh, sec) && Applied(m, i, sec, s')
    ensures Conserved(s')
  {
    SectionMoves(m.sh, sec);
    BagMoved(m.sh, sec);
    AppliedRunning(m, i, sec, s');
    TokenBag(sec.tokens);
    var tk := multiset(Tokens(sec.tokens));
    var x := if sec.outcome.Runs? then multiset{sec.outcome.task} else multiset{};
    assert multiset(Running(s'.workers)) == multiset(Running(m.workers)) + x;
    assert multiset(m.dropped + sec.dropped) == multiset(m.dropped) + multiset(sec.dropped);
    BagSum(multiset(m.finished), multiset(Running(m.workers)), multiset(m.dropped), multiset(sec.dropped),
           multiset(m.sh.queue), multiset(sec.sh.queue), x, tk, multiset(m.accepted), m.tokens, sec.tokens);
  }

  lemma BagSum(f: multiset<Task>, r: multiset<Task>, d: multiset<Task>, e: multiset<Task>, q: multiset<Task>,
               q': multiset<Task>, x: multiset<Task>, tk: multiset<Task>, a: multiset<Task>, n: nat, k: nat)
    requires q' + e + x == q + tk && f + r + d + q == a[Stop := n] && tk == multiset{}[Stop := k]
    ensures f + (r + x) + (d + e) + q' == a[Stop := n + k]
  {
    calc {
      f + (r + x) + (d + e) + q';
      f + r + d + (q' + e + x);
      f + r + d + q + tk;
      a[Stop := n] + tk;
      a[Stop := n + k];
    }
  }

  predicate IsFresh(pc: Pc) { pc.Fresh? }
  predicate IsWaiterOrBusy(pc: Pc) { IsWaiter(pc) || IsBusy(pc) }

  /** Live threads are fresh, waiting or busy. */
  lemma LiveParts(ws: seq<Pc>)
    ensures Cnt(ws, IsLive) == Cnt(ws, IsFresh) + Cnt(ws, IsWaiter) + Cnt(ws, IsBusy)
  {
    CntDisjoint(ws, IsWaiter, IsBusy, IsWaiterOrBusy);
    CntDisjoint(ws, IsFresh, IsWaiterOrBusy, IsLive);
  }

  lemma FreshIsLive(ws: seq<Pc>, i: nat)
    requires i < |ws| && ws[i] == Fresh
    ensures Cnt(ws, IsWaiter) + Cnt(ws, IsBusy) + 1 <= Cnt(ws, IsLive)
  {
    LiveParts(ws);
    CntWitness(ws, IsFresh);
    assert IsFresh(ws[i]);
  }

  /** The test that decides the shutdown: the group length is minus the thread count exactly
      when nothing is queued and every thread waits. */
  lemma ShutdownTest(s: System)
    requires Accounts(s)
    ensures GroupLength(s.sh) == -s.sh.numThreads
       <==> s.sh.queue == [] && Cnt(s.workers, IsWaiter) == Cnt(s.workers, IsLive)
    ensures GroupLength(s.sh) == -s.sh.numThreads ==> Running(s.workers) == []
  {
    GroupsZero(s.sh.queue);
    LiveParts(s.workers);
    RunningCount(s.workers);
  }

  lemma TakenIsQueued(sh: Shared)
    requires FirstEligible(sh.queue, sh.run) < |sh.queue|
    ensures sh.queue[FirstEligible(sh.queue, sh.run)] in sh.queue
    ensures forall t :: t in RemoveAt(sh.queue, FirstEligible(sh.queue, sh.run)) ==> t in sh.queue
  {
    RemoveMembers(sh.queue, FirstEligible(sh.queue, sh.run));
  }

  lemma QueueAfter(sh: Shared, sec: Section)
    requires Ends(sh, sec)
    ensures forall t :: t in sec.sh.queue ==> t in sh.queue || (t == Stop && sec.sh.immediate && !sh.running)
    ensures forall t :: t in sec.dropped ==> t in sh.queue && sh.immediate && !sh.running
    ensures sec.outcome.Runs? ==> sec.outcome.task in sh.queue && (sh.running || !sh.immediate)
    ensures sec.sh.immediate && !sh.immediate ==>
      !sh.running && !sh.waiting && sec == Exit(sh, []) && GroupLength(sh) == -(sh.numThreads - 1)
    ensures sec.outcome == Leaves(true) ==> !sh.running && !sh.waiting && sh.numThreads == 1
  {
    if FirstEligible(sh.queue, sh.run) < |sh.queue| {
      TakenIsQueued(sh);
    }
  }

  lemma FlagsAfter(m: System, i: nat, sec: Section, s': System)
    requires Flags(m) && Ends(m.sh, sec) && Applied(m, i, sec, s')
    ensures Flags(s')
  {
    SectionCounters(m.sh, sec);
    QueueAfter(m.sh, sec);
  }

  lemma RealWorkAfter(m: System, i: nat, sec: Section, s': System)
    requires Flags(m) && RealWork(m) && Ends(m.sh, sec) && Applied(m, i, sec, s')
    ensures RealWork(s')
  {
    QueueAfter(m.sh, sec);
    AppliedRunning(m, i, sec, s');
    assert Stop !in multiset(Running(s'.workers));
  }

  lemma DrainedAfter(m: System, i: nat, sec: Section, s': System)
    requires Flags(m) && Accounts(m) && Drained(m) && Ends(m.sh, sec) && Applied(m, i, sec, s')
    ensures Drained(s')
  {
    SectionCounters(m.sh, sec);
    QueueAfter(m.sh, sec);
    AppliedRunning(m, i, sec, s');
    if sec.sh.immediate && !m.sh.immediate {
      FreshIsLive(m.workers, i);
      GroupsZero(m.sh.queue);
      RunningCount(m.workers);
    }
  }

  lemma LifetimeAfter(m: System, i: nat, sec: Section, s': System)
    requires Flags(m) && Accounts(m) && Lifetime(m) && Ends(m.sh, sec) && Applied(m, i, sec, s')
    ensures Lifetime(s')
  {
    SectionCounters(m.sh, sec);
    QueueAfter(m.sh, sec);
    AppliedCounts(m, i, sec, s');
    FreshIsLive(m.workers, i);
  }

  lemma HeardAfter(m: System, i: nat, sec: Section, s': System)
    requires Flags(m) && Accounts(m) && Heard(m) && Ends(m.sh, sec) && Applied(m, i, sec, s')
    requires sec.outcome.Blocks? ==> !MustLeave(m.sh, m.maxThreads)
    ensures Heard(s')
  {
    if s'.caller == Waiting(false) {
      SectionCounters(m.sh, sec);
      AppliedCounts(m, i, sec, s');
      FreshIsLive(m.workers, i);
      AccountsAfter(m, i, sec, s');
    }
  }

  /** The eligible groups exceed the signalled waiters by at most x. */
  ghost predicate Excess(s: System, x: nat) {
    !s.forced && Cnt(s.workers, IsUnsignalled) > 0 ==>
      Eligible(s.sh.queue, s.sh.run) <= Cnt(s.workers, IsSignalled) + x
  }

  lemma UnsignalledWaits(ws: seq<Pc>)
    ensures Cnt(ws, IsUnsignalled) <= Cnt(ws, IsWaiter)
  {
    CntLeq(ws, IsUnsignalled, IsWaiter);
  }

  lemma ExitEligible(sh: Shared, dropped: seq<Task>)
    ensures var sec := Exit(sh, dropped);
            && Eligible(sec.sh.queue, sec.sh.run) == Eligible(sh.queue, sh.run) + sec.tokens
            && (sh.waitingThread > 0 && 0 !in sh.run ==> sec.signals == sec.tokens)
            && sec.dropped == dropped
  {
    var sec := Exit(sh, dropped);
    assert sh.queue + Tokens(0) == sh.queue;
    assert sec.sh.queue == sh.queue + Tokens(sec.tokens);
    EligibleAfterTokens(sh.queue, sh.run, sec.tokens);
  }

  /** What a section does to the number of eligible groups when no real task may be dropped. */
  lemma SectionEligible(sh: Shared, sec: Section)
    requires Ends(sh, sec) && 0 !in sh.run
    requires !sh.running && sh.immediate ==> OnlyTokens(sh.queue)
    ensures sec.outcome.Blocks? ==> Eligible(sec.sh.queue, sec.sh.run) == 0
    ensures sec.outcome.Runs? ==> Eligible(sec.sh.queue, sec.sh.run) == Eligible(sh.queue, sh.run) - 1
    ensures sec.outcome.Leaves? ==>
      Eligible(sec.sh.queue, sec.sh.run) ==
      Eligible(sh.queue, sh.run) + sec.tokens - if sec == Exit(sh, []) then 0 else 1
    ensures sec.outcome.Leaves? && sh.waitingThread > 0 ==> sec.signals == sec.tokens
    ensures !sec.outcome.Leaves? ==> sec.signals == 0
  {
    EligibleIffFound(sh.queue, sh.run);
    if sec == Exit(sh, []) {
      ExitEligible(sh, []);
    } else if FirstEligible(sh.queue, sh.run) < |sh.queue| {
      TakeEligible(sh);
    }
  }

  lemma TakeEligible(sh: Shared)
    requires FirstEligible(sh.queue, sh.run) < |sh.queue| && 0 !in sh.run
    requires !sh.running && sh.immediate ==> OnlyTokens(sh.queue)
    ensures var sec := Take(sh, FirstEligible(sh.queue, sh.run));
      && sec != Exit(sh, [])
      && !sec.outcome.Blocks?
      && Eligible(sec.sh.queue, sec.sh.run) == Eligible(sh.queue, sh.run) - 1 + sec.tokens
      && (sec.outcome.Runs? ==> sec.signals == sec.tokens == 0)
      && (sh.waitingThread > 0 ==> sec.signals == sec.tokens)
  {
    hide Eligible;
    var k := FirstEligible(sh.queue, sh.run);
    EligibleAfterRun(sh.queue, sh.run, k);
    var rest := RemoveAt(sh.queue, k);
    if sh.running || !sh.immediate {
      assert Exit(sh, []).outcome.Leaves?;
    } else {
      TakenIsQueued(sh);
      assert Group(sh.queue[k]) == 0;
      var s := sh.(queue := rest, taskCount := sh.taskCount - 1);
      ExitEligible(s, [sh.queue[k]]);
      assert Exit(sh, []).dropped == [];
      assert Take(sh, k) == Exit(s, [sh.queue[k]]);
    }
  }

  lemma NoneLostAfter(m: System, i: nat, sec: Section, s': System, x: nat)
    requires Flags(m) && Drained(m) && Accounts(m) && Serial(m) && x <= 1 && Excess(m, x)
    requires Ends(m.sh, sec) && Applied(m, i, sec, s')
    requires sec == Exit(m.sh, []) ==> x == 0
    ensures NoneLost(s')
  {
    if !m.forced {
      AppliedSignals(m, i, sec, s');
      UnsignalledWaits(m.workers);
      SectionEligible(m.sh, sec);
    }
  }

  lemma StaffedAfter(m: System, i: nat, sec: Section, s': System)
    requires Accounts(m) && Staffed(m) && Ends(m.sh, sec) && Applied(m, i, sec, s')
    requires sec == Exit(m.sh, []) ==> MustLeave(m.sh, m.maxThreads) || m.expiries > 0
    ensures Staffed(s')
  {
    SectionCounters(m.sh, sec);
    AppliedCounts(m, i, sec, s');
    FreshIsLive(m.workers, i);
    GroupsZero(m.sh.queue);
  }
}
