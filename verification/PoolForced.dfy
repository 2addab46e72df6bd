/** Exactly when a stop that is forced and waits can hang. Once it is called, a waiting worker leaves
    only if it finds a task to throw away, and only a worker whose task of a nonzero id returns
    signals one more of them. */
module PoolForced {
  import opened PoolCore
  import opened PoolSystem
  import opened PoolInvariants
  import opened PoolRuns
  import opened PoolTheorems
  import opened PoolLimits
  import opened PoolExact

  // ---------- the numbers that decide ----------

  /** Queued tasks whose group is not running. */
  function Ready(q: seq<Task>, run: set<int>): nat {
    if q == [] then 0 else (if Group(q[0]) in run then 0 else 1) + Ready(q[1..], run)
  }

  /** Waiting workers, signalled ones among them, queued tasks, ready ones among them, running ids
      with no queued task and running ids with one. */
  datatype Numbers = Numbers(waiting: int, signalled: int, queued: int, ready: int, idle: int, held: int)

  ghost function NumbersOf(s: System): Numbers {
    Numbers(s.sh.waitingThread, Cnt(s.workers, IsSignalled), |s.sh.queue|, Ready(s.sh.queue, s.sh.run),
            |s.sh.run - QueuedIds(s.sh.queue)|, |s.sh.run * QueuedIds(s.sh.queue)|)
  }

  function Min(a: int, b: int): int { if a < b then a else b }

  /** The waiters that are certain to find a task to throw away: signalled ones, and ones that an
      idle id will signal, as long as ready tasks last, and one for every id that holds some back. */
  function Certain(n: Numbers): int {
    Min(n.signalled + n.idle, n.ready) + n.held
  }

  /** More waiters than are certain to leave, and more tasks than are certain to go. */
  predicate CanHang(n: Numbers) {
    n.waiting > Certain(n) && n.queued > Certain(n)
  }

  predicate Sound(n: Numbers) {
    0 <= n.signalled <= n.waiting && 0 <= n.ready && 0 <= n.idle && 0 <= n.held
  }

  // ---------- what a step does to the numbers ----------

  /** A waiter wakes up and finds nothing; `d` is 1 if it was signalled. */
  predicate Sleeps(n: Numbers, n': Numbers, d: int) {
    0 <= d <= 1 && n.ready == 0 && n' == n.(signalled := n.signalled - d)
  }

  /** A waiter wakes up, throws a task away and leaves. */
  predicate Drops(n: Numbers, n': Numbers, d: int) {
    && 0 <= d <= 1
    && n' == n.(waiting := n.waiting - 1, signalled := n.signalled - d, queued := n.queued - 1, ready := n.ready - 1)
  }

  /** The signal of a finishing worker reaches a waiter if one is unsignalled. */
  function Reached(n: Numbers): int {
    if n.waiting > n.signalled then n.signalled + 1 else n.signalled
  }

  /** A task returns whose id has no queued task. */
  predicate FreesIdle(n: Numbers, n': Numbers) {
    n.idle > 0 && n' == n.(idle := n.idle - 1, signalled := Reached(n))
  }

  /** A task returns whose id holds `more` queued tasks back. */
  predicate FreesHeld(n: Numbers, n': Numbers, more: int) {
    && n.held > 0 && more >= 1
    && n' == n.(held := n.held - 1, ready := n.ready + more, signalled := Reached(n))
  }

  ghost predicate Moves(n: Numbers, n': Numbers) {
    || n' == n
    || (exists d :: Sleeps(n, n', d))
    || (exists d :: Drops(n, n', d))
    || FreesIdle(n, n')
    || (exists more :: FreesHeld(n, n', more))
  }

  /** No step makes a hang possible that was not. */
  lemma NoNewDanger(n: Numbers, n': Numbers)
    requires Sound(n) && Sound(n') && Moves(n, n') && CanHang(n')
    ensures CanHang(n)
  {
  }

  // ---------- the queue ----------

  lemma {:induction false} ReadyRemove(q: seq<Task>, run: set<int>, k: nat)
    requires k < |q| && Group(q[k]) !in run
    ensures Ready(RemoveAt(q, k), run) == Ready(q, run) - 1
  {
    if k == 0 {
      assert RemoveAt(q, 0) == q[1..];
    } else {
      ReadyRemove(q[1..], run, k - 1);
      assert RemoveAt(q, k)[1..] == RemoveAt(q[1..], k - 1);
    }
  }

  lemma {:induction false} ReadyFinish(q: seq<Task>, run: set<int>, g: int)
    requires g in run
    ensures Ready(q, run - {g}) == Ready(q, run) + |Sub(q, g)|
  {
    if q != [] {
      ReadyFinish(q[1..], run, g);
    }
  }

  lemma {:induction false} SubQueued(q: seq<Task>, g: int)
    requires g != 0
    ensures |Sub(q, g)| > 0 <==> g in QueuedIds(q)
  {
    if q != [] {
      SubQueued(q[1..], g);
      assert q == [q[0]] + q[1..];
      QueuedIdsConcat([q[0]], q[1..]);
      assert g in QueuedIds([q[0]]) <==> Group(q[0]) == g by {
        assert q[0] in [q[0]];
      }
    }
  }

  lemma {:induction false} NoneReady(q: seq<Task>, run: set<int>)
    ensures Ready(q, run) == 0 <==> FirstEligible(q, run) == |q|
  {
    if q != [] {
      NoneReady(q[1..], run);
    }
  }

  /** A thrown-away task is of no running id, so no running id changes sides. */
  lemma DropKeepsIds(q: seq<Task>, run: set<int>, k: nat)
    requires k < |q| && Group(q[k]) !in run
    ensures run - QueuedIds(RemoveAt(q, k)) == run - QueuedIds(q)
    ensures run * QueuedIds(RemoveAt(q, k)) == run * QueuedIds(q)
  {
    RemoveMembers(q, k);
  }

  lemma FinishMovesId(q: seq<Task>, run: set<int>, g: int)
    requires g in run
    ensures var i, h := run - QueuedIds(q), run * QueuedIds(q);
      && |(run - {g}) - QueuedIds(q)| == |i| - (if g in QueuedIds(q) then 0 else 1)
      && |(run - {g}) * QueuedIds(q)| == |h| - (if g in QueuedIds(q) then 1 else 0)
  {
    var i, h := run - QueuedIds(q), run * QueuedIds(q);
    if g in QueuedIds(q) {
      assert (run - {g}) - QueuedIds(q) == i && (run - {g}) * QueuedIds(q) == h - {g} && g in h;
    } else {
      assert (run - {g}) - QueuedIds(q) == i - {g} && (run - {g}) * QueuedIds(q) == h && g in i;
    }
  }

  // ---------- the steps of a forced stop ----------

  /** A caller of free waits, the pool stops at once, and waits have no time limit. */
  ghost predicate Pending(s: System) {
    Inv(s) && !s.timed && s.expiries == 0 && s.sh.immediate && !s.sh.running && s.caller.Waiting?
  }

  /** Every waiter is signalled or not, since none expires. */
  lemma WaitersAre(s: System)
    requires Pending(s)
    ensures s.sh.waitingThread == Cnt(s.workers, IsUnsignalled) + Cnt(s.workers, IsSignalled)
    ensures Cnt(s.workers, IsExpired) == 0
    ensures Sound(NumbersOf(s))
  {
    CntDisjoint(s.workers, IsUnsignalled, IsSignalled, IsBlocked);
    CntDisjoint(s.workers, IsBlocked, IsExpired, IsWaiter);
  }

  /** A section without signals changes only its own worker, and signals nobody. */
  lemma SectionSignals(m: System, i: nat, sec: Section, s': System)
    requires Applied(m, i, sec, s') && sec.signals == 0
    ensures s'.workers == m.workers[i := PcAfter(sec.outcome)]
    ensures Cnt(s'.workers, IsSignalled) == Cnt(m.workers, IsSignalled)
  {
    NotifiedNone(m.workers, s'.workers[i := Fresh]);
    assert s'.workers == s'.workers[i := Fresh][i := PcAfter(sec.outcome)];
    CntUpdate(m.workers, i, PcAfter(sec.outcome), IsSignalled);
  }

  /** During the stop, a worker that leaves only takes itself off. */
  lemma ExitsQuietly(sh: Shared, dropped: seq<Task>)
    requires !sh.running && sh.immediate && sh.waiting
    ensures Exit(sh, dropped) == Section(sh.(numThreads := sh.numThreads - 1), Leaves(false), 0, true, dropped, 0)
  {
  }

  lemma LookMoves(m: System, i: nat, s': System)
    requires !m.sh.running && m.sh.immediate && m.sh.waiting && Applied(m, i, Look(m.sh, m.maxThreads), s')
    ensures NumbersOf(s') == NumbersOf(m)
  {
    ExitsQuietly(m.sh, []);
    SectionSignals(m, i, Look(m.sh, m.maxThreads), s');
  }

  lemma WakeMoves(s: System, s': System, i: nat)
    requires Pending(s) && WakeStep(s, s', i)
    ensures var d := Bit(s.workers[i] == Blocked(true));
      if NumbersOf(s).ready == 0 then Sleeps(NumbersOf(s), NumbersOf(s'), d) else Drops(NumbersOf(s), NumbersOf(s'), d)
  {
    hide Inv, Wake, Notified, Ready, QueuedIds, Exit, FirstEligible;
    PendingWaits(s);
    WakeSignals(s, s', i);
    NoneReady(s.sh.queue, s.sh.run);
    if FirstEligible(s.sh.queue, s.sh.run) < |s.sh.queue| {
      WakeDrops(s.sh);
    } else {
      WakeSleepsOn(s.sh);
    }
  }

  lemma WakeSignals(s: System, s': System, i: nat)
    requires !s.sh.running && s.sh.immediate && s.sh.waiting && WakeStep(s, s', i)
    ensures s'.sh == Wake(s.sh).sh
    ensures Cnt(s'.workers, IsSignalled) == Cnt(s.workers, IsSignalled) - Bit(s.workers[i] == Blocked(true))
  {
    hide Notified, Wake;
    CntUpdate(s.workers, i, Fresh, IsSignalled);
    WakeIsQuiet(s.sh);
    SectionSignals(s.(workers := s.workers[i := Fresh]), i, Wake(s.sh), s');
  }

  lemma WakeSleepsOn(sh: Shared)
    requires FirstEligible(sh.queue, sh.run) == |sh.queue|
    ensures Wake(sh) == Section(sh, Blocks, 0, false, [], 0)
  {
  }

  /** A waiter that finds a task during the stop throws it away and leaves. */
  lemma WakeDrops(sh: Shared)
    requires !sh.running && sh.immediate && sh.waiting && FirstEligible(sh.queue, sh.run) < |sh.queue|
    ensures var k := FirstEligible(sh.queue, sh.run);
      && Wake(sh) == Section(sh.(waitingThread := sh.waitingThread - 1, numThreads := sh.numThreads - 1,
                                 queue := RemoveAt(sh.queue, k), taskCount := sh.taskCount - 1),
                             Leaves(false), 0, true, [sh.queue[k]], 0)
      && Ready(RemoveAt(sh.queue, k), sh.run) == Ready(sh.queue, sh.run) - 1
      && sh.run - QueuedIds(RemoveAt(sh.queue, k)) == sh.run - QueuedIds(sh.queue)
      && sh.run * QueuedIds(RemoveAt(sh.queue, k)) == sh.run * QueuedIds(sh.queue)
  {
    var k := FirstEligible(sh.queue, sh.run);
    var rest := sh.(waitingThread := sh.waitingThread - 1, queue := RemoveAt(sh.queue, k), taskCount := sh.taskCount - 1);
    ExitsQuietly(rest, [sh.queue[k]]);
    assert Wake(sh) == Exit(rest, [sh.queue[k]]);
    ReadyRemove(sh.queue, sh.run, k);
    DropKeepsIds(sh.queue, sh.run, k);
  }

  /** What the return of task t does to the numbers. */
  ghost predicate Freed(s: System, t: Task, n': Numbers) {
    var n, g := NumbersOf(s), Group(t);
    if g == 0 then n' == n
    else if g in QueuedIds(s.sh.queue) then FreesHeld(n, n', |Sub(s.sh.queue, g)|)
    else FreesIdle(n, n')
  }

  lemma FinishMoves(s: System, m: System, s': System, i: nat)
    requires Pending(s) && FinishStep(s, m, s', i)
    ensures Freed(s, s.workers[i].task, NumbersOf(s'))
  {
    hide Inv, NumbersOf, Freed;
    PendingWaits(s);
    CompletedNumbers(s, m, i);
    LookMoves(m, i, s');
  }

  lemma CompletedNumbers(s: System, m: System, i: nat)
    requires Pending(s) && Completed(s, m, i)
    ensures Freed(s, s.workers[i].task, NumbersOf(m))
  {
    hide Inv, Notified;
    var t, q := s.workers[i].task, s.sh.queue;
    var g := Group(t);
    CompletedSignalled(s, m, i);
    RunsMarked(s, i);
    if g == 0 {
      assert s.sh.run - {0} == s.sh.run;
    } else {
      ReadyFinish(q, s.sh.run, g);
      SubQueued(q, g);
      FinishMovesId(q, s.sh.run, g);
    }
  }

  /** A task that runs marks its id, and only nonzero ids are marked. */
  lemma RunsMarked(s: System, i: nat)
    requires Pending(s) && i < |s.workers| && s.workers[i].Busy?
    ensures 0 !in s.sh.run && (Group(s.workers[i].task) != 0 ==> Group(s.workers[i].task) in s.sh.run)
  {
    RunningHas(s.workers, i);
    SubHas(Running(s.workers), s.workers[i].task);
  }

  lemma CompletedSignalled(s: System, m: System, i: nat)
    requires Pending(s) && Completed(s, m, i)
    ensures Cnt(m.workers, IsSignalled) ==
      if Group(s.workers[i].task) != 0 then Reached(NumbersOf(s)) else Cnt(s.workers, IsSignalled)
  {
    hide Inv;
    WaitersAre(s);
    CntUpdate(s.workers, i, Fresh, IsSignalled);
    CntUpdate(s.workers, i, Fresh, IsUnsignalled);
    NotifiedCounts(s.workers[i := Fresh], m.workers, CompleteSignals(s.sh, s.workers[i].task));
  }

  lemma PushMoves(s: System, s': System, t: Task, c: bool)
    requires Pending(s) && PushStep(s, s', t, c)
    ensures NumbersOf(s') == NumbersOf(s)
  {
    assert s'.workers[..|s.workers|] == s'.workers;
    NotifiedNone(s.workers, s'.workers);
  }

  lemma CallerMoves(s: System, s': System)
    requires Pending(s) && CallerWakeStep(s, s') && s'.caller.Waiting?
    ensures s' == s.(caller := Waiting(false))
  {
    NotifiedNone(s.workers, s'.workers);
  }

  /** As long as the caller waits, the stop goes on and the numbers move as described. */
  lemma PendingMoves(s: System, s': System)
    requires Pending(s) && Next(s, s') && s'.caller.Waiting?
    ensures Pending(s') && Moves(NumbersOf(s), NumbersOf(s'))
  {
    hide Inv, NumbersOf;
    NextKeeps(s, s');
    NextIsPool(s, s');
    StaysImmediate(s, s');
    StepMoves(s, s');
  }

  ghost predicate Stopped(sh: Shared) { sh.immediate && !sh.running }

  lemma SectionsStayStopped(sh: Shared, t: Task, maxThreads: nat, c: bool)
    requires Stopped(sh)
    ensures Stopped(Look(sh, maxThreads).sh) && Stopped(Wake(sh).sh) && Stopped(LeaveExpired(sh).sh)
    ensures Stopped(Complete(sh, t)) && Stopped(Push(sh, t, maxThreads, c).sh) && Stopped(FreeCheck(sh).sh)
  {
    var w := sh.(waitingThread := sh.waitingThread - 1);
    LookEnds(sh, maxThreads);
    SectionCounters(sh, Look(sh, maxThreads));
    WakeEnds(sh);
    SectionCounters(w, Wake(sh));
    SectionCounters(w, LeaveExpired(sh));
  }

  lemma FinishStaysStopped(s: System, m: System, s': System, i: nat)
    requires FinishStep(s, m, s', i) && Stopped(s.sh)
    ensures Stopped(s'.sh)
  {
    hide Notified, Look, Complete;
    SectionsStayStopped(s.sh, s.workers[i].task, s.maxThreads, true);
    SectionsStayStopped(m.sh, Stop, m.maxThreads, true);
  }

  lemma StaysImmediate(s: System, s': System)
    requires Next(s, s') && Stopped(s.sh)
    ensures Stopped(s'.sh)
  {
    hide Notified, Look, Wake, LeaveExpired, Completed, Push, FreeCheck;
    SectionsStayStopped(s.sh, Stop, s.maxThreads, true);
    if t, c :| PushStep(s, s', t, c) {
      SectionsStayStopped(s.sh, t, s.maxThreads, c);
    } else if i: nat, m :| FinishStep(s, m, s', i) {
      FinishStaysStopped(s, m, s', i);
    }
  }

  lemma StepMoves(s: System, s': System)
    requires Pending(s) && Next(s, s') && s'.caller.Waiting?
    ensures Moves(NumbersOf(s), NumbersOf(s'))
  {
    hide Inv, NumbersOf, Applied, Notified, Completed, PushStep;
    if t, c :| PushStep(s, s', t, c) {
      PushMoves(s, s', t, c);
    } else if i :| LookStep(s, s', i) {
      PendingWaits(s);
      LookMoves(s, i, s');
    } else if i :| WakeStep(s, s', i) {
      WakeMoves(s, s', i);
    } else if i, m :| FinishStep(s, m, s', i) {
      FinishMoves(s, m, s', i);
    } else if CallerWakeStep(s, s') {
      CallerMoves(s, s');
      SameNumbers(s, s');
    } else if i :| LeaveExpiredStep(s, s', i) {
      NoneExpired(s, i);
    } else if i :| WorkerDestroyStep(s, s', i) {
      CntUpdate(s.workers, i, Gone, IsSignalled);
      SameNumbers(s, s');
    }
  }

  lemma PendingWaits(s: System)
    requires Pending(s)
    ensures s.sh.waiting
  {
  }

  lemma NoneExpired(s: System, i: nat)
    requires Pending(s) && i < |s.workers|
    ensures s.workers[i] != Expired
  {
    WaitersAre(s);
    CntWitness(s.workers, IsExpired);
    assert IsExpired(s.workers[i]) <==> s.workers[i] == Expired;
  }

  lemma SameNumbers(s: System, s': System)
    requires s'.sh == s.sh && Cnt(s'.workers, IsSignalled) == Cnt(s.workers, IsSignalled)
    ensures NumbersOf(s') == NumbersOf(s)
  {
  }

  // ---------- no hang unless the numbers allow one ----------

  /** The caller waits unsignalled, and no worker will ever move by itself. */
  ghost predicate Stuck(s: System) {
    && s.caller == Waiting(false)
    && forall i :: 0 <= i < |s.workers| ==> s.workers[i].Gone? || (!s.timed && s.workers[i] == Blocked(false))
  }

  lemma StuckCounts(s: System)
    requires Stuck(s)
    ensures Cnt(s.workers, IsSignalled) == 0 && Cnt(s.workers, IsBusy) == 0 && Cnt(s.workers, IsFresh) == 0
    ensures s.timed ==> Cnt(s.workers, IsLive) == 0
  {
    CntWitness(s.workers, IsSignalled);
    CntWitness(s.workers, IsBusy);
    CntWitness(s.workers, IsFresh);
    CntWitness(s.workers, IsLive);
  }

  lemma NothingRuns(s: System)
    requires Serial(s) && Running(s.workers) == []
    ensures s.sh.run == {}
  {
    forall g | g in s.sh.run ensures false {
      IdleMeansNoRun(s, g);
    }
  }

  /** A stuck stop is stuck because a waiter sleeps beside a queued task. */
  lemma StuckShowsDanger(s: System)
    requires Pending(s) && Stuck(s)
    ensures CanHang(NumbersOf(s)) && s.sh.waitingThread > 0 && s.sh.queue != []
  {
    StuckCounts(s);
    RunningCount(s.workers);
    NothingRuns(s);
    LiveParts(s.workers);
    GroupsZero(s.sh.queue);
    WaitersAre(s);
  }

  /** When no worker will move by itself any more, the caller may go exactly unless a waiter sleeps
      beside a queued task. */
  lemma QuietStopIsStuckIff(s: System)
    requires Pending(s)
    requires forall i :: 0 <= i < |s.workers| ==> s.workers[i].Gone? || s.workers[i] == Blocked(false)
    ensures !FreeMayGo(s.sh) <==> s.sh.waitingThread > 0 && s.sh.queue != []
  {
    StuckCounts(s.(caller := Waiting(false)));
    LiveParts(s.workers);
    GroupsZero(s.sh.queue);
    WaitersAre(s);
  }

  ghost predicate Continues(tr: seq<System>, tr': seq<System>) {
    Run(tr') && tr <= tr'
  }

  /** The stop is over, or cannot hang. */
  ghost predicate Harmless(s: System) {
    s.sh.immediate && !s.sh.running && (s.caller.Waiting? ==> Pending(s) && !CanHang(NumbersOf(s)))
  }

  lemma HarmlessStays(s: System, s': System)
    requires Harmless(s) && Next(s, s')
    ensures Harmless(s')
  {
    hide NumbersOf, CanHang, Inv, Moves, Next;
    StaysImmediate(s, s');
    if s'.caller.Waiting? {
      WaitsBefore(s, s');
      PendingMoves(s, s');
      WaitersAre(s);
      WaitersAre(s');
      if CanHang(NumbersOf(s')) {
        NoNewDanger(NumbersOf(s), NumbersOf(s'));
      }
    }
  }

  lemma {:induction false} NoHangAfter(tr: seq<System>, tr': seq<System>, k: nat)
    requires tr != [] && Harmless(Last(tr)) && Continues(tr, tr') && |tr| - 1 <= k < |tr'|
    ensures Harmless(tr'[k])
    decreases k
  {
    hide Harmless, Next;
    if k > |tr| - 1 {
      NoHangAfter(tr, tr', k - 1);
      assert Next(tr'[k - 1], tr'[k - 1 + 1]);
      HarmlessStays(tr'[k - 1], tr'[k]);
    }
  }

  lemma WaitsBefore(s: System, s': System)
    requires Next(s, s') && !s.sh.running && s'.caller.Waiting?
    ensures s.caller.Waiting?
  {
    hide Notified, Look, Wake, Push, Exit, LeaveExpired, Complete;
  }

  // ---------- a hang whenever the numbers allow one ----------

  function Effort(s: System): nat {
    Cnt(s.workers, IsFresh) + Cnt(s.workers, IsSignalled) + 2 * Cnt(s.workers, IsBusy)
  }

  /** One step towards the hang: the danger stays and there is less to do. */
  ghost predicate Nears(s: System, s': System) {
    Next(s, s') && s'.caller.Waiting? && CanHang(NumbersOf(s')) && Effort(s') < Effort(s)
  }

  lemma GoneWork(ws: seq<Pc>, i: nat, x: Pc)
    requires i < |ws| && (x.Gone? || x == Blocked(false))
    ensures var ws' := ws[i := x];
      && Cnt(ws', IsFresh) == Cnt(ws, IsFresh) - Bit(ws[i].Fresh?)
      && Cnt(ws', IsSignalled) == Cnt(ws, IsSignalled) - Bit(ws[i] == Blocked(true))
      && Cnt(ws', IsBusy) == Cnt(ws, IsBusy) - Bit(ws[i].Busy?)
  {
    CntUpdate(ws, i, x, IsFresh);
    CntUpdate(ws, i, x, IsSignalled);
    CntUpdate(ws, i, x, IsBusy);
  }

  /** The state after worker i, at Fresh in m, has looked and left. */
  function Left(m: System, i: nat): System
    requires i < |m.workers|
  {
    m.(sh := m.sh.(numThreads := m.sh.numThreads - 1), workers := m.workers[i := Gone], caller := Waiting(true))
  }

  lemma LookLeaves(m: System, i: nat)
    requires i < |m.workers| && m.workers[i] == Fresh && m.caller.Waiting?
    requires !m.sh.running && m.sh.immediate && m.sh.waiting
    ensures Applied(m, i, Look(m.sh, m.maxThreads), Left(m, i)) && NumbersOf(Left(m, i)) == NumbersOf(m)
  {
    ExitsQuietly(m.sh, []);
    assert m.dropped + [] == m.dropped;
    Quiet(m, i, Look(m.sh, m.maxThreads), Left(m, i));
    LookMoves(m, i, Left(m, i));
  }

  lemma FreshNears(s: System, i: nat) returns (s': System)
    requires Pending(s) && CanHang(NumbersOf(s)) && i < |s.workers| && s.workers[i] == Fresh
    ensures Nears(s, s')
  {
    hide Inv, Applied, NumbersOf, CanHang, Look;
    PendingWaits(s);
    s' := Left(s, i);
    LookLeaves(s, i);
    GoneWork(s.workers, i, Gone);
    assert LookStep(s, s', i);
  }

  lemma SignalledNears(s: System, i: nat) returns (s': System)
    requires Pending(s) && CanHang(NumbersOf(s)) && i < |s.workers| && s.workers[i] == Blocked(true)
    ensures Nears(s, s')
  {
    hide Inv, NumbersOf;
    s' := Woken(s, i);
    WaitersAre(s);
    WakeMoves(s, s', i);
    assert Next(s, s');
  }

  /** A waiter wakes up: it goes on sleeping or throws a task away and leaves. */
  lemma Woken(s: System, i: nat) returns (s': System)
    requires Pending(s) && i < |s.workers| && s.workers[i] == Blocked(true)
    ensures WakeStep(s, s', i) && s'.caller.Waiting? && Effort(s') < Effort(s)
  {
    var m, sec := s.(workers := s.workers[i := Fresh]), Wake(s.sh);
    WakeIsQuiet(s.sh);
    s' := m.(sh := sec.sh, workers := m.workers[i := PcAfter(sec.outcome)],
             caller := if sec.broadcast then Waiting(true) else m.caller, dropped := m.dropped + sec.dropped);
    Quiet(m, i, sec, s');
    assert s'.workers == s.workers[i := PcAfter(sec.outcome)];
    GoneWork(s.workers, i, PcAfter(sec.outcome));
  }

  lemma WakeIsQuiet(sh: Shared)
    requires !sh.running && sh.immediate && sh.waiting
    ensures var sec := Wake(sh);
      sec.signals == 0 && sec.tokens == 0 && (PcAfter(sec.outcome).Gone? || PcAfter(sec.outcome) == Blocked(false))
  {
    if FirstEligible(sh.queue, sh.run) < |sh.queue| {
      WakeDrops(sh);
    } else {
      WakeSleepsOn(sh);
    }
  }

  /** Worker i finishes; its signal, if it sends one, reaches some waiter. */
  lemma Finished(s: System, i: nat) returns (m: System, s': System)
    requires Pending(s) && i < |s.workers| && s.workers[i].Busy? && Cnt(s.workers, IsUnsignalled) > 0
    ensures FinishStep(s, m, s', i) && s'.caller.Waiting? && Effort(s') < Effort(s)
  {
    hide Inv, Notified, Look, Effort;
    PendingWaits(s);
    m := Returned(s, i);
    s' := Left(m, i);
    LookLeaves(m, i);
  }

  /** The task of worker i has returned, and the lock is held. */
  lemma Returned(s: System, i: nat) returns (m: System)
    requires Pending(s) && i < |s.workers| && s.workers[i].Busy? && Cnt(s.workers, IsUnsignalled) > 0
    ensures Completed(s, m, i) && m.caller == s.caller
    ensures Effort(Left(m, i)) < Effort(s)
    ensures m.sh.running == s.sh.running && m.sh.immediate == s.sh.immediate && m.sh.waiting == s.sh.waiting
  {
    hide Inv, Left;
    var t, w := s.workers[i].task, s.workers[i := Fresh];
    var w' := w;
    if Group(t) != 0 {
      CntWitness(s.workers, IsUnsignalled);
      var j :| 0 <= j < |s.workers| && IsUnsignalled(s.workers[j]);
      w' := w[j := Blocked(true)];
      OneSignal(s.workers, i, j);
      OneNotified(w, j);
    } else {
      GoneWork(s.workers, i, Gone);
      assert w[i := Gone] == s.workers[i := Gone];
    }
    m := s.(sh := Complete(s.sh, t), workers := w', finished := s.finished + [t]);
    LeftWorkers(m, i);
  }

  lemma LeftWorkers(m: System, i: nat)
    requires i < |m.workers|
    ensures Left(m, i).workers == m.workers[i := Gone]
  {
  }

  lemma OneNotified(w: seq<Pc>, j: nat)
    requires j < |w| && w[j] == Blocked(false)
    ensures Notified(w, w[j := Blocked(true)], 1)
  {
    CntUpdate(w, j, Blocked(true), IsUnsignalled);
  }

  lemma OneSignal(ws: seq<Pc>, i: nat, j: nat)
    requires i < |ws| && ws[i].Busy? && j < |ws| && ws[j] == Blocked(false)
    ensures var w := ws[i := Fresh];
      var w' := w[j := Blocked(true)];
      && Cnt(w'[i := Gone], IsFresh) == Cnt(ws, IsFresh)
      && Cnt(w'[i := Gone], IsSignalled) == Cnt(ws, IsSignalled) + 1
      && Cnt(w'[i := Gone], IsBusy) == Cnt(ws, IsBusy) - 1
  {
    var w := ws[i := Fresh];
    var w' := w[j := Blocked(true)];
    var v := ws[i := Gone];
    assert w'[i := Gone] == v[j := Blocked(true)];
    GoneWork(ws, i, Gone);
    CntUpdate(v, j, Blocked(true), IsFresh);
    CntUpdate(v, j, Blocked(true), IsSignalled);
    CntUpdate(v, j, Blocked(true), IsBusy);
  }

  /** With nobody signalled, some busy worker can finish without making the hang impossible: an idle
      id first, since its signal goes to a ready task or to nothing. */
  lemma BusyNears(s: System) returns (s': System)
    requires Pending(s) && CanHang(NumbersOf(s)) && Cnt(s.workers, IsSignalled) == 0 && Cnt(s.workers, IsBusy) > 0
    ensures Nears(s, s')
  {
    hide Inv, NumbersOf, Effort;
    var i := Chosen(s);
    WaitersAre(s);
    DangerNumbers(s);
    var m, e := Finished(s, i);
    s' := e;
    FinishMoves(s, m, s', i);
    FreedKeepsDanger(s, s.workers[i].task, NumbersOf(s'));
    assert Next(s, s');
  }

  lemma DangerNumbers(s: System)
    requires Pending(s) && CanHang(NumbersOf(s)) && Cnt(s.workers, IsSignalled) == 0
    ensures Cnt(s.workers, IsUnsignalled) > 0 && NumbersOf(s).signalled == 0
  {
    WaitersAre(s);
  }

  /** The task to return next: of an idle id, or of none, or of any if all ids hold tasks back. */
  ghost predicate GoodChoice(s: System, t: Task) {
    Group(t) == 0 || Group(t) !in QueuedIds(s.sh.queue) || NumbersOf(s).idle == 0
  }

  lemma Chosen(s: System) returns (i: nat)
    requires Pending(s) && Cnt(s.workers, IsBusy) > 0
    ensures i < |s.workers| && s.workers[i].Busy? && GoodChoice(s, s.workers[i].task)
  {
    hide Inv;
    i := IdleRunner(s.workers, QueuedIds(s.sh.queue));
    if i == |s.workers| {
      NoIdleId(s);
      i := SomeBusy(s.workers);
    }
  }

  /** A worker whose task's id has no queued task, if there is one. */
  lemma {:induction false} IdleRunner(ws: seq<Pc>, ids: set<int>) returns (i: nat)
    ensures i <= |ws|
    ensures i < |ws| ==> ws[i].Busy? && Group(ws[i].task) !in ids
    ensures i == |ws| ==> forall j :: 0 <= j < |ws| && ws[j].Busy? ==> Group(ws[j].task) in ids
  {
    if ws == [] || (ws[0].Busy? && Group(ws[0].task) !in ids) {
      i := 0;
    } else {
      var k := IdleRunner(ws[1..], ids);
      i := k + 1;
    }
  }

  lemma NoIdleId(s: System)
    requires Pending(s)
    requires forall j :: 0 <= j < |s.workers| && s.workers[j].Busy? ==> Group(s.workers[j].task) in QueuedIds(s.sh.queue)
    ensures NumbersOf(s).idle == 0
  {
    hide Inv;
    var idle := s.sh.run - QueuedIds(s.sh.queue);
    forall g | g in idle ensures false {
      var i := RunnerOf(s, g);
    }
    assert idle == {};
  }

  lemma {:induction false} SomeBusy(ws: seq<Pc>) returns (i: nat)
    requires Cnt(ws, IsBusy) > 0
    ensures i < |ws| && ws[i].Busy?
  {
    if ws[0].Busy? {
      i := 0;
    } else {
      var k := SomeBusy(ws[1..]);
      i := k + 1;
    }
  }

  lemma RunnerOf(s: System, g: int) returns (i: nat)
    requires Pending(s) && g in s.sh.run
    ensures i < |s.workers| && s.workers[i].Busy? && Group(s.workers[i].task) == g
  {
    assert |Sub(Running(s.workers), g)| == 1;
    var t := Sub(Running(s.workers), g)[0];
    SubFrom(Running(s.workers), g);
    i := RunsSomewhere(s.workers, t);
  }

  lemma {:induction false} SubFrom(q: seq<Task>, g: int)
    ensures forall t :: t in Sub(q, g) ==> t in q && Group(t) == g
  {
    if q != [] {
      SubFrom(q[1..], g);
    }
  }

  lemma {:induction false} RunsSomewhere(ws: seq<Pc>, t: Task) returns (i: nat)
    requires t in Running(ws)
    ensures i < |ws| && ws[i] == Busy(t)
  {
    if ws[0] == Busy(t) {
      i := 0;
    } else {
      var k := RunsSomewhere(ws[1..], t);
      i := k + 1;
    }
  }

  lemma FreedKeepsDanger(s: System, t: Task, n': Numbers)
    requires Sound(NumbersOf(s)) && CanHang(NumbersOf(s)) && NumbersOf(s).signalled == 0
    requires Freed(s, t, n') && GoodChoice(s, t)
    ensures CanHang(n')
  {
    var n := NumbersOf(s);
    assert n.waiting > 0;
  }

  /** Until nothing moves by itself, some step leads nearer to the hang. */
  lemma StepNears(s: System) returns (s': System)
    requires Pending(s) && CanHang(NumbersOf(s)) && Effort(s) > 0
    ensures Nears(s, s')
  {
    hide Inv, NumbersOf, CanHang, Nears;
    if Cnt(s.workers, IsFresh) > 0 {
      CntWitness(s.workers, IsFresh);
      var i :| 0 <= i < |s.workers| && IsFresh(s.workers[i]);
      s' := FreshNears(s, i);
    } else if Cnt(s.workers, IsSignalled) > 0 {
      CntWitness(s.workers, IsSignalled);
      var i :| 0 <= i < |s.workers| && IsSignalled(s.workers[i]);
      s' := SignalledNears(s, i);
    } else {
      s' := BusyNears(s);
    }
  }

  lemma {:induction false} HangReached(tr: seq<System>) returns (tr': seq<System>)
    requires Run(tr) && Pending(Last(tr)) && CanHang(NumbersOf(Last(tr)))
    ensures Continues(tr, tr') && Stuck(Last(tr'))
    decreases Effort(Last(tr))
  {
    hide Inv, NumbersOf, CanHang, Effort, Next, Stuck;
    var s := Last(tr);
    if Effort(s) > 0 {
      var s' := StepNears(s);
      Extend(tr, s');
      PendingMoves(s, s');
      tr' := HangReached(tr + [s']);
    } else {
      var s' := FallsAsleep(s);
      Extend(tr, s');
      tr' := tr + [s'];
    }
  }

  /** With nothing left to do, the caller finds that it cannot go, and sleeps. */
  lemma FallsAsleep(s: System) returns (s': System)
    requires Pending(s) && CanHang(NumbersOf(s)) && Effort(s) == 0
    ensures Next(s, s') && Stuck(s')
  {
    s' := s.(caller := Waiting(false));
    QuietWorkers(s);
    CannotGo(s);
    assert FreeCheck(s.sh) == FreeSection(s.sh, FreeBlocks, 0, 0);
    assert CallerWakeStep(s, s');
  }

  lemma QuietWorkers(s: System)
    requires Pending(s) && Effort(s) == 0
    ensures forall i :: 0 <= i < |s.workers| ==> s.workers[i].Gone? || s.workers[i] == Blocked(false)
  {
    forall i | 0 <= i < |s.workers| ensures s.workers[i].Gone? || s.workers[i] == Blocked(false) {
      CntWitness(s.workers, IsFresh);
      CntWitness(s.workers, IsSignalled);
      CntWitness(s.workers, IsBusy);
      CntWitness(s.workers, IsFreeing);
      NoneExpired(s, i);
      assert !IsFresh(s.workers[i]) && !IsSignalled(s.workers[i]) && !IsBusy(s.workers[i]) && !IsFreeing(s.workers[i]);
    }
  }

  lemma CannotGo(s: System)
    requires Pending(s) && CanHang(NumbersOf(s)) && Effort(s) == 0
    ensures s.sh.waiting && !FreeMayGo(s.sh)
  {
    WaitersAre(s);
    LiveParts(s.workers);
    GroupsZero(s.sh.queue);
  }

  // ---------- the condition ----------

  lemma ForcedStays(s: System, s': System)
    requires Next(s, s') && (s.forced ==> s.sh.immediate && !s.sh.running) && (s.sh.running ==> !s.forced)
    ensures s'.forced ==> s'.sh.immediate && !s'.sh.running
  {
    hide Notified, Look, Wake, Push, Exit, LeaveExpired, Complete;
    if s.forced {
      StaysImmediate(s, s');
    } else if imm, w :| CallFreeStep(s, s', imm, w) {
    }
  }

  lemma {:induction false} ForcedIsImmediate(tr: seq<System>, k: nat)
    requires Run(tr) && k < |tr|
    ensures tr[k].forced ==> tr[k].sh.immediate && !tr[k].sh.running
  {
    hide Inv, Next;
    if k > 0 {
      ForcedIsImmediate(tr, k - 1);
      RunKeeps(tr, k - 1);
      RunningIsUnforced(tr[k - 1]);
      ForcedStays(tr[k - 1], tr[k]);
    }
  }

  lemma RunningIsUnforced(s: System)
    requires Inv(s)
    ensures s.sh.running ==> !s.forced
  {
  }

  /** A forced stop whose caller waits can end up stuck exactly if waits have no time limit and both
      the waiters and the queued tasks outnumber the waiters that are certain to leave. */
  lemma ForcedStopHangsIff(tr: seq<System>)
    requires Run(tr) && Last(tr).forced && Last(tr).caller.Waiting?
    ensures (exists tr' :: Continues(tr, tr') && Stuck(Last(tr'))) <==>
            !Last(tr).timed && CanHang(NumbersOf(Last(tr)))
  {
    hide NumbersOf, CanHang;
    var s, k := Last(tr), |tr| - 1;
    RunKeeps(tr, k);
    ForcedIsImmediate(tr, k);
    RunIsPool(tr, k);
    if s.timed {
      forall tr' | Continues(tr, tr') ensures !Stuck(Last(tr')) {
        TimedIsNeverStuck(tr, tr');
      }
    } else if CanHang(NumbersOf(s)) {
      var tr' := HangReached(tr);
    } else {
      forall tr' | Continues(tr, tr') ensures !Stuck(Last(tr')) {
        NoHangAfter(tr, tr', |tr'| - 1);
        if Stuck(Last(tr')) {
          StuckShowsDanger(Last(tr'));
        }
      }
    }
  }

  lemma TimedIsNeverStuck(tr: seq<System>, tr': seq<System>)
    requires Run(tr) && Last(tr).forced && Last(tr).timed && Continues(tr, tr')
    ensures !Stuck(Last(tr'))
  {
    var s := Last(tr');
    RunIsPool(tr', |tr'| - 1);
    RunIsPool(tr', |tr| - 1);
    RunKeeps(tr', |tr'| - 1);
    ForcedGoesOn(tr, tr', |tr'| - 1);
    ForcedIsImmediate(tr', |tr'| - 1);
    if Stuck(s) {
      StuckCounts(s);
    }
  }

  lemma {:induction false} ForcedGoesOn(tr: seq<System>, tr': seq<System>, k: nat)
    requires Run(tr) && Last(tr).forced && Continues(tr, tr') && |tr| - 1 <= k < |tr'|
    ensures tr'[k].forced
    decreases k
  {
    hide Inv;
    if k > |tr| - 1 {
      ForcedGoesOn(tr, tr', k - 1);
      RunKeeps(tr', k - 1);
      RunningIsUnforced(tr'[k - 1]);
      StaysForced(tr'[k - 1], tr'[k]);
    }
  }

  lemma StaysForced(s: System, s': System)
    requires Next(s, s') && s.forced && !s.sh.running
    ensures s'.forced
  {
    hide Notified, Look, Wake, Push, Exit, LeaveExpired, Complete;
  }

  /** The same at the call: whether free with both flags set can hang depends only on how many workers
      wait, how many of them are signalled, and how the queue is spread over the running ids. */
  lemma ForcedCallHangsIff(tr: seq<System>, s: System)
    requires Run(tr) && CallFreeStep(Last(tr), s, true, true) && s.caller.Waiting?
    ensures Run(tr + [s])
    ensures (exists tr' :: Continues(tr + [s], tr') && Stuck(Last(tr'))) <==>
            !Last(tr).timed && CanHang(NumbersOf(Last(tr)))
  {
    assert Next(Last(tr), s);
    Extend(tr, s);
    CallKeepsNumbers(Last(tr), s);
    ForcedStopHangsIff(tr + [s]);
  }

  lemma CallKeepsNumbers(s: System, s': System)
    requires CallFreeStep(s, s', true, true) && s'.caller.Waiting?
    ensures NumbersOf(s') == NumbersOf(s) && s'.forced && s'.timed == s.timed
  {
    NotifiedNone(s.workers, s'.workers);
  }

  /** The waiters that the fields under the lock alone show to be certain to leave: before the stop,
      every eligible group has a signalled waiter as long as there are enough of them. */
  function Sure(sh: Shared): int {
    Min(Min(Eligible(sh.queue, sh.run), sh.waitingThread) + |sh.run - QueuedIds(sh.queue)|, Ready(sh.queue, sh.run))
    + |sh.run * QueuedIds(sh.queue)|
  }

  /** A caller that finds no more waiters, or no more queued tasks, than are sure to go may stop the
      pool at once and wait for it: so with no waiter, or with an empty queue. */
  lemma CallerCanCheck(tr: seq<System>, s: System, tr': seq<System>)
    requires Run(tr) && CallFreeStep(Last(tr), s, true, true) && s.caller.Waiting?
    requires Last(tr).sh.waitingThread <= Sure(Last(tr).sh) || |Last(tr).sh.queue| <= Sure(Last(tr).sh)
    requires Continues(tr + [s], tr')
    ensures !Stuck(Last(tr'))
  {
    ForcedCallHangsIff(tr, s);
    var c := Last(tr);
    RunKeeps(tr, |tr| - 1);
    RunIsPool(tr, |tr| - 1);
    if !c.timed {
      SureIsCertain(c);
    }
  }

  lemma SureIsCertain(s: System)
    requires Inv(s) && !s.forced && s.expiries == 0
    ensures Sure(s.sh) <= Certain(NumbersOf(s))
  {
    CntDisjoint(s.workers, IsUnsignalled, IsSignalled, IsBlocked);
    CntDisjoint(s.workers, IsBlocked, IsExpired, IsWaiter);
  }
}
