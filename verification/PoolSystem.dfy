/** The thread pool as a system of concurrent threads. One lock section is one step; waits,
    signals, expired waits and the two places that destroy the pool are steps of their own. */
module PoolSystem {
  import opened PoolCore

  /** Where a worker thread stands between two of its lock sections. */
  datatype Pc =
    | Fresh                     // created, about to take the lock and look for work
    | Blocked(signalled: bool)  // inside the condition wait
    | Expired                   // its timed wait has run out, the lock not yet taken again
    | Busy(task: Task)          // runs a task without the lock
    | Freeing                   // left as the last worker, about to destroy the pool
    | Gone

  /** Where the thread that calls free stands. */
  datatype Caller = NotCalled | Waiting(signalled: bool) | Destroying | Returned

  /** The pool, its threads, and the history of accepted, finished and thrown-away tasks. */
  datatype System = System(
    maxThreads: nat,
    timed: bool,               // load balancing: waits have a time limit
    sh: Shared,
    workers: seq<Pc>,
    caller: Caller,
    freed: nat,
    accepted: seq<Task>,
    finished: seq<Task>,
    dropped: seq<Task>,
    tokens: nat,
    forced: bool,              // free was called with its immediate flag
    waited: bool,              // free was called with its wait flag
    expiries: nat,
    failures: nat)             // threads the system refused to create

  predicate IsWaiter(pc: Pc) { pc.Blocked? || pc.Expired? }
  predicate IsUnsignalled(pc: Pc) { pc == Blocked(false) }
  predicate IsSignalled(pc: Pc) { pc == Blocked(true) }
  predicate IsExpired(pc: Pc) { pc.Expired? }
  predicate IsBusy(pc: Pc) { pc.Busy? }
  predicate IsLive(pc: Pc) { pc.Fresh? || pc.Blocked? || pc.Expired? || pc.Busy? }
  predicate IsFreeing(pc: Pc) { pc.Freeing? }
  /** Threads that will look at the queue again without any further signal. */
  predicate IsActive(pc: Pc) { pc.Fresh? || pc.Busy? || pc == Blocked(true) }

  function Bit(b: bool): nat { if b then 1 else 0 }

  function Cnt(ws: seq<Pc>, p: Pc -> bool): nat {
    if ws == [] then 0 else Bit(p(ws[0])) + Cnt(ws[1..], p)
  }

  function BusyOf(pc: Pc): seq<Task> { if pc.Busy? then [pc.task] else [] }

  /** The tasks being run. */
  function Running(ws: seq<Pc>): seq<Task> {
    if ws == [] then [] else BusyOf(ws[0]) + Running(ws[1..])
  }

  // ---------- steps ----------

  /** n signals on the queue's condition: each one wakes one more waiter while there are any. */
  ghost predicate Notified(ws: seq<Pc>, ws': seq<Pc>, n: nat) {
    && |ws'| == |ws|
    && (forall i :: 0 <= i < |ws| ==> ws'[i] == ws[i] || (ws[i] == Blocked(false) && ws'[i] == Blocked(true)))
    && Cnt(ws', IsUnsignalled) == (if Cnt(ws, IsUnsignalled) < n then 0 else Cnt(ws, IsUnsignalled) - n)
  }

  function PcAfter(o: Outcome): Pc {
    match o
    case Blocks => Blocked(false)
    case Runs(t) => Busy(t)
    case Leaves(last) => if last then Freeing else Gone
  }

  /** Worker i, at Fresh in m, ends its lock section as `sec` says. */
  ghost predicate Applied(m: System, i: nat, sec: Section, s': System) {
    && i < |m.workers| == |s'.workers|
    && m.workers[i] == Fresh
    && s'.workers[i] == PcAfter(sec.outcome)
    && Notified(m.workers, s'.workers[i := Fresh], sec.signals)
    && s' == m.(sh := sec.sh,
                workers := s'.workers,
                caller := if sec.broadcast && m.caller.Waiting? then Waiting(true) else m.caller,
                dropped := m.dropped + sec.dropped,
                tokens := m.tokens + sec.tokens)
  }

  ghost predicate PushStep(s: System, s': System, t: Task, canCreate: bool) {
    var r := Push(s.sh, t, s.maxThreads, canCreate);
    && t.Work?
    && |s'.workers| == |s.workers| + (if r.spawned then 1 else 0)
    && Notified(s.workers, s'.workers[..|s.workers|], r.signals)
    && (r.spawned ==> s'.workers[|s.workers|] == Fresh)
    && s' == s.(sh := r.sh,
                workers := s'.workers,
                accepted := if r.queued then s.accepted + [t] else s.accepted,
                failures := if r.failed then s.failures + 1 else s.failures)
  }

  ghost predicate LookStep(s: System, s': System, i: nat) {
    i < |s.workers| && s.workers[i] == Fresh && Applied(s, i, Look(s.sh, s.maxThreads), s')
  }

  ghost predicate WakeStep(s: System, s': System, i: nat) {
    && i < |s.workers| && s.workers[i].Blocked?
    && Applied(s.(workers := s.workers[i := Fresh]), i, Wake(s.sh), s')
  }

  ghost predicate ExpireStep(s: System, s': System, i: nat) {
    && s.timed
    && i < |s.workers| && s.workers[i] == Blocked(false)
    && s' == s.(workers := s.workers[i := Expired], expiries := s.expiries + 1)
  }

  ghost predicate LeaveExpiredStep(s: System, s': System, i: nat) {
    && i < |s.workers| && s.workers[i] == Expired
    && Applied(s.(workers := s.workers[i := Fresh]), i, LeaveExpired(s.sh), s')
  }

  /** The first half of a finishing worker's lock section. */
  ghost predicate Completed(s: System, m: System, i: nat) {
    && i < |s.workers| == |m.workers| && s.workers[i].Busy?
    && m.workers[i] == Fresh
    && Notified(s.workers[i := Fresh], m.workers, CompleteSignals(s.sh, s.workers[i].task))
    && m == s.(sh := Complete(s.sh, s.workers[i].task),
               workers := m.workers,
               finished := s.finished + [s.workers[i].task])
  }

  /** A worker whose task returned takes the lock, cleans up and looks for work. */
  ghost predicate FinishStep(s: System, m: System, s': System, i: nat) {
    Completed(s, m, i) && Applied(m, i, Look(m.sh, m.maxThreads), s')
  }

  function CallerAfter(o: FreeOutcome): Caller {
    match o
    case FreeBlocks => Waiting(false)
    case FreeDestroys => Destroying
    case FreeReturns => Returned
  }

  ghost predicate FreeApplied(m: System, sec: FreeSection, s': System) {
    && Notified(m.workers, s'.workers, sec.signals)
    && s' == m.(sh := sec.sh,
                workers := s'.workers,
                caller := CallerAfter(sec.outcome),
                tokens := m.tokens + sec.tokens)
  }

  ghost predicate CallFreeStep(s: System, s': System, immediate: bool, wait: bool) {
    && s.sh.running
    && FreeApplied(s.(forced := immediate, waited := wait), Free(s.sh, immediate, wait), s')
  }

  ghost predicate CallerWakeStep(s: System, s': System) {
    s.caller.Waiting? && FreeApplied(s, FreeCheck(s.sh), s')
  }

  ghost predicate WorkerDestroyStep(s: System, s': System, i: nat) {
    && i < |s.workers| && s.workers[i] == Freeing
    && s' == s.(workers := s.workers[i := Gone], freed := s.freed + 1)
  }

  ghost predicate CallerDestroyStep(s: System, s': System) {
    s.caller.Destroying? && s' == s.(caller := Returned, freed := s.freed + 1)
  }

  ghost predicate Next(s: System, s': System) {
    || (exists t, c :: PushStep(s, s', t, c))
    || (exists i :: LookStep(s, s', i))
    || (exists i :: WakeStep(s, s', i))
    || (exists i :: ExpireStep(s, s', i))
    || (exists i :: LeaveExpiredStep(s, s', i))
    || (exists i, m :: FinishStep(s, m, s', i))
    || (exists imm, w :: CallFreeStep(s, s', imm, w))
    || CallerWakeStep(s, s')
    || (exists i :: WorkerDestroyStep(s, s', i))
    || CallerDestroyStep(s, s')
  }

  /** A new pool: no thread with load balancing, else up to the maximum. */
  ghost predicate Init(s: System) {
    && s.maxThreads > 0
    && (forall i :: 0 <= i < |s.workers| ==> s.workers[i] == Fresh)
    && |s.workers| <= s.maxThreads
    && (s.timed ==> s.workers == [])
    && s == System(s.maxThreads, s.timed,
                   Shared([], {}, 0, 0, |s.workers|, true, false, false),
                   s.workers, NotCalled, 0, [], [], [], 0, false, false, 0, 0)
  }

  /** A finite run of the pool. */
  ghost predicate Run(tr: seq<System>) {
    && |tr| > 0
    && Init(tr[0])
    && forall k :: 0 <= k < |tr| - 1 ==> Next(tr[k], tr[k + 1])
  }

  // ---------- counting threads ----------

  lemma {:induction false} CntConcat(a: seq<Pc>, b: seq<Pc>, p: Pc -> bool)
    ensures Cnt(a + b, p) == Cnt(a, p) + Cnt(b, p)
  {
    if a == [] {
      assert a + b == b;
    } else {
      assert (a + b)[1..] == a[1..] + b;
      CntConcat(a[1..], b, p);
    }
  }

  lemma CntUpdate(ws: seq<Pc>, i: nat, x: Pc, p: Pc -> bool)
    requires i < |ws|
    ensures Cnt(ws[i := x], p) + Bit(p(ws[i])) == Cnt(ws, p) + Bit(p(x))
  {
    assert ws == ws[..i] + ([ws[i]] + ws[i + 1..]);
    assert ws[i := x] == ws[..i] + ([x] + ws[i + 1..]);
    CntConcat(ws[..i], [ws[i]] + ws[i + 1..], p);
    CntConcat(ws[..i], [x] + ws[i + 1..], p);
    assert ([x] + ws[i + 1..])[1..] == ws[i + 1..] == ([ws[i]] + ws[i + 1..])[1..];
  }

  lemma {:induction false} CntWitness(ws: seq<Pc>, p: Pc -> bool)
    ensures Cnt(ws, p) > 0 <==> exists i :: 0 <= i < |ws| && p(ws[i])
    ensures Cnt(ws, p) <= |ws|
  {
    if ws != [] {
      CntWitness(ws[1..], p);
      if exists j :: 0 <= j < |ws[1..]| && p(ws[1..][j]) {
        var j :| 0 <= j < |ws[1..]| && p(ws[1..][j]);
        assert p(ws[j + 1]);
      }
      if i :| 0 <= i < |ws| && p(ws[i]) {
        if i > 0 {
          assert p(ws[1..][i - 1]);
        }
      }
    }
  }

  lemma {:induction false} CntLeq(ws: seq<Pc>, p: Pc -> bool, q: Pc -> bool)
    requires forall pc :: p(pc) ==> q(pc)
    ensures Cnt(ws, p) <= Cnt(ws, q)
  {
    if ws != [] {
      CntLeq(ws[1..], p, q);
    }
  }

  lemma {:induction false} CntDisjoint(ws: seq<Pc>, p: Pc -> bool, q: Pc -> bool, r: Pc -> bool)
    requires forall pc :: r(pc) <==> p(pc) || q(pc)
    requires forall pc :: !(p(pc) && q(pc))
    ensures Cnt(ws, r) == Cnt(ws, p) + Cnt(ws, q)
  {
    if ws != [] {
      CntDisjoint(ws[1..], p, q, r);
    }
  }

  /** Signals change no count that treats all waiting threads alike. */
  lemma {:induction false} CntNotified(ws: seq<Pc>, ws': seq<Pc>, p: Pc -> bool)
    requires |ws'| == |ws|
    requires forall i :: 0 <= i < |ws| ==> ws'[i] == ws[i] || (ws[i] == Blocked(false) && ws'[i] == Blocked(true))
    requires p(Blocked(true)) == p(Blocked(false))
    ensures Cnt(ws', p) == Cnt(ws, p)
  {
    if ws != [] {
      CntNotified(ws[1..], ws'[1..], p);
    }
  }

  predicate IsBlocked(pc: Pc) { pc.Blocked? }

  lemma {:induction false} RunningNotified(ws: seq<Pc>, ws': seq<Pc>)
    requires |ws'| == |ws|
    requires forall i :: 0 <= i < |ws| ==> ws'[i] == ws[i] || (ws[i] == Blocked(false) && ws'[i] == Blocked(true))
    ensures Running(ws') == Running(ws)
  {
    if ws != [] {
      RunningNotified(ws[1..], ws'[1..]);
    }
  }

  /** What n signals do to every count the proofs use. */
  lemma NotifiedCounts(ws: seq<Pc>, ws': seq<Pc>, n: nat)
    requires Notified(ws, ws', n)
    ensures Cnt(ws', IsWaiter) == Cnt(ws, IsWaiter)
    ensures Cnt(ws', IsLive) == Cnt(ws, IsLive)
    ensures Cnt(ws', IsBusy) == Cnt(ws, IsBusy)
    ensures Cnt(ws', IsFreeing) == Cnt(ws, IsFreeing)
    ensures Cnt(ws', IsExpired) == Cnt(ws, IsExpired)
    ensures Running(ws') == Running(ws)
    ensures Cnt(ws', IsUnsignalled) + Cnt(ws', IsSignalled) == Cnt(ws, IsUnsignalled) + Cnt(ws, IsSignalled)
  {
    CntNotified(ws, ws', IsWaiter);
    CntNotified(ws, ws', IsLive);
    CntNotified(ws, ws', IsBusy);
    CntNotified(ws, ws', IsFreeing);
    CntNotified(ws, ws', IsExpired);
    CntNotified(ws, ws', IsBlocked);
    RunningNotified(ws, ws');
    CntDisjoint(ws, IsUnsignalled, IsSignalled, IsBlocked);
    CntDisjoint(ws', IsUnsignalled, IsSignalled, IsBlocked);
  }

  // ---------- the tasks being run ----------

  lemma {:induction false} RunningConcat(a: seq<Pc>, b: seq<Pc>)
    ensures Running(a + b) == Running(a) + Running(b)
  {
    if a == [] {
      assert a + b == b;
    } else {
      assert (a + b)[1..] == a[1..] + b;
      RunningConcat(a[1..], b);
    }
  }

  lemma {:induction false} RunningCount(ws: seq<Pc>)
    ensures |Running(ws)| == Cnt(ws, IsBusy)
  {
    if ws != [] {
      RunningCount(ws[1..]);
    }
  }

  lemma {:induction false} RunningHas(ws: seq<Pc>, i: nat)
    requires i < |ws| && ws[i].Busy?
    ensures ws[i].task in Running(ws)
  {
    if i > 0 {
      RunningHas(ws[1..], i - 1);
    }
  }

  lemma RunningSame(ws: seq<Pc>, i: nat, x: Pc)
    requires i < |ws| && BusyOf(ws[i]) == [] == BusyOf(x)
    ensures Running(ws[i := x]) == Running(ws)
  {
    RunningSplit(ws, i);
    RunningSplit(ws[i := x], i);
    assert ws[i := x][..i] == ws[..i] && ws[i := x][i + 1..] == ws[i + 1..];
  }

  lemma RunningSplit(ws: seq<Pc>, i: nat)
    requires i < |ws|
    ensures Running(ws) == Running(ws[..i]) + BusyOf(ws[i]) + Running(ws[i + 1..])
  {
    RunningConcat(ws[..i], ws[i..]);
    assert ws == ws[..i] + ws[i..] && ws[i..][1..] == ws[i + 1..];
    Associate(Running(ws[..i]), BusyOf(ws[i]), Running(ws[i + 1..]));
  }

  lemma Associate(a: seq<Task>, b: seq<Task>, c: seq<Task>)
    ensures a + b + c == a + (b + c)
  {
  }

  lemma SubInsert(a: seq<Task>, t: Task, b: seq<Task>, g: int)
    ensures Sub(a + b, g) == Sub(a, g) + Sub(b, g)
    ensures Sub(a + [t] + b, g) == Sub(a, g) + (if g == Group(t) then [t] else []) + Sub(b, g)
  {
    SubConcat(a, b, g);
    SubConcat(a + [t], b, g);
    SubConcat(a, [t], g);
  }

  lemma InsertFacts(a: seq<Task>, t: Task, b: seq<Task>, r: seq<Task>, r': seq<Task>)
    requires r == a + b && r' == a + [t] + b
    ensures multiset(r') == multiset(r) + multiset{t}
    ensures forall g :: g != Group(t) ==> Sub(r', g) == Sub(r, g)
    ensures forall g :: g == Group(t) ==> |Sub(r', g)| == |Sub(r, g)| + 1
    ensures Sub(r, Group(t)) == [] ==> Sub(r', Group(t)) == [t]
  {
    forall g ensures g != Group(t) ==> Sub(r', g) == Sub(r, g) {
      SubInsert(a, t, b, g);
    }
    SubInsert(a, t, b, Group(t));
  }

  /** A thread starts to run t. */
  lemma RunningStart(ws: seq<Pc>, i: nat, t: Task)
    requires i < |ws| && BusyOf(ws[i]) == []
    ensures var r, r' := Running(ws), Running(ws[i := Busy(t)]);
            && multiset(r') == multiset(r) + multiset{t}
            && (forall g :: g != Group(t) ==> Sub(r', g) == Sub(r, g))
            && (forall g :: g == Group(t) ==> |Sub(r', g)| == |Sub(r, g)| + 1)
            && (Sub(r, Group(t)) == [] ==> Sub(r', Group(t)) == [t])
  {
    var ws' := ws[i := Busy(t)];
    RunningSplit(ws, i);
    RunningSplit(ws', i);
    assert ws'[..i] == ws[..i] && ws'[i + 1..] == ws[i + 1..];
    var a, b := Running(ws[..i]), Running(ws[i + 1..]);
    assert Running(ws) == a + b;
    assert Running(ws') == a + [t] + b;
    InsertFacts(a, t, b, Running(ws), Running(ws'));
  }
}
