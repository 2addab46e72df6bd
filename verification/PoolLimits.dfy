/** Three runs of the thread pool that show why its promises carry conditions. */
module PoolLimits {
  import opened PoolCore
  import opened PoolSystem

  // ---------- building runs ----------

  function Last(tr: seq<System>): System
    requires |tr| > 0
  {
    tr[|tr| - 1]
  }

  lemma Extend(tr: seq<System>, s': System)
    requires Run(tr) && Next(Last(tr), s')
    ensures Run(tr + [s']) && Last(tr + [s']) == s'
  {
  }

  lemma Quiet(m: System, i: nat, sec: Section, s': System)
    requires i < |m.workers| && m.workers[i] == Fresh && sec.signals == 0
    requires s' == m.(sh := sec.sh, workers := m.workers[i := PcAfter(sec.outcome)],
                      caller := if sec.broadcast && m.caller.Waiting? then Waiting(true) else m.caller,
                      dropped := m.dropped + sec.dropped, tokens := m.tokens + sec.tokens)
    ensures Applied(m, i, sec, s')
  {
    assert s'.workers[i := Fresh] == m.workers;
  }

  lemma {:induction false} OneGroup(q: seq<Task>)
    requires q != [] && forall t :: t in q ==> Group(t) == 1
    ensures Groups(q) == 1
  {
    NoZero(q);
    assert Group(q[0]) in QueuedIds(q);
    assert QueuedIds(q) == {1};
  }

  lemma {:induction false} NoZero(q: seq<Task>)
    requires forall t :: t in q ==> Group(t) == 1
    ensures ZeroCount(q) == 0
  {
    if q != [] {
      NoZero(q[1..]);
    }
  }

  lemma CountOne(a: Pc, p: Pc -> bool)
    ensures Cnt([a], p) == Bit(p(a))
  {
    assert [a][1..] == [];
  }

  lemma CountThree(a: Pc, b: Pc, c: Pc, p: Pc -> bool)
    ensures Cnt([a, b, c], p) == Bit(p(a)) + Bit(p(b)) + Bit(p(c))
  {
    assert [a, b, c] == [a] + ([b] + [c]);
    CntConcat([a], [b] + [c], p);
    CntConcat([b], [c], p);
    CountOne(a, p);
    CountOne(b, p);
    CountOne(c, p);
  }

  // ---------- an expired wait strands a task ----------

  const T1 := Work(0, 1)
  const T2 := Work(0, 2)

  function OneWorker(n: nat, sh: Shared, pc: Pc, accepted: seq<Task>, finished: seq<Task>, expiries: nat): System {
    System(n, true, sh, [pc], NotCalled, 0, accepted, finished, [], 0, false, false, expiries, 0)
  }

  lemma PushT1(n: nat) returns (tr: seq<System>)
    requires n > 0
    ensures Run(tr)
    ensures Last(tr) == OneWorker(n, Shared([T1], {}, 1, 0, 1, true, false, false), Fresh, [T1], [], 0)
  {
    var s := System(n, true, Shared([], {}, 0, 0, 0, true, false, false), [], NotCalled, 0, [], [], [], 0, false, false, 0, 0);
    var s' := OneWorker(n, Shared([T1], {}, 1, 0, 1, true, false, false), Fresh, [T1], [], 0);
    GroupsZero([]);
    assert [] + [T1] == [T1];
    assert Push(s.sh, T1, n, true) == PushResult(s'.sh, 0, true, true, false, 0);
    assert s'.workers[..0] == [];
    assert PushStep(s, s', T1, true);
    tr := [s];
    Extend(tr, s');
    tr := tr + [s'];
  }

  lemma StartT1(n: nat) returns (tr: seq<System>)
    requires n > 0
    ensures Run(tr)
    ensures Last(tr) == OneWorker(n, Shared([], {}, 1, 0, 1, true, false, false), Busy(T1), [T1], [], 0)
  {
    tr := PushT1(n);
    var s := Last(tr);
    var s' := OneWorker(n, Shared([], {}, 1, 0, 1, true, false, false), Busy(T1), [T1], [], 0);
    assert RemoveAt([T1], 0) == [];
    assert Look(s.sh, n) == Section(s'.sh, Runs(T1), 0, false, [], 0);
    assert s.dropped + [] == s.dropped;
    Quiet(s, 0, Look(s.sh, n), s');
    assert LookStep(s, s', 0);
    Extend(tr, s');
    tr := tr + [s'];
  }

  lemma FinishT1(n: nat) returns (tr: seq<System>)
    requires n > 0
    ensures Run(tr)
    ensures Last(tr) == OneWorker(n, Shared([], {}, 0, 1, 1, true, false, false), Blocked(false), [T1], [T1], 0)
  {
    tr := StartT1(n);
    var s := Last(tr);
    var m := OneWorker(n, Shared([], {}, 0, 0, 1, true, false, false), Fresh, [T1], [T1], 0);
    var s' := OneWorker(n, Shared([], {}, 0, 1, 1, true, false, false), Blocked(false), [T1], [T1], 0);
    assert Complete(s.sh, T1) == m.sh;
    assert [] + [T1] == [T1];
    assert s.workers[0 := Fresh] == m.workers;
    assert Completed(s, m, 0);
    assert Look(m.sh, n) == Section(s'.sh, Blocks, 0, false, [], 0);
    assert m.dropped + [] == m.dropped;
    Quiet(m, 0, Look(m.sh, n), s');
    assert FinishStep(s, m, s', 0);
    Extend(tr, s');
    tr := tr + [s'];
  }

  lemma ExpireAndPush(n: nat) returns (tr: seq<System>)
    requires n > 0
    ensures Run(tr)
    ensures Last(tr) == OneWorker(n, Shared([T2], {}, 1, 1, 1, true, false, false), Expired, [T1, T2], [T1], 1)
  {
    tr := FinishT1(n);
    var s := Last(tr);
    var m := OneWorker(n, s.sh, Expired, [T1], [T1], 1);
    assert s.workers[0 := Expired] == [Expired];
    assert ExpireStep(s, m, 0);
    Extend(tr, m);
    tr := tr + [m];
    var s' := OneWorker(n, Shared([T2], {}, 1, 1, 1, true, false, false), Expired, [T1, T2], [T1], 1);
    GroupsZero([]);
    CountOne(Expired, IsUnsignalled);
    assert s'.workers[..1] == [Expired];
    assert [T1] + [T2] == [T1, T2] && [] + [T2] == [T2];
    assert Push(m.sh, T2, n, true) == PushResult(s'.sh, 0, true, false, false, 1);
    assert PushStep(m, s', T2, true);
    Extend(tr, s');
    tr := tr + [s'];
  }

  /** An accepted task is queued in a running pool that has no thread left. */
  ghost predicate Stranded(s: System) {
    s.sh.running && s.failures == 0 && s.sh.queue != [] && Cnt(s.workers, IsLive) == 0
  }

  /** With load balancing, a worker whose wait expires leaves without another look at the queue.
      A task pushed in between is accepted, its signal wakes nobody, no thread is created
      because the expired worker still counts as waiting, and nobody is left to run it. */
  lemma ExpiryStrandsTask(n: nat) returns (tr: seq<System>)
    requires n > 0
    ensures Run(tr) && Stranded(Last(tr))
    ensures Last(tr) == OneWorker(n, Shared([T2], {}, 1, 0, 0, true, false, false), Gone, [T1, T2], [T1], 1)
  {
    tr := ExpireAndPush(n);
    var s := Last(tr);
    var s' := OneWorker(n, Shared([T2], {}, 1, 0, 0, true, false, false), Gone, [T1, T2], [T1], 1);
    var m := s.(workers := s.workers[0 := Fresh]);
    assert LeaveExpired(s.sh) == Section(s'.sh, Leaves(false), 0, false, [], 0);
    assert s'.workers == m.workers[0 := Gone];
    assert m.dropped + [] == m.dropped;
    Quiet(m, 0, LeaveExpired(s.sh), s');
    assert LeaveExpiredStep(s, s', 0);
    Extend(tr, s');
    CountOne(Gone, IsLive);
    tr := tr + [s'];
  }

  /** The caller of an unforced free waits for a queued task, and no thread is left. */
  ghost predicate DrainStuck(s: System) {
    && s.caller == Waiting(false) && !s.forced && s.failures == 0
    && s.sh.queue != [] && Cnt(s.workers, IsLive) == 0
  }

  /** A graceful stop of such a pool waits for ever. */
  lemma ExpiryHangsDrain(n: nat) returns (tr: seq<System>)
    requires n > 0
    ensures Run(tr) && DrainStuck(Last(tr)) && Last(tr).maxThreads == n && Last(tr).timed
  {
    tr := ExpiryStrandsTask(n);
    var s := Last(tr);
    var s' := s.(sh := s.sh.(running := false, waiting := true), waited := true, caller := Waiting(false));
    GroupsZero([T2]);
    assert Free(s.sh, false, true) == FreeSection(s'.sh, FreeBlocks, 0, 0);
    assert s.workers == s'.workers;
    assert CallFreeStep(s, s', false, true);
    Extend(tr, s');
    CountOne(Gone, IsLive);
    tr := tr + [s'];
  }

  // ---------- a forced, waiting stop hangs ----------

  const A0 := Work(1, 0)
  const A1 := Work(1, 1)
  const A2 := Work(1, 2)

  function ThreeWorkers(sh: Shared, ws: seq<Pc>, accepted: seq<Task>): System {
    System(3, false, sh, ws, NotCalled, 0, accepted, [], [], 0, false, false, 0, 0)
  }

  function Stopping(sh: Shared, ws: seq<Pc>, caller: Caller, finished: seq<Task>, dropped: seq<Task>): System {
    System(3, false, sh, ws, caller, 0, [A0, A1, A2], finished, dropped, 0, true, true, 0, 0)
  }

  lemma PushA0() returns (tr: seq<System>)
    ensures Run(tr)
    ensures Last(tr) == ThreeWorkers(Shared([A0], {}, 1, 0, 3, true, false, false), [Fresh, Fresh, Fresh], [A0])
  {
    var s := ThreeWorkers(Shared([], {}, 0, 0, 3, true, false, false), [Fresh, Fresh, Fresh], []);
    var s' := ThreeWorkers(Shared([A0], {}, 1, 0, 3, true, false, false), [Fresh, Fresh, Fresh], [A0]);
    GroupsZero([]);
    assert s'.workers[..3] == s.workers;
    assert [] + [A0] == [A0];
    assert Push(s.sh, A0, 3, true) == PushResult(s'.sh, 0, true, false, false, 0);
    assert PushStep(s, s', A0, true);
    tr := [s];
    Extend(tr, s');
    tr := tr + [s'];
  }

  lemma StartA0() returns (tr: seq<System>)
    ensures Run(tr)
    ensures Last(tr) == ThreeWorkers(Shared([], {1}, 1, 0, 3, true, false, false), [Busy(A0), Fresh, Fresh], [A0])
  {
    tr := PushA0();
    var s := Last(tr);
    var s' := ThreeWorkers(Shared([], {1}, 1, 0, 3, true, false, false), [Busy(A0), Fresh, Fresh], [A0]);
    assert RemoveAt([A0], 0) == [];
    assert {} + {1} == {1};
    assert Look(s.sh, 3) == Section(s'.sh, Runs(A0), 0, false, [], 0);
    assert s.dropped + [] == s.dropped;
    assert s'.workers == s.workers[0 := Busy(A0)];
    Quiet(s, 0, Look(s.sh, 3), s');
    assert LookStep(s, s', 0);
    Extend(tr, s');
    tr := tr + [s'];
  }

  lemma BlockOne(tr: seq<System>, i: nat, s': System) returns (tr': seq<System>)
    requires Run(tr)
    requires var s := Last(tr);
      && s.sh.queue == [] && s.sh.running && s.sh.numThreads <= s.maxThreads
      && i < |s.workers| && s.workers[i] == Fresh
      && s' == s.(sh := s.sh.(waitingThread := s.sh.waitingThread + 1), workers := s.workers[i := Blocked(false)])
    ensures Run(tr') && Last(tr') == s'
  {
    var s := Last(tr);
    assert Look(s.sh, s.maxThreads) == Section(s'.sh, Blocks, 0, false, [], 0);
    assert s.dropped + [] == s.dropped;
    Quiet(s, i, Look(s.sh, s.maxThreads), s');
    assert LookStep(s, s', i);
    Extend(tr, s');
    tr' := tr + [s'];
  }

  const SLEEPERS := [Busy(A0), Blocked(false), Blocked(false)]

  lemma BlockBoth() returns (tr: seq<System>)
    ensures Run(tr)
    ensures Last(tr) == ThreeWorkers(Shared([], {1}, 1, 2, 3, true, false, false), SLEEPERS, [A0])
  {
    tr := StartA0();
    var s := ThreeWorkers(Shared([], {1}, 1, 1, 3, true, false, false), [Busy(A0), Blocked(false), Fresh], [A0]);
    tr := BlockOne(tr, 1, s);
    tr := BlockOne(tr, 2, ThreeWorkers(Shared([], {1}, 1, 2, 3, true, false, false), SLEEPERS, [A0]));
  }

  lemma PushRunning(tr: seq<System>, t: Task, s': System) returns (tr': seq<System>)
    requires Run(tr) && t.Work? && Group(t) == 1
    requires var s := Last(tr);
      && s.sh.running && 1 in s.sh.run && s.sh.taskCount < MAX_QUEUE_COUNT
      && s' == s.(sh := s.sh.(taskCount := s.sh.taskCount + 1, queue := s.sh.queue + [t]),
                  accepted := s.accepted + [t])
    ensures Run(tr') && Last(tr') == s'
  {
    var s := Last(tr);
    assert Push(s.sh, t, s.maxThreads, true) == PushResult(s'.sh, 0, true, false, false, 0);
    assert s'.workers[..|s.workers|] == s.workers;
    assert PushStep(s, s', t, true);
    Extend(tr, s');
    tr' := tr + [s'];
  }

  lemma PushRest() returns (tr: seq<System>)
    ensures Run(tr)
    ensures Last(tr) == ThreeWorkers(Shared([A1, A2], {1}, 3, 2, 3, true, false, false), SLEEPERS, [A0, A1, A2])
  {
    tr := BlockBoth();
    assert [A0] + [A1] == [A0, A1] && [] + [A1] == [A1];
    tr := PushRunning(tr, A1, ThreeWorkers(Shared([A1], {1}, 2, 2, 3, true, false, false), SLEEPERS, [A0, A1]));
    assert [A0, A1] + [A2] == [A0, A1, A2] && [A1] + [A2] == [A1, A2];
    tr := PushRunning(tr, A2, ThreeWorkers(Shared([A1, A2], {1}, 3, 2, 3, true, false, false), SLEEPERS, [A0, A1, A2]));
  }

  lemma CallFree() returns (tr: seq<System>)
    ensures Run(tr)
    ensures Last(tr) == Stopping(Shared([A1, A2], {1}, 3, 2, 3, false, true, true), SLEEPERS, Waiting(false), [], [])
  {
    tr := PushRest();
    var s := Last(tr);
    var s' := Stopping(Shared([A1, A2], {1}, 3, 2, 3, false, true, true), SLEEPERS, Waiting(false), [], []);
    OneGroup([A1, A2]);
    assert Free(s.sh, true, true) == FreeSection(s'.sh, FreeBlocks, 0, 0);
    assert CallFreeStep(s, s', true, true);
    Extend(tr, s');
    tr := tr + [s'];
  }

  lemma FinishA0() returns (tr: seq<System>)
    ensures Run(tr)
    ensures Last(tr) == Stopping(Shared([A1, A2], {}, 2, 2, 2, false, true, true),
                                 [Gone, Blocked(true), Blocked(false)], Waiting(true), [A0], [])
  {
    tr := CallFree();
    var s := Last(tr);
    var w, w' := [Fresh, Blocked(false), Blocked(false)], [Fresh, Blocked(true), Blocked(false)];
    var m := Stopping(Shared([A1, A2], {}, 2, 2, 3, false, true, true), w', Waiting(false), [A0], []);
    var s' := Stopping(Shared([A1, A2], {}, 2, 2, 2, false, true, true),
                       [Gone, Blocked(true), Blocked(false)], Waiting(true), [A0], []);
    assert Completed(s, m, 0) by {
      CountThree(Fresh, Blocked(false), Blocked(false), IsUnsignalled);
      CountThree(Fresh, Blocked(true), Blocked(false), IsUnsignalled);
      assert s.workers[0 := Fresh] == w;
      assert {1} - {1} == {};
      assert [] + [A0] == [A0];
    }
    assert Look(m.sh, 3) == Section(s'.sh, Leaves(false), 0, true, [], 0);
    assert s'.workers == w'[0 := Gone];
    assert m.dropped + [] == m.dropped;
    Quiet(m, 0, Look(m.sh, 3), s');
    assert FinishStep(s, m, s', 0);
    Extend(tr, s');
    tr := tr + [s'];
  }

  lemma DropA1() returns (tr: seq<System>)
    ensures Run(tr)
    ensures Last(tr) == Stopping(Shared([A2], {}, 1, 1, 1, false, true, true),
                                 [Gone, Gone, Blocked(false)], Waiting(true), [A0], [A1])
  {
    tr := FinishA0();
    var s := Last(tr);
    var m := s.(workers := [Gone, Fresh, Blocked(false)]);
    var s' := Stopping(Shared([A2], {}, 1, 1, 1, false, true, true),
                       [Gone, Gone, Blocked(false)], Waiting(true), [A0], [A1]);
    assert s.workers[1 := Fresh] == m.workers;
    assert RemoveAt([A1, A2], 0) == [A2];
    assert Wake(s.sh) == Section(s'.sh, Leaves(false), 0, true, [A1], 0);
    assert [] + [A1] == [A1];
    assert s'.workers == m.workers[1 := Gone];
    Quiet(m, 1, Wake(s.sh), s');
    assert WakeStep(s, s', 1);
    Extend(tr, s');
    tr := tr + [s'];
  }

  /** A worker and the caller of free both sleep unsignalled beside a queued task. */
  ghost predicate Hung(s: System) {
    && s.forced && s.expiries == 0 && s.failures == 0
    && s.caller == Waiting(false) && s.sh.queue != []
    && Cnt(s.workers, IsActive) == 0 && Cnt(s.workers, IsUnsignalled) == 1
  }

  /** free with both flags set can wait for ever, without any expired wait: the worker that
      throws away a task of an id does not pass the signal on, so another waiting worker sleeps
      beside a queued task of that id, and the caller sleeps too. */
  lemma ForcedStopHangs()
    ensures exists tr :: Run(tr) && Hung(Last(tr))
  {
    var tr := DropA1();
    var s := Last(tr);
    var s' := s.(caller := Waiting(false));
    OneGroup([A2]);
    assert FreeCheck(s.sh) == FreeSection(s.sh, FreeBlocks, 0, 0);
    assert CallerWakeStep(s, s');
    Extend(tr, s');
    CountThree(Gone, Gone, Blocked(false), IsActive);
    CountThree(Gone, Gone, Blocked(false), IsUnsignalled);
    assert Hung(Last(tr + [s']));
  }

  // ---------- tasks without an id overtake each other ----------

  function TwoWorkers(sh: Shared, ws: seq<Pc>, accepted: seq<Task>, finished: seq<Task>): System {
    System(2, false, sh, ws, NotCalled, 0, accepted, finished, [], 0, false, false, 0, 0)
  }

  lemma PushTwo() returns (tr: seq<System>)
    ensures Run(tr)
    ensures Last(tr) == TwoWorkers(Shared([T1, T2], {}, 2, 0, 2, true, false, false), [Fresh, Fresh], [T1, T2], [])
  {
    var s := TwoWorkers(Shared([], {}, 0, 0, 2, true, false, false), [Fresh, Fresh], [], []);
    var m := TwoWorkers(Shared([T1], {}, 1, 0, 2, true, false, false), [Fresh, Fresh], [T1], []);
    var s' := TwoWorkers(Shared([T1, T2], {}, 2, 0, 2, true, false, false), [Fresh, Fresh], [T1, T2], []);
    assert s.workers[..2] == s.workers;
    assert [] + [T1] == [T1] && [T1] + [T2] == [T1, T2];
    assert Push(s.sh, T1, 2, true) == PushResult(m.sh, 0, true, false, false, 0);
    assert PushStep(s, m, T1, true);
    tr := [s];
    Extend(tr, m);
    tr := tr + [m];
    assert Push(m.sh, T2, 2, true) == PushResult(s'.sh, 0, true, false, false, 0);
    assert PushStep(m, s', T2, true);
    Extend(tr, s');
    tr := tr + [s'];
  }

  lemma StartTwo() returns (tr: seq<System>)
    ensures Run(tr)
    ensures Last(tr) == TwoWorkers(Shared([], {}, 2, 0, 2, true, false, false), [Busy(T1), Busy(T2)], [T1, T2], [])
  {
    tr := PushTwo();
    var s := Last(tr);
    var m := TwoWorkers(Shared([T2], {}, 2, 0, 2, true, false, false), [Busy(T1), Fresh], [T1, T2], []);
    GroupsZero(s.sh.queue);
    assert RemoveAt([T1, T2], 0) == [T2];
    assert Look(s.sh, 2) == Section(m.sh, Runs(T1), 0, false, [], 0);
    assert s.dropped + [] == s.dropped;
    Quiet(s, 0, Look(s.sh, 2), m);
    assert LookStep(s, m, 0);
    Extend(tr, m);
    tr := tr + [m];
    var s' := TwoWorkers(Shared([], {}, 2, 0, 2, true, false, false), [Busy(T1), Busy(T2)], [T1, T2], []);
    assert RemoveAt([T2], 0) == [];
    assert Look(m.sh, 2) == Section(s'.sh, Runs(T2), 0, false, [], 0);
    Quiet(m, 1, Look(m.sh, 2), s');
    assert LookStep(m, s', 1);
    Extend(tr, s');
    tr := tr + [s'];
  }

  /** Tasks of id 0 have no order: the second one pushed may finish while the first one runs. */
  lemma ZeroIdOvertakes() returns (tr: seq<System>)
    ensures Run(tr) && Last(tr).accepted == [T1, T2] && Last(tr).finished == [T2]
  {
    tr := StartTwo();
    var s := Last(tr);
    var m := TwoWorkers(Shared([], {}, 1, 0, 2, true, false, false), [Busy(T1), Fresh], [T1, T2], [T2]);
    var s' := TwoWorkers(Shared([], {}, 1, 1, 2, true, false, false), [Busy(T1), Blocked(false)], [T1, T2], [T2]);
    assert Complete(s.sh, T2) == m.sh;
    assert s.workers[1 := Fresh] == m.workers;
    assert [] + [T2] == [T2];
    assert Completed(s, m, 1);
    assert Look(m.sh, 2) == Section(s'.sh, Blocks, 0, false, [], 0);
    assert m.dropped + [] == m.dropped;
    Quiet(m, 1, Look(m.sh, 2), s');
    assert FinishStep(s, m, s', 1);
    Extend(tr, s');
    tr := tr + [s'];
  }
}
