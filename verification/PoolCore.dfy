/** The data of the group-serialising thread pool and what each lock-protected
    section of the pool does to it (libdoipstack/ne_doip_threadpool.c). */
module PoolCore {

  const MAX_QUEUE_COUNT := 1000
  const ID_LIST_SIZE := 256

  /** A queued task. `Stop` is the token that the pool queues to make a waiting worker leave. */
  datatype Task = Work(id: int, tag: nat) | Stop

  function Group(t: Task): int {
    if t.Work? then t.id else 0
  }

  predicate ValidTask(t: Task) {
    0 <= Group(t) < ID_LIST_SIZE
  }

  /** The fields guarded by the queue lock. `queue` runs from the oldest task to the newest;
      `run` holds the ids whose `idlistrun` cell is set. */
  datatype Shared = Shared(
    queue: seq<Task>,
    run: set<int>,
    taskCount: int,
    waitingThread: int,
    numThreads: int,
    running: bool,
    immediate: bool,
    waiting: bool)

  // ---------- the queue, seen by group ----------

  /** The tasks of one group, in order. */
  function Sub(q: seq<Task>, g: int): seq<Task> {
    if q == [] then [] else (if Group(q[0]) == g then [q[0]] else []) + Sub(q[1..], g)
  }

  function ZeroCount(q: seq<Task>): nat {
    if q == [] then 0 else (if Group(q[0]) == 0 then 1 else 0) + ZeroCount(q[1..])
  }

  function QueuedIds(q: seq<Task>): set<int> {
    set t | t in q && Group(t) != 0 :: Group(t)
  }

  /** Queued groups: every task of id 0 is its own group. */
  function Groups(q: seq<Task>): nat {
    ZeroCount(q) + |QueuedIds(q)|
  }

  /** Queued groups that a worker may take a task from now. */
  function Eligible(q: seq<Task>, run: set<int>): nat {
    ZeroCount(q) + |QueuedIds(q) - run|
  }

  function GroupLength(sh: Shared): int {
    Groups(sh.queue) - sh.waitingThread
  }

  /** Index of the oldest task whose group is not running, or |q|. */
  function FirstEligible(q: seq<Task>, run: set<int>): (k: nat)
    ensures k <= |q|
    ensures forall j :: 0 <= j < k ==> Group(q[j]) in run
    ensures k < |q| ==> Group(q[k]) !in run
  {
    if q == [] || Group(q[0]) !in run then 0 else 1 + FirstEligible(q[1..], run)
  }

  function RemoveAt(q: seq<Task>, k: nat): seq<Task>
    requires k < |q|
  {
    q[..k] + q[k + 1..]
  }

  predicate InPool(sh: Shared, g: int) {
    g != 0 && (g in sh.run || exists t :: t in sh.queue && Group(t) == g)
  }

  // ---------- lock sections ----------

  /** How a worker leaves its lock section. */
  datatype Outcome = Blocks | Runs(task: Task) | Leaves(freePool: bool)

  /** A worker's lock section: the new shared state, the number of signals on the queue's
      condition, whether the pool's condition was broadcast, what was thrown away, and how
      many stop tokens were queued. */
  datatype Section = Section(
    sh: Shared, outcome: Outcome, signals: nat, broadcast: bool, dropped: seq<Task>, tokens: nat)

  function Tokens(n: nat): seq<Task> {
    seq(n, _ => Stop)
  }

  /** Stop all remaining workers: one token, and one signal if anybody waits, for each. */
  function WakeupStop(sh: Shared): Shared {
    sh.(immediate := true, queue := sh.queue + Tokens(Count(sh.numThreads)))
  }

  function WakeupSignals(sh: Shared): nat {
    if sh.waitingThread > 0 && 0 !in sh.run then Count(sh.numThreads) else 0
  }

  function Count(n: int): nat {
    if n < 0 then 0 else n
  }

  /** A worker that got no task leaves the pool. */
  function Exit(sh: Shared, dropped: seq<Task>): Section {
    var s := sh.(numThreads := sh.numThreads - 1);
    if s.running then Section(s, Leaves(false), 0, false, dropped, 0)
    else if s.waiting then
      Section(s, Leaves(false), 0, s.immediate || GroupLength(s) <= 0, dropped, 0)
    else if s.numThreads == 0 then Section(s, Leaves(true), 0, false, dropped, 0)
    else if GroupLength(s) == -s.numThreads then
      Section(WakeupStop(s), Leaves(false), WakeupSignals(s), false, dropped, Count(s.numThreads))
    else Section(s, Leaves(false), 0, false, dropped, 0)
  }

  /** A worker takes the k-th task: it runs it, or, once the pool stops immediately, throws it
      away and leaves. */
  function Take(sh: Shared, k: nat): Section
    requires k < |sh.queue|
  {
    var t := sh.queue[k];
    var s := sh.(queue := RemoveAt(sh.queue, k));
    if s.running || !s.immediate then
      Section(s.(run := if Group(t) != 0 then s.run + {Group(t)} else s.run), Runs(t), 0, false, [], 0)
    else
      Exit(s.(taskCount := s.taskCount - 1), [t])
  }

  predicate MustLeave(sh: Shared, maxThreads: nat) {
    || (!sh.running && (sh.immediate || GroupLength(sh) <= 0))
    || sh.numThreads > maxThreads
  }

  /** A worker that holds the lock looks for work. */
  function Look(sh: Shared, maxThreads: nat): Section {
    if MustLeave(sh, maxThreads) then Exit(sh, [])
    else
      var k := FirstEligible(sh.queue, sh.run);
      if k < |sh.queue| then Take(sh, k)
      else Section(sh.(waitingThread := sh.waitingThread + 1), Blocks, 0, false, [], 0)
  }

  /** A waiting worker wakes up: it takes a task if there is one, else goes on waiting. */
  function Wake(sh: Shared): Section {
    var k := FirstEligible(sh.queue, sh.run);
    if k < |sh.queue| then Take(sh.(waitingThread := sh.waitingThread - 1), k)
    else Section(sh, Blocks, 0, false, [], 0)
  }

  /** A waiting worker whose wait expired leaves without looking at the queue again. */
  function LeaveExpired(sh: Shared): Section {
    Exit(sh.(waitingThread := sh.waitingThread - 1), [])
  }

  /** The bookkeeping after a task's function has returned. */
  function Complete(sh: Shared, t: Task): Shared {
    sh.(run := sh.run - {Group(t)}, taskCount := sh.taskCount - 1)
  }

  function CompleteSignals(sh: Shared, t: Task): nat {
    if Group(t) != 0 && !sh.running then 1 else 0
  }

  datatype PushResult = PushResult(sh: Shared, ret: int, queued: bool, spawned: bool, failed: bool, signals: nat)

  /** Push a task; `canCreate` says whether the system would create a thread now. */
  function Push(sh: Shared, t: Task, maxThreads: nat, canCreate: bool): PushResult {
    if !sh.running || !ValidTask(t) || sh.taskCount >= MAX_QUEUE_COUNT then
      PushResult(sh, -1, false, false, false, 0)
    else
      var wants := !InPool(sh, Group(t)) && GroupLength(sh) >= 0 && sh.numThreads < maxThreads;
      var spawned := wants && canCreate;
      PushResult(
        sh.(taskCount := sh.taskCount + 1,
            numThreads := if spawned then sh.numThreads + 1 else sh.numThreads,
            queue := sh.queue + [t]),
        if wants && !canCreate then -1 else 0,
        true,
        spawned,
        wants && !canCreate,
        if Group(t) !in sh.run && sh.waitingThread > 0 then 1 else 0)
  }

  /** How the caller of free leaves its lock section. */
  datatype FreeOutcome = FreeBlocks | FreeDestroys | FreeReturns

  datatype FreeSection = FreeSection(sh: Shared, outcome: FreeOutcome, signals: nat, tokens: nat)

  predicate FreeMayGo(sh: Shared) {
    GroupLength(sh) == -sh.numThreads || (sh.immediate && sh.numThreads == 0)
  }

  /** What free does with the lock held, after its flags are set or after it was woken. */
  function FreeCheck(sh: Shared): FreeSection {
    if sh.waiting && !FreeMayGo(sh) then FreeSection(sh, FreeBlocks, 0, 0)
    else if sh.immediate || GroupLength(sh) == -sh.numThreads then
      if sh.numThreads == 0 then FreeSection(sh, FreeDestroys, 0, 0)
      else FreeSection(WakeupStop(sh).(waiting := false), FreeReturns,
                       WakeupSignals(sh), Count(sh.numThreads))
    else FreeSection(sh.(waiting := false), FreeReturns, 0, 0)
  }

  function Free(sh: Shared, immediate: bool, wait: bool): FreeSection {
    FreeCheck(sh.(running := false, immediate := immediate, waiting := wait))
  }

  // ---------- facts about the queue ----------

  lemma {:induction false} SubConcat(a: seq<Task>, b: seq<Task>, g: int)
    ensures Sub(a + b, g) == Sub(a, g) + Sub(b, g)
  {
    if a == [] {
      assert a + b == b;
    } else {
      var first := if Group(a[0]) == g then [a[0]] else [];
      assert (a + b)[1..] == a[1..] + b && (a + b)[0] == a[0];
      SubConcat(a[1..], b, g);
      assert Sub(a + b, g) == first + (Sub(a[1..], g) + Sub(b, g));
    }
  }

  lemma {:induction false} SubHas(q: seq<Task>, t: Task)
    requires t in q
    ensures t in Sub(q, Group(t))
  {
    if q[0] != t {
      SubHas(q[1..], t);
    }
  }

  lemma {:induction false} SubNone(q: seq<Task>, g: int)
    requires forall t :: t in q ==> Group(t) != g
    ensures Sub(q, g) == []
  {
    if q != [] {
      SubNone(q[1..], g);
    }
  }

  /** Taking the oldest task whose group is idle takes the oldest task of its group. */
  lemma TakeIsOldestOfGroup(q: seq<Task>, run: set<int>, k: nat, g: int)
    requires k == FirstEligible(q, run) < |q|
    ensures Sub(q, g) == (if Group(q[k]) == g then [q[k]] else []) + Sub(RemoveAt(q, k), g)
  {
    var t := q[k];
    assert q == q[..k] + ([t] + q[k + 1..]);
    SubConcat(q[..k], [t] + q[k + 1..], g);
    SubConcat([t], q[k + 1..], g);
    SubConcat(q[..k], q[k + 1..], g);
    assert Sub([t], g) == if Group(t) == g then [t] else [];
    if Group(t) == g {
      SubNone(q[..k], g);
    }
  }

  lemma {:induction false} ZeroConcat(a: seq<Task>, b: seq<Task>)
    ensures ZeroCount(a + b) == ZeroCount(a) + ZeroCount(b)
  {
    if a == [] {
      assert a + b == b;
    } else {
      assert (a + b)[1..] == a[1..] + b;
      ZeroConcat(a[1..], b);
    }
  }

  lemma {:induction false} ZeroRemove(q: seq<Task>, k: nat)
    requires k < |q|
    ensures ZeroCount(q) == ZeroCount(RemoveAt(q, k)) + if Group(q[k]) == 0 then 1 else 0
  {
    if k == 0 {
      assert RemoveAt(q, 0) == q[1..];
    } else {
      ZeroRemove(q[1..], k - 1);
      assert RemoveAt(q, k)[1..] == RemoveAt(q[1..], k - 1);
    }
  }

  lemma {:induction false} ZeroTokens(n: nat)
    ensures ZeroCount(Tokens(n)) == n
  {
    if n > 0 {
      assert Tokens(n)[1..] == Tokens(n - 1);
      ZeroTokens(n - 1);
    }
  }

  lemma {:induction false} ZeroMember(q: seq<Task>, k: nat)
    requires k < |q| && Group(q[k]) == 0
    ensures ZeroCount(q) > 0
  {
    if k > 0 {
      ZeroMember(q[1..], k - 1);
    }
  }

  lemma GroupsZero(q: seq<Task>)
    ensures Groups(q) == 0 <==> q == []
  {
    if q != [] {
      if Group(q[0]) == 0 {
      } else {
        assert Group(q[0]) in QueuedIds(q);
      }
    }
  }

  lemma {:induction false} Subset<T>(a: set<T>, b: set<T>)
    requires a <= b
    ensures |a| <= |b|
  {
    assert b == a + (b - a);
  }

  /** A task can be taken exactly when some queued group is eligible. */
  lemma EligibleIffFound(q: seq<Task>, run: set<int>)
    requires 0 !in run
    ensures FirstEligible(q, run) < |q| <==> Eligible(q, run) > 0
  {
    var k := FirstEligible(q, run);
    if k < |q| {
      if Group(q[k]) == 0 {
        ZeroMember(q, k);
      } else {
        assert Group(q[k]) in QueuedIds(q) - run;
      }
    } else {
      AllRunning(q, run);
      assert QueuedIds(q) - run == {};
    }
  }

  lemma {:induction false} AllRunning(q: seq<Task>, run: set<int>)
    requires 0 !in run
    requires forall t :: t in q ==> Group(t) in run
    ensures ZeroCount(q) == 0
  {
    if q != [] {
      assert q[0] in q;
      AllRunning(q[1..], run);
    }
  }

  lemma RemoveMembers(q: seq<Task>, k: nat)
    requires k < |q|
    ensures QueuedIds(RemoveAt(q, k)) <= QueuedIds(q) <= QueuedIds(RemoveAt(q, k)) + {Group(q[k])}
    ensures Group(q[k]) == 0 ==> QueuedIds(RemoveAt(q, k)) == QueuedIds(q)
    ensures forall t :: t in RemoveAt(q, k) ==> t in q
    ensures multiset(q) == multiset(RemoveAt(q, k)) + multiset{q[k]}
  {
    var r := RemoveAt(q, k);
    assert q == q[..k] + [q[k]] + q[k + 1..];
    forall t | t in q ensures t == q[k] || t in r {
      var j :| 0 <= j < |q| && q[j] == t;
      if j < k {
        assert r[j] == t;
      } else if j > k {
        assert r[j - 1] == t;
      }
    }
  }

  /** Running the oldest eligible task uses up exactly one eligible group. */
  lemma EligibleAfterRun(q: seq<Task>, run: set<int>, k: nat)
    requires k == FirstEligible(q, run) < |q|
    ensures var g := Group(q[k]);
            Eligible(RemoveAt(q, k), if g != 0 then run + {g} else run) == Eligible(q, run) - 1
  {
    var g := Group(q[k]);
    ZeroRemove(q, k);
    RemoveMembers(q, k);
    if g != 0 {
      assert g in QueuedIds(q) - run;
      assert QueuedIds(RemoveAt(q, k)) - (run + {g}) == QueuedIds(q) - run - {g};
    }
  }

  lemma EligibleAfterFinish(q: seq<Task>, run: set<int>, g: int)
    ensures Eligible(q, run) <= Eligible(q, run - {g}) <= Eligible(q, run) + 1
    ensures g == 0 ==> Eligible(q, run - {g}) == Eligible(q, run)
  {
    var a, b := QueuedIds(q) - run, QueuedIds(q) - (run - {g});
    Subset(a, b);
    Subset(b, a + {g});
    if g == 0 {
      assert a == b;
    }
  }

  lemma QueuedIdsConcat(q: seq<Task>, r: seq<Task>)
    ensures QueuedIds(q + r) == QueuedIds(q) + QueuedIds(r)
  {
    forall g | g in QueuedIds(q + r) ensures g in QueuedIds(q) + QueuedIds(r) {
      var t :| t in q + r && Group(t) == g && g != 0;
    }
    forall g | g in QueuedIds(q) + QueuedIds(r) ensures g in QueuedIds(q + r) {
      var t :| (t in q || t in r) && Group(t) == g && g != 0;
      assert t in q + r;
    }
  }

  lemma EligibleAfterPush(q: seq<Task>, run: set<int>, t: Task)
    requires 0 !in run
    ensures Eligible(q, run) <= Eligible(q + [t], run) <= Eligible(q, run) + 1
    ensures Group(t) in run ==> Eligible(q + [t], run) == Eligible(q, run)
  {
    ZeroConcat(q, [t]);
    QueuedIdsConcat(q, [t]);
    var a, b := QueuedIds(q) - run, QueuedIds(q + [t]) - run;
    if Group(t) == 0 || Group(t) in run {
      assert forall g :: g in QueuedIds([t]) ==> g == Group(t) && g != 0;
      assert a == b;
    } else {
      assert t in [t];
      assert QueuedIds([t]) == {Group(t)};
      Subset(a, b);
      Subset(b, a + {Group(t)});
    }
  }

  lemma EligibleAfterTokens(q: seq<Task>, run: set<int>, n: nat)
    ensures Eligible(q + Tokens(n), run) == Eligible(q, run) + n
  {
    ZeroConcat(q, Tokens(n));
    ZeroTokens(n);
    QueuedIdsConcat(q, Tokens(n));
    assert QueuedIds(Tokens(n)) == {};
  }
}
