/** The rest of a large message through the thread pool: the parser hands each read on as a task
    and goes by a position that only the tasks move forward. What is forwarded, and in which order,
    is the same as if the parser had done the work itself. */
module DiagAsync {
  import opened Wire
  import opened PoolCore
  import opened PoolSystem
  import I = PoolInvariants
  import T = PoolTheorems
  import S = DiagServer
  import D = DiagDelivery
  import P = DiagPieces

  /** The pool, the chunks handed to it, the connection the tasks work on, the tasks whose callback
      has done its work, what was put out, and the reads so far. */
  datatype Joint = Joint(
    pool: System, chunks: seq<seq<Byte>>, conn: S.Conn, ran: seq<Task>, out: seq<S.Effect>, input: seq<seq<Byte>>)

  /** How much of a read the parser counts to the message, by the position it sees. */
  function Chunk(c: S.Conn, data: seq<Byte>): seq<Byte>
    requires S.ConnOk(c)
  {
    if c.total - c.current >= |data| then data else data[..c.total - c.current]
  }

  /** Chunk number k of the message becomes a task of the message's group g. */
  function ChunkTask(g: int, k: nat): Task { Work(g, k) }

  function ChunkTasks(g: int, n: nat): seq<Task> {
    seq(n, k requires 0 <= k < n => ChunkTask(g, k))
  }

  // ---------- steps ----------

  /** A read that belongs to the message; the pool takes its task. */
  ghost predicate ReadStep(j: Joint, j': Joint, g: int, data: seq<Byte>, canCreate: bool) {
    && |data| >= S.HEADER && S.ConnOk(j.conn) && S.Busy(j.conn)
    && PushStep(j.pool, j'.pool, ChunkTask(g, |j.chunks|), canCreate)
    && j'.pool.accepted == j.pool.accepted + [ChunkTask(g, |j.chunks|)]
    && j' == j.(pool := j'.pool, chunks := j.chunks + [Chunk(j.conn, data)], input := j.input + [data])
  }

  /** The callback of a running task works on the connection. */
  ghost predicate ExecStep(env: S.Env, j: Joint, j': Joint, t: Task) {
    && t in Running(j.pool.workers) && t !in j.ran && t.Work? && t.tag < |j.chunks| && 0 <= j.conn.total < 0x1_0000_0000
    && var d := S.Diagnose(env, j.conn, j.chunks[t.tag], 0, |j.chunks[t.tag]|);
       j' == j.(conn := d.conn, ran := j.ran + [t], out := j.out + d.out)
  }

  /** Any other step of the pool; a task of the group finishes only after its callback. */
  ghost predicate PoolStep(j: Joint, j': Joint, g: int) {
    && Next(j.pool, j'.pool) && j' == j.(pool := j'.pool)
    && Sub(j'.pool.accepted, g) == Sub(j.pool.accepted, g)
    && (forall t :: FinishedBy(j, j', t) && Group(t) == g ==> t in j.ran)
  }

  ghost predicate FinishedBy(j: Joint, j': Joint, t: Task) {
    t in Running(j.pool.workers) && j'.pool.finished == j.pool.finished + [t]
  }

  /** Every step of the pool finishes nothing or one running task. */
  lemma NextFinishes(s: System, s': System)
    requires Next(s, s')
    ensures s'.finished == s.finished || exists t :: t in Running(s.workers) && s'.finished == s.finished + [t]
  {
    if i, m :| FinishStep(s, m, s', i) {
      RunningHas(s.workers, i);
    }
  }

  ghost predicate JointNext(env: S.Env, j: Joint, j': Joint, g: int) {
    || (exists data, c :: ReadStep(j, j', g, data, c))
    || (exists t :: Group(t) == g && ExecStep(env, j, j', t))
    || PoolStep(j, j', g)
  }

  // ---------- what the message does to the connection ----------

  function Fold(c: S.Conn, ds: seq<seq<Byte>>): S.Done
    decreases |ds|
  {
    if ds == [] then S.Done(c, [])
    else
      var d := Fold(c, ds[..|ds| - 1]);
      var e := S.LaterPiece(d.conn, ds[|ds| - 1]);
      S.Done(e.conn, d.out + e.out)
  }

  /** The connection after the first piece of a message: more is to come. */
  ghost predicate Started(c: S.Conn) {
    0 < c.current < c.total < 0x1_0000_0000 && !c.closed
  }

  ghost predicate Fits(c: S.Conn, ds: seq<seq<Byte>>) {
    P.NonEmpty(ds) && |Concat(ds)| <= c.total - c.current
  }

  lemma {:induction false} FoldCounts(c: S.Conn, ds: seq<seq<Byte>>)
    requires Started(c) && Fits(c, ds)
    ensures var d, n := Fold(c, ds), |Concat(ds)|;
      if n == c.total - c.current then d.conn == c.(fail := false, current := 0, total := 0)
      else d.conn == c.(current := c.current + n)
    decreases |ds|
  {
    if ds != [] {
      var k := |ds| - 1;
      ConcatLast(ds);
      assert ds[..k] + [ds[k]] == ds;
      FoldCounts(c, ds[..k]);
    } else {
      assert Concat(ds) == [];
    }
  }

  lemma ConcatLast(ds: seq<seq<Byte>>)
    requires ds != []
    ensures var k := |ds| - 1; Concat(ds) == Concat(ds[..k]) + ds[k]
  {
    var k := |ds| - 1;
    assert ds[..k] + [ds[k]] == ds;
    ConcatAppend(ds[..k], [ds[k]]);
    var last := [ds[k]];
    assert last[1..] == [] && Concat(last[1..]) == [];
    assert Concat(last) == ds[k];
  }

  lemma PrefixFits(c: S.Conn, ds: seq<seq<Byte>>, n: nat)
    requires Fits(c, ds) && n <= |ds|
    ensures Fits(c, ds[..n]) && |Concat(ds[..n])| <= |Concat(ds)|
    ensures n < |ds| ==> |Concat(ds[..n])| + |ds[n]| <= |Concat(ds)|
  {
    assert ds == ds[..n] + ds[n..];
    ConcatAppend(ds[..n], ds[n..]);
  }

  /** While a chunk is still to come, the message is not complete. */
  lemma FoldBusy(c: S.Conn, ds: seq<seq<Byte>>, n: nat)
    requires Started(c) && Fits(c, ds) && n < |ds|
    ensures var d := Fold(c, ds[..n]);
      && d.conn == c.(current := c.current + |Concat(ds[..n])|)
      && d.conn.total - d.conn.current >= |ds[n]| > 0
  {
    PrefixFits(c, ds, n);
    FoldCounts(c, ds[..n]);
  }

  // ---------- the invariant ----------

  /** Tasks of the group are the old ones, all finished, and the chunks in order; the callbacks have
      run for a prefix of the chunks, and each chunk is the whole of its read. */
  ghost predicate JointInv(j: Joint, g: int, c0: S.Conn, out0: seq<S.Effect>, base: seq<Task>) {
    && I.Inv(j.pool)
    && Sub(j.pool.accepted, g) == base + ChunkTasks(g, |j.chunks|)
    && |base| <= |Sub(j.pool.finished, g)| <= |base| + |j.ran|
    && |j.ran| <= |j.chunks| && j.ran == ChunkTasks(g, |j.ran|)
    && j.chunks == j.input && Fits(c0, j.input) && P.LongEnough(j.input)
    && j.conn == Fold(c0, j.input[..|j.ran|]).conn
    && j.out == out0 + Fold(c0, j.input[..|j.ran|]).out
  }

  /** However far the position lags behind, a read that fits into the message is taken whole. */
  lemma ReadTakenWhole(j: Joint, g: int, c0: S.Conn, out0: seq<S.Effect>, base: seq<Task>, data: seq<Byte>)
    requires Started(c0) && JointInv(j, g, c0, out0, base)
    requires data != [] && Fits(c0, j.input + [data])
    ensures S.ConnOk(j.conn) && S.Busy(j.conn) && Chunk(j.conn, data) == data
  {
    var ds, n := j.input + [data], |j.ran|;
    assert ds[..n] == j.input[..n] && ds[..|j.input|] == j.input;
    FoldBusy(c0, ds, n);
    PrefixFits(c0, ds, |j.input|);
    PrefixFits(c0, ds, n);
    PrefixFits(c0, j.input, n);
  }

  lemma ReadKeeps(j: Joint, j': Joint, g: int, c0: S.Conn, out0: seq<S.Effect>, base: seq<Task>, data: seq<Byte>, c: bool)
    requires Started(c0) && JointInv(j, g, c0, out0, base) && ReadStep(j, j', g, data, c)
    requires Fits(c0, j'.input)
    ensures JointInv(j', g, c0, out0, base)
  {
    hide I.Inv, Fold, Fits, PushStep, JointInv;
    ReadIsWhole(j, g, c0, out0, base, data, j');
    PushInv(j, j', g, c0, out0, base, c);
    ReadExtends(j, j'.pool, g, c0, out0, base, data);
  }

  lemma ReadIsWhole(j: Joint, g: int, c0: S.Conn, out0: seq<S.Effect>, base: seq<Task>, data: seq<Byte>, j': Joint)
    requires Started(c0) && JointInv(j, g, c0, out0, base)
    requires data != [] && j'.input == j.input + [data] && Fits(c0, j'.input)
    ensures S.ConnOk(j.conn) && Chunk(j.conn, data) == data
  {
    ReadTakenWhole(j, g, c0, out0, base, data);
  }

  lemma ReadExtends(j: Joint, pool: System, g: int, c0: S.Conn, out0: seq<S.Effect>, base: seq<Task>, data: seq<Byte>)
    requires JointInv(j, g, c0, out0, base) && I.Inv(pool) && |data| >= S.HEADER
    requires pool.finished == j.pool.finished && pool.accepted == j.pool.accepted + [ChunkTask(g, |j.chunks|)]
    requires Fits(c0, j.input + [data])
    ensures JointInv(j.(pool := pool, chunks := j.chunks + [data], input := j.input + [data]), g, c0, out0, base)
  {
    hide I.Inv, Fold, Fits;
    MoreTasks(j.pool.accepted, g, base, |j.chunks|);
    assert (j.input + [data])[..|j.ran|] == j.input[..|j.ran|];
  }

  lemma MoreTasks(q: seq<Task>, g: int, base: seq<Task>, n: nat)
    requires Sub(q, g) == base + ChunkTasks(g, n)
    ensures Sub(q + [ChunkTask(g, n)], g) == base + ChunkTasks(g, n + 1)
  {
    var t := ChunkTask(g, n);
    SubConcat(q, [t], g);
    assert Sub([t], g) == [t];
    assert base + ChunkTasks(g, n) + [t] == base + ChunkTasks(g, n + 1);
  }

  lemma PushInv(j: Joint, j': Joint, g: int, c0: S.Conn, out0: seq<S.Effect>, base: seq<Task>, c: bool)
    requires JointInv(j, g, c0, out0, base) && PushStep(j.pool, j'.pool, ChunkTask(g, |j.chunks|), c)
    ensures I.Inv(j'.pool) && j'.pool.finished == j.pool.finished
  {
    assert Next(j.pool, j'.pool);
    T.NextKeeps(j.pool, j'.pool);
  }

  /** The one running task of the group comes right after the finished ones. */
  lemma RunningIsNext(s: System, g: int, t: Task)
    requires I.Serial(s) && I.Ordered(s) && g != 0 && t in Running(s.workers) && Group(t) == g
    ensures var n := |Sub(s.finished, g)|; n < |Sub(s.accepted, g)| && Sub(s.accepted, g)[n] == t
  {
    SubHas(Running(s.workers), t);
    var a, r := Sub(s.finished, g), Sub(Running(s.workers), g);
    assert |r| == 1 && r[0] == t;
  }

  lemma ExecKeeps(env: S.Env, j: Joint, j': Joint, g: int, c0: S.Conn, out0: seq<S.Effect>, base: seq<Task>, t: Task)
    requires Started(c0) && g != 0 && JointInv(j, g, c0, out0, base) && Group(t) == g && ExecStep(env, j, j', t)
    ensures JointInv(j', g, c0, out0, base)
  {
    hide I.Inv, Fold, Fits;
    var n := |j.ran|;
    ExecIsNext(j, g, c0, out0, base, t);
    assert j'.ran == ChunkTasks(g, n + 1);
    ExecFolds(env, j, j', c0, n);
    assert j'.out == out0 + Fold(c0, j.input[..n + 1]).out;
  }

  /** The task that executes is the next one in order. */
  lemma ExecIsNext(j: Joint, g: int, c0: S.Conn, out0: seq<S.Effect>, base: seq<Task>, t: Task)
    requires g != 0 && JointInv(j, g, c0, out0, base)
    requires t in Running(j.pool.workers) && Group(t) == g && t !in j.ran
    ensures |j.ran| < |j.chunks| && t == ChunkTask(g, |j.ran|)
  {
    RunningIsNext(j.pool, g, t);
    var k := |Sub(j.pool.finished, g)| - |base|;
    assert t == ChunkTasks(g, |j.chunks|)[k];
    assert forall i :: 0 <= i < |j.ran| ==> j.ran[i] in j.ran && j.ran[i] == ChunkTask(g, i);
  }

  lemma ExecFolds(env: S.Env, j: Joint, j': Joint, c0: S.Conn, n: nat)
    requires Started(c0) && Fits(c0, j.input) && n < |j.input| && j.chunks == j.input
    requires j.conn == Fold(c0, j.input[..n]).conn && 0 <= j.conn.total < 0x1_0000_0000
    ensures var d, f := S.Diagnose(env, j.conn, j.chunks[n], 0, |j.chunks[n]|), Fold(c0, j.input[..n + 1]);
      d.conn == f.conn && f.out == Fold(c0, j.input[..n]).out + d.out
  {
    FoldBusy(c0, j.input, n);
    assert j.chunks[n][0..0 + |j.chunks[n]|] == j.chunks[n];
    var ds := j.input[..n + 1];
    assert ds[..n] == j.input[..n] && ds[n] == j.input[n];
  }

  lemma PoolKeeps(j: Joint, j': Joint, g: int, c0: S.Conn, out0: seq<S.Effect>, base: seq<Task>)
    requires g != 0 && JointInv(j, g, c0, out0, base) && PoolStep(j, j', g)
    ensures JointInv(j', g, c0, out0, base)
  {
    hide I.Inv, Fold, Fits, Next;
    T.NextKeeps(j.pool, j'.pool);
    NextFinishes(j.pool, j'.pool);
    if j'.pool.finished != j.pool.finished {
      var t :| t in Running(j.pool.workers) && j'.pool.finished == j.pool.finished + [t];
      assert FinishedBy(j, j', t);
      SubConcat(j.pool.finished, [t], g);
      assert Sub([t], g) == if Group(t) == g then [t] else [];
      if Group(t) == g {
        FinishedWithin(j, g, c0, out0, base, t);
      }
    }
  }

  lemma FinishedWithin(j: Joint, g: int, c0: S.Conn, out0: seq<S.Effect>, base: seq<Task>, t: Task)
    requires g != 0 && JointInv(j, g, c0, out0, base) && t in Running(j.pool.workers) && Group(t) == g && t in j.ran
    ensures |Sub(j.pool.finished, g)| < |base| + |j.ran|
  {
    RunningIsNext(j.pool, g, t);
    var k := |Sub(j.pool.finished, g)| - |base|;
    assert t == ChunkTasks(g, |j.chunks|)[k];
    var i :| 0 <= i < |j.ran| && j.ran[i] == t;
    assert j.ran[i] == ChunkTask(g, i);
  }

  // ---------- runs ----------

  ghost predicate JointRun(env: S.Env, js: seq<Joint>, g: int, c0: S.Conn, out0: seq<S.Effect>) {
    && |js| > 0
    && I.Inv(js[0].pool) && Sub(js[0].pool.finished, g) == Sub(js[0].pool.accepted, g)
    && js[0] == Joint(js[0].pool, [], c0, [], out0, [])
    && (forall k :: 0 <= k < |js| - 1 ==> JointNext(env, js[k], js[k + 1], g))
    && (forall k :: 0 <= k < |js| ==> Fits(c0, js[k].input))
  }

  lemma {:induction false} JointKeeps(env: S.Env, js: seq<Joint>, g: int, c0: S.Conn, out0: seq<S.Effect>, k: nat)
    requires JointRun(env, js, g, c0, out0) && Started(c0) && g != 0 && k < |js|
    ensures JointInv(js[k], g, c0, out0, Sub(js[0].pool.accepted, g))
  {
    hide I.Inv, Fold, Next, PushStep, PoolStep, ExecStep, ReadStep;
    var base := Sub(js[0].pool.accepted, g);
    if k == 0 {
      JointStarts(js[0], g, c0, out0);
    } else {
      JointKeeps(env, js, g, c0, out0, k - 1);
      var j, j' := js[k - 1], js[k];
      assert JointNext(env, js[k - 1], js[k - 1 + 1], g);
      if data, c :| ReadStep(j, j', g, data, c) {
        ReadKeeps(j, j', g, c0, out0, base, data, c);
      } else if t :| Group(t) == g && ExecStep(env, j, j', t) {
        ExecKeeps(env, j, j', g, c0, out0, base, t);
      } else {
        PoolKeeps(j, j', g, c0, out0, base);
      }
    }
  }

  lemma JointStarts(j: Joint, g: int, c0: S.Conn, out0: seq<S.Effect>)
    requires I.Inv(j.pool) && Sub(j.pool.finished, g) == Sub(j.pool.accepted, g)
    requires j == Joint(j.pool, [], c0, [], out0, []) && Fits(c0, [])
    ensures JointInv(j, g, c0, out0, Sub(j.pool.accepted, g))
  {
    hide I.Inv;
    var base := Sub(j.pool.accepted, g);
    assert base + ChunkTasks(g, 0) == base;
    assert j.input[..0] == [] && Fold(c0, []) == S.Done(c0, []);
  }

  /** The work done chunk by chunk is what direct calls of the parser do. */
  lemma {:induction false} FoldIsSync(env: S.Env, c: S.Conn, ds: seq<seq<Byte>>)
    requires Started(c) && Fits(c, ds) && P.LongEnough(ds)
    ensures D.RunFramed(env, c, ds) && D.NetRun(env, c, ds) == Fold(c, ds)
    decreases |ds|
  {
    if ds != [] {
      var k := |ds| - 1;
      ConcatLast(ds);
      FoldIsSync(env, c, ds[..k]);
      FoldBusy(c, ds, k);
      P.RestRead(env, Fold(c, ds[..k]).conn, ds[k]);
      RunSnoc(env, c, ds[..k], ds[k]);
      assert ds[..k] + [ds[k]] == ds;
    }
  }

  lemma {:induction false} RunSnoc(env: S.Env, c: S.Conn, ds: seq<seq<Byte>>, data: seq<Byte>)
    requires D.RunFramed(env, c, ds)
    requires |data| >= S.HEADER ==> S.Framed(env, D.NetRun(env, c, ds).conn, data, 0)
    ensures D.RunFramed(env, c, ds + [data])
    ensures var d := D.NetRun(env, c, ds); var e := S.NetUnpack(env, d.conn, data);
      D.NetRun(env, c, ds + [data]) == S.Done(e.conn, d.out + e.out)
    decreases |ds|
  {
    hide S.NetUnpack, S.Framed;
    if ds == [] {
      assert [] + [data] == [data] && [data][1..] == [];
      var e := S.NetUnpack(env, c, data);
      assert D.NetRun(env, e.conn, []) == S.Done(e.conn, []);
      assert e.out + [] == e.out && [] + e.out == e.out;
    } else {
      assert (ds + [data])[1..] == ds[1..] + [data];
      var f := S.NetUnpack(env, c, ds[0]);
      RunSnoc(env, f.conn, ds[1..], data);
      var d := D.NetRun(env, f.conn, ds[1..]);
      var e := S.NetUnpack(env, d.conn, data);
      assert f.out + (d.out + e.out) == f.out + d.out + e.out;
    }
  }

  /** At every moment the tasks have put out exactly what direct calls would have put out for the
      reads handled so far, and when the group's tasks have all finished, for all reads. */
  lemma AsyncRefinesSync(env: S.Env, js: seq<Joint>, g: int, c0: S.Conn, out0: seq<S.Effect>, k: nat)
    requires JointRun(env, js, g, c0, out0) && Started(c0) && g != 0 && k < |js|
    ensures |js[k].ran| <= |js[k].input|
    ensures var j := js[k]; var done := j.input[..|j.ran|];
      && D.RunFramed(env, c0, done) && j.conn == D.NetRun(env, c0, done).conn
      && j.out == out0 + D.NetRun(env, c0, done).out
      && (Sub(j.pool.finished, g) == Sub(j.pool.accepted, g) ==> done == j.input)
  {
    hide I.Inv, Fold;
    JointKeeps(env, js, g, c0, out0, k);
    var j := js[k];
    PrefixFits(c0, j.input, |j.ran|);
    FoldIsSync(env, c0, j.input[..|j.ran|]);
  }

  // ---------- the group number ----------

  /** Each large message takes the next number, in eight bits and back to zero. */
  function NextTaskId(id: int): int { if id + 1 > 255 then 0 else id + 1 }

  function TaskIdOf(n: nat): int {
    if n == 0 then 0 else NextTaskId(TaskIdOf(n - 1))
  }

  /** The n-th large message gets a group of its own exactly when n is no multiple of 256. */
  lemma {:induction false} TaskIdIff(n: nat)
    ensures TaskIdOf(n) == n % 256
    ensures TaskIdOf(n) != 0 <==> n % 256 != 0
  {
    if n > 0 {
      TaskIdIff(n - 1);
    }
  }
}
