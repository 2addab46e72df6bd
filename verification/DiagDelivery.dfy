/** What the server forwards of a stream of diagnostic messages, for every way the stream is cut
    into reads. */
module DiagDelivery {
  import opened Wire
  import opened DiagServer
  import opened Places

  // ---------- messages on both sides ----------

  predicate EnvOk(env: Env) {
    env.ready && env.active && 0 <= env.version < 256 && 0 <= env.mds < 0x1_0000_0000
  }

  /** A payload that is neither refused nor misdirected: two addresses and at least one byte. */
  predicate Good(env: Env, p: seq<Byte>) {
    && 5 <= |p| <= env.mds && |p| < 0x1_0000_0000
    && FromBE16(p[0..2]) == env.sa && FromBE16(p[2..4]) in env.nodes
  }

  function Owner(env: Env, p: seq<Byte>): int
    requires Good(env, p)
  {
    env.nodes[FromBE16(p[2..4])]
  }

  function Header(env: Env, length: int): (h: seq<Byte>)
    requires EnvOk(env) && 0 <= length < 0x1_0000_0000
    ensures |h| == HEADER
  {
    [env.version, 255 - env.version] + BE16(DIAGNOSTIC) + BE32(length)
  }

  /** The message as the tester sends it. */
  function Encode(env: Env, p: seq<Byte>): seq<Byte>
    requires EnvOk(env) && Good(env, p)
  {
    Header(env, |p|) + p
  }

  function IpcHeader(length: int): (h: seq<Byte>)
    requires 0 <= length < 0x1_0000_0000
    ensures |h| == 6
  {
    [INDICATION] + LE32(length) + [PHYSICAL]
  }

  /** The message as the node is to receive it. */
  function Frame(p: seq<Byte>): seq<Byte>
    requires |p| < 0x1_0000_0000
  {
    IpcHeader(|p|) + p
  }

  ghost predicate AllGood(env: Env, ms: seq<seq<Byte>>) {
    forall i :: 0 <= i < |ms| ==> Good(env, ms[i])
  }

  function Encoded(env: Env, ms: seq<seq<Byte>>): seq<Byte>
    requires EnvOk(env) && AllGood(env, ms)
  {
    if ms == [] then [] else Encode(env, ms[0]) + Encoded(env, ms[1..])
  }

  /** The frames among them that belong to the node on fd. */
  function Owed(env: Env, ms: seq<seq<Byte>>, fd: int): seq<Byte>
    requires AllGood(env, ms)
  {
    if ms == [] then []
    else (if Owner(env, ms[0]) == fd then Frame(ms[0]) else []) + Owed(env, ms[1..], fd)
  }

  // ---------- a place in the stream ----------

  function Stream(env: Env, at: Place): seq<Byte>
    requires EnvOk(env) && AllGood(env, at.ms)
  {
    at.rest + Encoded(env, at.ms)
  }

  /** Each message that starts in a read of this size starts below offset 248, with its header and
      at least five payload bytes in the read. */
  predicate Cut(size: nat, pos: nat, ms: seq<seq<Byte>>)
    decreases |ms|
  {
    pos < size && ms != [] ==>
      && pos < 248 && pos + HEADER + 5 <= size
      && (pos + HEADER + |ms[0]| <= size ==> Cut(size, pos + HEADER + |ms[0]|, ms[1..]))
  }

  /** The connection stands at this place: no refusal, and the rest still to come is counted. */
  ghost predicate Stands(c: Conn, rest: seq<Byte>) {
    && ConnOk(c) && !c.fail && !c.closed && c.total < 0x1_0000_0000
    && |rest| == c.total - c.current && (rest != [] ==> c.current > 0)
  }

  /** What the node on fd is still owed. */
  function Due(env: Env, c: Conn, at: Place, fd: int): seq<Byte>
    requires AllGood(env, at.ms)
  {
    (if c.cacheFd == fd then at.rest else []) + Owed(env, at.ms, fd)
  }

  // ---------- one header ----------

  lemma HeaderParsed(env: Env, data: seq<Byte>, pos: nat, p: seq<Byte>, tail: seq<Byte>)
    requires EnvOk(env) && Good(env, p) && HasHeader(data, pos)
    requires data[pos..] <= Encode(env, p) + tail
    ensures VersionOk(env, data, pos) && KindAt(data, pos) == DIAGNOSTIC && LengthAt(data, pos) == |p|
  {
    var h := Header(env, |p|);
    assert forall i :: 0 <= i < HEADER ==> data[pos + i] == data[pos..][i] == (Encode(env, p) + tail)[i] == h[i];
    assert data[pos + 2..pos + 4] == h[2..4] == BE16(DIAGNOSTIC);
    assert data[pos + 4..pos + 8] == h[4..8] == BE32(|p|);
    BE16RoundTrip(DIAGNOSTIC);
    BE32RoundTrip(|p|);
  }

  lemma PayloadParsed(env: Env, data: seq<Byte>, pos: nat, p: seq<Byte>, tail: seq<Byte>, n: nat)
    requires EnvOk(env) && Good(env, p) && pos + HEADER + n <= |data| && n <= |p|
    requires data[pos..] <= Encode(env, p) + tail
    ensures data[pos + HEADER..pos + HEADER + n] == p[..n]
  {
    var s := Encode(env, p) + tail;
    assert forall i :: 0 <= i < n ==>
      data[pos + HEADER + i] == data[pos..][HEADER + i] == s[HEADER + i] == p[i];
  }

  /** The piece of a message that lies in the read is forwarded behind the IPC header. */
  lemma PieceForwarded(env: Env, c: Conn, p: seq<Byte>, n: nat)
    requires EnvOk(env) && Good(env, p) && 5 <= n <= |p| && n <= MAX_BUFFER
    requires c.total == |p| && c.current == 0 && !c.closed
    ensures FirstPiece(env, c, p[..n]) ==
      Done(c.(cacheFd := Owner(env, p),
              current := if n == |p| then 0 else n, total := if n == |p| then 0 else |p|),
           [ToNode(Owner(env, p), IpcHeader(|p|) + p[..n]), DiagAck])
  {
    assert p[..n][0..2] == p[0..2] && p[..n][2..4] == p[2..4];
  }

  lemma HeaderStep(env: Env, c: Conn, data: seq<Byte>, pos: nat, p: seq<Byte>, tail: seq<Byte>)
    requires EnvOk(env) && Good(env, p) && ConnOk(c) && !Busy(c) && !c.closed && c.total < 0x1_0000_0000
    requires pos < 248 && pos + HEADER + 5 <= |data| <= MAX_BUFFER
    requires data[pos..] <= Encode(env, p) + tail
    ensures var x, room := NetExec(env, c, data, pos), |data| - pos - HEADER;
      var n := if |p| > room then room else |p|;
      && x.out == [ToNode(Owner(env, p), IpcHeader(|p|) + p[..n]), DiagAck]
      && x.conn == c.(cacheFd := Owner(env, p), current := if n == |p| then 0 else n, total := if n == |p| then 0 else |p|)
      && x.pos == pos + HEADER + n
  {
    var room := |data| - pos - HEADER;
    var n := if |p| > room then room else |p|;
    HeaderParsed(env, data, pos, p, tail);
    PayloadParsed(env, data, pos, p, tail, n);
    PieceForwarded(env, c.(total := |p|, current := 0), p, n);
  }

  // ---------- the messages of one read ----------

  /** A read pays exactly what it brings: written plus still owed stays the same. */
  ghost predicate Pays(env: Env, c: Conn, at: Place, d: Done, at': Place, fd: int)
    requires AllGood(env, at.ms)
  {
    && AllGood(env, at'.ms) && Stands(d.conn, at'.rest)
    && Written(d.out, fd) + Due(env, d.conn, at', fd) == Due(env, c, at, fd)
  }

  lemma Assoc(a: seq<Byte>, b: seq<Byte>, c: seq<Byte>)
    ensures a + b + c == a + (b + c)
  {
  }

  lemma PaysTwice(env: Env, c: Conn, at: Place, d: Done, at1: Place, e: Done, at2: Place, fd: int)
    requires AllGood(env, at.ms) && Pays(env, c, at, d, at1, fd) && Pays(env, d.conn, at1, e, at2, fd)
    ensures Pays(env, c, at, Done(e.conn, d.out + e.out), at2, fd)
  {
    hide Written, Due, Stands;
    WrittenAppend(d.out, e.out, fd);
    Assoc(Written(d.out, fd), Written(e.out, fd), Due(env, e.conn, at2, fd));
  }

  /** One header pays the piece that follows it. */
  lemma StepPays(env: Env, c: Conn, data: seq<Byte>, pos: nat, ms: seq<seq<Byte>>, fd: int)
    requires EnvOk(env) && AllGood(env, ms) && ms != [] && Stands(c, []) && pos < |data| <= MAX_BUFFER
    requires data[pos..] <= Encode(env, ms[0]) + Encoded(env, ms[1..]) && Cut(|data|, pos, ms)
    ensures var x, whole := NetExec(env, c, data, pos), pos + HEADER + |ms[0]| <= |data|;
      && x.pos == (if whole then pos + HEADER + |ms[0]| else |data|)
      && Pays(env, c, Place([], ms), Done(x.conn, x.out), Within(HEADER, x.pos - pos, ms), fd)
      && (whole ==> Within(HEADER, x.pos - pos, ms) == Place([], ms[1..]))
  {
    hide NetExec, Encoded, Written, Owed, Framed, NetLoop, Encode, Due, Within, Pays, Frame, IpcHeader;
    HeaderStep(env, c, data, pos, ms[0], Encoded(env, ms[1..]));
    var x := NetExec(env, c, data, pos);
    if pos + HEADER + |ms[0]| <= |data| {
      WithinWhole(ms);
      WholePays(env, c, x.conn, ms, fd);
    } else {
      LastPiece(env, c, x.conn, ms, |data| - pos - HEADER, fd);
    }
  }

  lemma WithinWhole(ms: seq<seq<Byte>>)
    requires ms != []
    ensures Within(HEADER, HEADER + |ms[0]|, ms) == Place([], ms[1..])
  {
  }

  lemma WholePays(env: Env, c: Conn, c': Conn, ms: seq<seq<Byte>>, fd: int)
    requires AllGood(env, ms) && ms != [] && Stands(c', [])
    ensures var p := ms[0];
      Pays(env, c, Place([], ms), Done(c', [ToNode(Owner(env, p), IpcHeader(|p|) + p[..|p|]), DiagAck]),
           Place([], ms[1..]), fd)
  {
    hide Written;
    WholePiece(env, ms[0], fd);
  }

  lemma {:induction false} LoopDelivers(env: Env, c: Conn, data: seq<Byte>, pos: nat, ms: seq<seq<Byte>>, fd: int)
    requires EnvOk(env) && AllGood(env, ms) && Stands(c, []) && pos <= |data| <= MAX_BUFFER
    requires data[pos..] <= Encoded(env, ms) && Cut(|data|, pos, ms)
    ensures Framed(env, c, data, pos)
    ensures Pays(env, c, Place([], ms), NetLoop(env, c, data, pos), Within(HEADER, |data| - pos, ms), fd)
    decreases |ms|
  {
    if pos == |data| {
      LoopEnds(env, c, data);
    } else {
      assert ms != [] by {
        assert |data[pos..]| > 0;
      }
      StepPays(env, c, data, pos, ms, fd);
      LoopContinues(env, c, data, pos, ms, fd);
    }
  }

  lemma {:induction false} LoopContinues(env: Env, c: Conn, data: seq<Byte>, pos: nat, ms: seq<seq<Byte>>, fd: int)
    requires EnvOk(env) && AllGood(env, ms) && ms != [] && Stands(c, []) && pos < |data| <= MAX_BUFFER
    requires data[pos..] <= Encode(env, ms[0]) + Encoded(env, ms[1..]) && Cut(|data|, pos, ms)
    requires var x, whole := NetExec(env, c, data, pos), pos + HEADER + |ms[0]| <= |data|;
      && x.pos == (if whole then pos + HEADER + |ms[0]| else |data|)
      && Pays(env, c, Place([], ms), Done(x.conn, x.out), Within(HEADER, x.pos - pos, ms), fd)
      && (whole ==> Within(HEADER, x.pos - pos, ms) == Place([], ms[1..]))
    ensures Framed(env, c, data, pos)
    ensures Pays(env, c, Place([], ms), NetLoop(env, c, data, pos), Within(HEADER, |data| - pos, ms), fd)
    decreases |ms|, 0
  {
    hide NetExec, NetLoop, Framed, Encoded, Written, Owed;
    var x := NetExec(env, c, data, pos);
    if pos + HEADER + |ms[0]| <= |data| {
      SuffixOf(data, pos, Encode(env, ms[0]), Encoded(env, ms[1..]), x.pos);
      LoopDelivers(env, x.conn, data, x.pos, ms[1..], fd);
      LoopStep(env, c, data, pos);
      var d, end := NetLoop(env, x.conn, data, x.pos), Within(HEADER, |data| - x.pos, ms[1..]);
      PaysTwice(env, c, Place([], ms), Done(x.conn, x.out), Place([], ms[1..]), d, end, fd);
      assert Within(HEADER, |data| - pos, ms) == end;
    } else {
      LoopEnds(env, x.conn, data);
      LoopStep(env, c, data, pos);
      assert x.out + [] == x.out;
    }
  }

  lemma LoopEnds(env: Env, c: Conn, data: seq<Byte>)
    requires ConnOk(c) && c.total < 0x1_0000_0000
    ensures Framed(env, c, data, |data|) && NetLoop(env, c, data, |data|) == Done(c, [])
  {
  }

  lemma LoopStep(env: Env, c: Conn, data: seq<Byte>, pos: nat)
    requires pos < |data| && ConnOk(c) && c.total < 0x1_0000_0000 && Starts(c, data, pos)
    requires var x := NetExec(env, c, data, pos); pos < x.pos && Framed(env, x.conn, data, x.pos)
    ensures Framed(env, c, data, pos)
    ensures var x := NetExec(env, c, data, pos); var d := NetLoop(env, x.conn, data, x.pos);
      NetLoop(env, c, data, pos) == Done(d.conn, x.out + d.out)
  {
  }

  /** A whole message in the read pays its frame. */
  lemma WholePiece(env: Env, p: seq<Byte>, fd: int)
    requires Good(env, p)
    ensures Written([ToNode(Owner(env, p), IpcHeader(|p|) + p[..|p|]), DiagAck], fd)
         == if Owner(env, p) == fd then Frame(p) else []
  {
    assert p[..|p|] == p;
    WrittenFirst(Owner(env, p), Frame(p), fd);
  }

  lemma WrittenFirst(owner: int, bytes: seq<Byte>, fd: int)
    ensures Written([ToNode(owner, bytes), DiagAck], fd) == if owner == fd then bytes else []
  {
    var out := [ToNode(owner, bytes), DiagAck];
    assert out[1..] == [DiagAck] && Written([DiagAck], fd) == [];
  }

  lemma SuffixOf(data: seq<Byte>, pos: nat, a: seq<Byte>, b: seq<Byte>, next: nat)
    requires pos <= next <= |data| && next == pos + |a| && data[pos..] <= a + b
    ensures data[next..] <= b
  {
    var s := a + b;
    assert forall i :: 0 <= i < |data| - next ==> data[next..][i] == data[pos..][|a| + i] == s[|a| + i] == b[i];
  }

  /** A message that reaches beyond the read: the connection waits for its rest. */
  lemma LastPiece(env: Env, c: Conn, c': Conn, ms: seq<seq<Byte>>, n: nat, fd: int)
    requires AllGood(env, ms) && ms != [] && 5 <= n < |ms[0]|
    requires ConnOk(c') && !c'.fail && !c'.closed && c'.total == |ms[0]| && c'.current == n && c'.cacheFd == Owner(env, ms[0])
    ensures Pays(env, c, Place([], ms),
                 Done(c', [ToNode(Owner(env, ms[0]), IpcHeader(|ms[0]|) + ms[0][..n]), DiagAck]),
                 Within(HEADER, HEADER + n, ms), fd)
  {
    hide Written;
    var p := ms[0];
    WrittenFirst(Owner(env, p), IpcHeader(|p|) + p[..n], fd);
    FrameSplit(p, n, Owed(env, ms[1..], fd));
  }

  lemma FrameSplit(p: seq<Byte>, n: nat, t: seq<Byte>)
    requires n <= |p| < 0x1_0000_0000
    ensures IpcHeader(|p|) + p[..n] + (p[n..] + t) == Frame(p) + t
  {
    assert p[..n] + p[n..] == p;
  }

  // ---------- one read ----------

  /** The read starts with the rest of the current message, if any. */
  ghost predicate ReadOk(at: Place, size: nat) {
    HEADER <= size <= MAX_BUFFER && Cut(size, |at.rest|, at.ms)
  }

  lemma ReadDelivers(env: Env, c: Conn, at: Place, data: seq<Byte>, fd: int)
    requires EnvOk(env) && AllGood(env, at.ms) && Stands(c, at.rest)
    requires ReadOk(at, |data|) && data <= Stream(env, at)
    ensures Framed(env, c, data, 0)
    ensures Pays(env, c, at, NetUnpack(env, c, data), Advance(HEADER, at, |data|), fd)
  {
    hide NetLoop, Framed, Written, Owed, Encoded;
    if |data| <= |at.rest| {
      OnlyRest(env, c, at, data, fd);
    } else if at.rest != [] {
      RestAndMore(env, c, at, data, fd);
    } else {
      MoreAfterRest(env, c, at, data, fd);
      assert Due(env, c, at, fd) == Due(env, c, Place([], at.ms), fd);
    }
  }

  lemma OnlyRest(env: Env, c: Conn, at: Place, data: seq<Byte>, fd: int)
    requires EnvOk(env) && AllGood(env, at.ms) && Stands(c, at.rest)
    requires 0 < |data| <= |at.rest| && data <= Stream(env, at)
    ensures Framed(env, c, data, 0)
    ensures Pays(env, c, at, NetLoop(env, c, data, 0), Place(at.rest[|data|..], at.ms), fd)
  {
    RestStep(env, c, at, data, |data|);
    var x := NetExec(env, c, data, 0);
    LoopEnds(env, x.conn, data);
    LoopStep(env, c, data, 0);
    assert x.out + [] == x.out;
    RestPays(env, c, at, |data|, x.conn, fd);
  }

  lemma SplitSum(s: seq<Byte>, n: nat, t: seq<Byte>)
    requires n <= |s|
    ensures s[..n] + (s[n..] + t) == s + t
  {
  }

  /** Forwarding n bytes of the rest pays n bytes. */
  lemma RestPays(env: Env, c: Conn, at: Place, n: nat, c': Conn, fd: int)
    requires AllGood(env, at.ms) && n <= |at.rest| && c'.cacheFd == c.cacheFd && Stands(c', at.rest[n..])
    ensures Pays(env, c, at, Done(c', [ToNode(c.cacheFd, at.rest[..n])]), Place(at.rest[n..], at.ms), fd)
  {
    hide Written, Owed;
    WrittenOne(c.cacheFd, at.rest[..n], fd);
    var owed := Owed(env, at.ms, fd);
    if c.cacheFd == fd {
      SplitSum(at.rest, n, owed);
    }
  }

  lemma RestAndMore(env: Env, c: Conn, at: Place, data: seq<Byte>, fd: int)
    requires EnvOk(env) && AllGood(env, at.ms) && Stands(c, at.rest)
    requires 0 < |at.rest| < |data| <= MAX_BUFFER && Cut(|data|, |at.rest|, at.ms) && data <= Stream(env, at)
    ensures Framed(env, c, data, 0)
    ensures Pays(env, c, at, NetLoop(env, c, data, 0), Within(HEADER, |data| - |at.rest|, at.ms), fd)
  {
    hide NetExec, NetLoop, Framed, Written, Owed, Encoded, Within, Cut, Encode;
    var n := |at.rest|;
    RestStep(env, c, at, data, n);
    var x := NetExec(env, c, data, 0);
    RestPays(env, c, at, n, x.conn, fd);
    assert at.rest[n..] == [];
    MoreAfterRest(env, x.conn, at, data, fd);
    LoopStep(env, c, data, 0);
    var d := NetLoop(env, x.conn, data, n);
    PaysTwice(env, c, at, Done(x.conn, x.out), Place([], at.ms), d, Within(HEADER, |data| - n, at.ms), fd);
  }

  lemma MoreAfterRest(env: Env, c: Conn, at: Place, data: seq<Byte>, fd: int)
    requires EnvOk(env) && AllGood(env, at.ms) && Stands(c, [])
    requires |at.rest| < |data| <= MAX_BUFFER && Cut(|data|, |at.rest|, at.ms) && data <= Stream(env, at)
    ensures var n := |at.rest|;
      && Framed(env, c, data, n)
      && Pays(env, c, Place([], at.ms), NetLoop(env, c, data, n), Within(HEADER, |data| - n, at.ms), fd)
  {
    hide NetExec, NetLoop, Framed, Written, Owed, Encoded, Within, Cut;
    assert data[0..] == data;
    SuffixOf(data, 0, at.rest, Encoded(env, at.ms), |at.rest|);
    LoopDelivers(env, c, data, |at.rest|, at.ms, fd);
  }

  lemma WrittenOne(owner: int, bytes: seq<Byte>, fd: int)
    ensures Written([ToNode(owner, bytes)], fd) == if owner == fd then bytes else []
  {
    assert [ToNode(owner, bytes)][1..] == [];
  }

  /** The rest of a message is forwarded as it is. */
  lemma RestStep(env: Env, c: Conn, at: Place, data: seq<Byte>, n: nat)
    requires EnvOk(env) && AllGood(env, at.ms) && Stands(c, at.rest) && at.rest != []
    requires |data| > 0 && data <= Stream(env, at)
    requires n == if |at.rest| >= |data| then |data| else |at.rest|
    ensures var x := NetExec(env, c, data, 0);
      && x.pos == n && x.out == [ToNode(c.cacheFd, data[..n])] && data[..n] == at.rest[..n]
      && Stands(x.conn, at.rest[n..]) && x.conn.cacheFd == c.cacheFd
  {
    var s := Stream(env, at);
    assert forall i :: 0 <= i < n ==> data[i] == s[i] == at.rest[i];
    assert data[0..0 + n] == data[..n];
  }

  // ---------- all reads ----------

  /** The reads of a connection, one after the other. */
  ghost predicate RunFramed(env: Env, c: Conn, datas: seq<seq<Byte>>)
    decreases |datas|
  {
    datas != [] ==>
      && (|datas[0]| >= HEADER ==> Framed(env, c, datas[0], 0))
      && RunFramed(env, NetUnpack(env, c, datas[0]).conn, datas[1..])
  }

  function NetRun(env: Env, c: Conn, datas: seq<seq<Byte>>): Done
    requires RunFramed(env, c, datas)
    decreases |datas|
  {
    if datas == [] then Done(c, [])
    else
      var d := NetUnpack(env, c, datas[0]);
      var e := NetRun(env, d.conn, datas[1..]);
      Done(e.conn, d.out + e.out)
  }

  ghost predicate ReadsOk(at: Place, datas: seq<seq<Byte>>)
    decreases |datas|
  {
    datas != [] ==> ReadOk(at, |datas[0]|) && ReadsOk(Advance(HEADER, at, |datas[0]|), datas[1..])
  }

  lemma {:induction false} WithinStream(env: Env, n: nat, ms: seq<seq<Byte>>, size: nat, pos: nat)
    requires EnvOk(env) && AllGood(env, ms) && n <= |Encoded(env, ms)| && Cut(size, pos, ms) && n == size - pos
    ensures var at := Within(HEADER, n, ms); AllGood(env, at.ms) && Stream(env, at) == Encoded(env, ms)[n..]
    decreases |ms|
  {
    if n > 0 && ms != [] {
      var p, tail := ms[0], Encoded(env, ms[1..]);
      var k := HEADER + |p|;
      assert |Encode(env, p)| == k;
      if n >= k {
        WithinStream(env, n - k, ms[1..], size, pos + k);
        assert (Encode(env, p) + tail)[n..] == tail[n - k..];
      } else {
        assert (Encode(env, p) + tail)[n..] == Encode(env, p)[n..] + tail;
        assert Encode(env, p)[n..] == p[n - HEADER..];
      }
    }
  }

  lemma AdvanceStream(env: Env, at: Place, n: nat)
    requires EnvOk(env) && AllGood(env, at.ms) && n <= |Stream(env, at)| && Cut(n, |at.rest|, at.ms)
    ensures var at' := Advance(HEADER, at, n); AllGood(env, at'.ms) && Stream(env, at') == Stream(env, at)[n..]
  {
    var r, e := at.rest, Encoded(env, at.ms);
    if n <= |r| {
      assert (r + e)[n..] == r[n..] + e;
    } else {
      WithinStream(env, n - |r|, at.ms, n, |r|);
      assert (r + e)[n..] == e[n - |r|..];
    }
  }

  lemma {:induction false} RunDelivers(env: Env, c: Conn, at: Place, datas: seq<seq<Byte>>, fd: int)
    requires EnvOk(env) && AllGood(env, at.ms) && Stands(c, at.rest)
    requires Concat(datas) == Stream(env, at) && ReadsOk(at, datas)
    ensures RunFramed(env, c, datas)
    ensures var d := NetRun(env, c, datas);
      Written(d.out, fd) == Due(env, c, at, fd) && Stands(d.conn, [])
    decreases |datas|
  {
    if datas == [] {
      StreamEmpty(env, at);
    } else {
      var data, later := datas[0], Concat(datas[1..]);
      assert data <= data + later;
      ReadDelivers(env, c, at, data, fd);
      var d, at' := NetUnpack(env, c, data), Advance(HEADER, at, |data|);
      AdvanceStream(env, at, |data|);
      assert (data + later)[|data|..] == later;
      RunDelivers(env, d.conn, at', datas[1..], fd);
      WrittenAppend(d.out, NetRun(env, d.conn, datas[1..]).out, fd);
    }
  }

  lemma StreamEmpty(env: Env, at: Place)
    requires EnvOk(env) && AllGood(env, at.ms)
    ensures Stream(env, at) == [] ==> at.rest == [] && at.ms == []
  {
    if at.ms != [] {
      assert |Encode(env, at.ms[0])| > 0;
    }
  }

  /** Whatever good messages a tester sends and however they are cut into reads, within the stated
      bounds, each node is sent exactly the frames of its messages, in order. */
  lemma ServerDelivers(env: Env, c: Conn, ms: seq<seq<Byte>>, datas: seq<seq<Byte>>, fd: int)
    requires EnvOk(env) && AllGood(env, ms) && Stands(c, [])
    requires Concat(datas) == Encoded(env, ms) && ReadsOk(Place([], ms), datas)
    ensures RunFramed(env, c, datas)
    ensures var d := NetRun(env, c, datas);
      Written(d.out, fd) == Owed(env, ms, fd) && Stands(d.conn, [])
  {
    assert Stream(env, Place([], ms)) == Encoded(env, ms);
    RunDelivers(env, c, Place([], ms), datas, fd);
  }
}
