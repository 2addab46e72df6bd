/** One message cut into reads: exactly when it reaches the node unharmed. Reads of fewer than
    eight bytes are discarded, a first piece of one to four bytes is refused, and a fail flag
    withholds all pieces between the first and the last. */
module DiagPieces {
  import opened Wire
  import opened DiagServer
  import opened DiagDelivery

  ghost predicate NonEmpty(datas: seq<seq<Byte>>) {
    forall i :: 0 <= i < |datas| ==> datas[i] != []
  }

  predicate LongEnough(datas: seq<seq<Byte>>) {
    forall i :: 0 <= i < |datas| ==> |datas[i]| >= HEADER
  }

  /** The table entry is there and its counts make sense. */
  predicate Open(c: Conn) {
    0 <= c.current <= c.total < 0x1_0000_0000 && !c.closed
  }

  /** A read that lies within the rest of a message. */
  lemma RestRead(env: Env, c: Conn, data: seq<Byte>)
    requires Open(c) && 0 < c.current && 0 < |data| <= c.total - c.current
    ensures |data| >= HEADER ==> Framed(env, c, data, 0)
    ensures NetUnpack(env, c, data) == if |data| < HEADER then Done(c, []) else LaterPiece(c, data)
  {
    if |data| >= HEADER {
      assert data[0..0 + |data|] == data;
      var x := NetExec(env, c, data, 0);
      assert x == Exec(LaterPiece(c, data).conn, LaterPiece(c, data).out, |data|);
      LoopEnds(env, x.conn, data);
      LoopStep(env, c, data, 0);
      assert x.out + [] == x.out;
    }
  }

  /** Whether the later pieces ds of a message all get through. */
  predicate Through(fail: bool, ds: seq<seq<Byte>>) {
    LongEnough(ds) && (!fail || |ds| <= 1)
  }

  lemma {:induction false} LaterReads(env: Env, c: Conn, ds: seq<seq<Byte>>)
    requires Open(c) && NonEmpty(ds)
    requires |Concat(ds)| <= c.total - c.current && (ds != [] ==> 0 < c.current)
    ensures RunFramed(env, c, ds)
    ensures var w := Written(NetRun(env, c, ds).out, c.cacheFd);
      && |w| <= |Concat(ds)|
      && (|w| == |Concat(ds)| ==> Through(c.fail, ds))
      && (Through(c.fail, ds) && |Concat(ds)| == c.total - c.current ==> w == Concat(ds))
    decreases |ds|
  {
    if ds != [] {
      var data, later := ds[0], ds[1..];
      assert |Concat(ds)| == |data| + |Concat(later)|;
      RestRead(env, c, data);
      var d := NetUnpack(env, c, data);
      OneLater(c, data, d);
      LaterReads(env, d.conn, later);
      WrittenAppend(d.out, NetRun(env, d.conn, later).out, c.cacheFd);
      NoMore(later);
      ThroughFirst(c.fail, ds);
    }
  }

  lemma OneLater(c: Conn, data: seq<Byte>, d: Done)
    requires Open(c) && 0 < c.current && 0 < |data| <= c.total - c.current
    requires d == if |data| < HEADER then Done(c, []) else LaterPiece(c, data)
    ensures var last, taken := |data| == c.total - c.current, |data| >= HEADER;
      && Open(d.conn) && d.conn.total <= c.total && d.conn.cacheFd == c.cacheFd
      && Written(d.out, c.cacheFd) == (if taken && (last || !c.fail) then data else [])
      && (if !taken then d.conn == c
          else if last then d.conn.total == 0 && d.conn.current == 0 && !d.conn.fail
          else d.conn == c.(current := c.current + |data|))
  {
    WrittenOne(c.cacheFd, data, c.cacheFd);
  }

  lemma NoMore(ds: seq<seq<Byte>>)
    ensures NonEmpty(ds) && |Concat(ds)| == 0 ==> ds == []
  {
  }

  lemma ThroughFirst(fail: bool, ds: seq<seq<Byte>>)
    requires ds != []
    ensures Through(fail, ds) <==> |ds[0]| >= HEADER && LongEnough(ds[1..]) && (!fail || ds[1..] == [])
  {
    if |ds[0]| >= HEADER && LongEnough(ds[1..]) {
      assert forall i :: 1 <= i < |ds| ==> ds[i] == ds[1..][i - 1];
    }
  }

  lemma FirstTail(env: Env, p: seq<Byte>, first: seq<Byte>, tail: seq<Byte>)
    requires EnvOk(env) && Good(env, p) && HEADER <= |first| && first + tail == Encode(env, p)
    ensures |first| - HEADER <= |p| && tail == p[|first| - HEADER..] && first <= Encode(env, p) + []
  {
    assert |Encode(env, p)| == HEADER + |p| && Encode(env, p)[HEADER..] == p;
    assert tail == (first + tail)[|first|..] == Encode(env, p)[|first|..] == p[|first| - HEADER..];
  }

  /** The read with the header and at least five bytes of the payload. */
  lemma FirstRead(env: Env, c: Conn, p: seq<Byte>, first: seq<Byte>, tail: seq<Byte>)
    requires EnvOk(env) && Good(env, p) && Open(c) && !Busy(c)
    requires HEADER + 5 <= |first| <= MAX_BUFFER && first + tail == Encode(env, p)
    ensures Framed(env, c, first, 0)
    ensures var d, n := NetUnpack(env, c, first), |first| - HEADER;
      && d.out == [ToNode(Owner(env, p), IpcHeader(|p|) + p[..n]), DiagAck]
      && d.conn == c.(cacheFd := Owner(env, p), current := if tail == [] then 0 else n, total := if tail == [] then 0 else |p|)
      && n <= |p| && tail == p[n..]
  {
    hide NetExec, NetUnpack, Framed, Encode, IpcHeader, Owner;
    FirstTail(env, p, first, tail);
    assert first[0..] == first;
    HeaderStep(env, c, first, 0, p, []);
    OneTurn(env, c, first);
  }

  /** A read that one turn of the loop uses up. */
  lemma OneTurn(env: Env, c: Conn, data: seq<Byte>)
    requires |data| >= HEADER && Open(c) && (Busy(c) ==> c.current == 0)
    requires NetExec(env, c, data, 0).pos == |data|
    ensures Framed(env, c, data, 0)
    ensures NetUnpack(env, c, data) == Done(NetExec(env, c, data, 0).conn, NetExec(env, c, data, 0).out)
  {
    hide NetExec;
    ExecOk(env, c, data, 0);
    var x := NetExec(env, c, data, 0);
    LoopEnds(env, x.conn, data);
    LoopStep(env, c, data, 0);
    assert x.out + [] == x.out;
  }

  lemma LaterArriveIff(env: Env, c: Conn, ds: seq<seq<Byte>>)
    requires Open(c) && NonEmpty(ds)
    requires |Concat(ds)| == c.total - c.current && (ds != [] ==> 0 < c.current)
    ensures RunFramed(env, c, ds)
    ensures Written(NetRun(env, c, ds).out, c.cacheFd) == Concat(ds) <==> Through(c.fail, ds)
  {
    LaterReads(env, c, ds);
  }

  lemma RunCons(env: Env, c: Conn, first: seq<Byte>, later: seq<seq<Byte>>)
    requires |first| >= HEADER && Framed(env, c, first, 0) && RunFramed(env, NetUnpack(env, c, first).conn, later)
    ensures RunFramed(env, c, [first] + later)
    ensures NetRun(env, c, [first] + later).out
         == NetUnpack(env, c, first).out + NetRun(env, NetUnpack(env, c, first).conn, later).out
  {
    assert ([first] + later)[1..] == later;
  }

  /** After a first piece of n bytes went out, the frame is complete exactly if the rest gets
      through. */
  lemma PieceThenRest(env: Env, c: Conn, p: seq<Byte>, n: nat, later: seq<seq<Byte>>)
    requires EnvOk(env) && Good(env, p) && Open(c) && NonEmpty(later) && 0 < n <= |p|
    requires c.cacheFd == Owner(env, p) && Concat(later) == p[n..]
    requires if n == |p| then c.total == 0 && c.current == 0 else c.total == |p| && c.current == n
    ensures RunFramed(env, c, later)
    ensures IpcHeader(|p|) + p[..n] + Written(NetRun(env, c, later).out, Owner(env, p)) == Frame(p)
       <==> Through(c.fail, later)
  {
    hide IpcHeader, Frame, Written, NetRun, RunFramed, Owner, EnvOk;
    NoMore(later);
    LaterArriveIff(env, c, later);
    Rejoin(p, n, Written(NetRun(env, c, later).out, Owner(env, p)));
  }

  /** What reaches the node of a message whose first read holds n bytes of it: all, if n is at least
      five and no stale fail flag meets more than two pieces; and if the first read holds the header
      alone, since the next read is then taken for the first piece, with the flag set by the refusal
      of the empty one. */
  predicate Arrives(n: nat, fail: bool, later: seq<seq<Byte>>) {
    && LongEnough(later)
    && if n >= 5 then !fail || |later| <= 1 else n == 0 && |later| <= 2
  }

  /** A message reaches its node unharmed exactly when no later read is shorter than a DoIP header, its
      first read holds the header alone or at least five bytes more, and no fail flag, stale or set by
      an empty first piece, meets a middle piece. */
  lemma MessageArrivesIff(env: Env, c: Conn, p: seq<Byte>, first: seq<Byte>, later: seq<seq<Byte>>)
    requires EnvOk(env) && Good(env, p) && Open(c) && !Busy(c)
    requires HEADER <= |first| <= MAX_BUFFER && NonEmpty(later)
    requires first + Concat(later) == Encode(env, p)
    requires |first| == HEADER && later != [] ==> |later[0]| + 6 <= MAX_BUFFER
    ensures RunFramed(env, c, [first] + later)
    ensures Written(NetRun(env, c, [first] + later).out, Owner(env, p)) == Frame(p)
       <==> Arrives(|first| - HEADER, c.fail, later)
  {
    if |first| >= HEADER + 5 {
      LongFirst(env, c, p, first, later);
    } else if |first| > HEADER {
      RefusedFirst(env, c, p, first, later);
    } else {
      EmptyFirst(env, c, p, first, later);
    }
  }

  lemma LongFirst(env: Env, c: Conn, p: seq<Byte>, first: seq<Byte>, later: seq<seq<Byte>>)
    requires EnvOk(env) && Good(env, p) && Open(c) && !Busy(c)
    requires HEADER + 5 <= |first| <= MAX_BUFFER && NonEmpty(later)
    requires first + Concat(later) == Encode(env, p)
    ensures RunFramed(env, c, [first] + later)
    ensures Written(NetRun(env, c, [first] + later).out, Owner(env, p)) == Frame(p) <==> Through(c.fail, later)
  {
    hide NetUnpack, Framed, Encode, Written, IpcHeader, Frame, Through, NetRun, RunFramed, NonEmpty, Owner, EnvOk;
    var n, fd := |first| - HEADER, Owner(env, p);
    FirstRead(env, c, p, first, Concat(later));
    var d := NetUnpack(env, c, first);
    PieceThenRest(env, d.conn, p, n, later);
    RunCons(env, c, first, later);
    WrittenAppend(d.out, NetRun(env, d.conn, later).out, fd);
    WrittenFirst(fd, IpcHeader(|p|) + p[..n], fd);
  }

  // ---------- a first piece that is too short ----------

  /** A first read with fewer than five bytes of the payload: nothing goes to the node, the fail flag
      is set, and the rest is still to come. */
  lemma ShortFirst(env: Env, c: Conn, p: seq<Byte>, first: seq<Byte>, tail: seq<Byte>)
    requires EnvOk(env) && Good(env, p) && Open(c) && !Busy(c)
    requires HEADER <= |first| < HEADER + 5 && first + tail == Encode(env, p)
    ensures Framed(env, c, first, 0)
    ensures NetUnpack(env, c, first) ==
      Done(c.(total := |p|, current := |first| - HEADER, fail := true), [HeaderNack(0x04)])
  {
    hide Encode, NetUnpack, NetLoop, Framed;
    FirstTail(env, p, first, tail);
    assert first[0..] == first;
    HeaderParsed(env, first, 0, p, []);
    OneTurn(env, c, first);
  }

  lemma RefusedFirst(env: Env, c: Conn, p: seq<Byte>, first: seq<Byte>, later: seq<seq<Byte>>)
    requires EnvOk(env) && Good(env, p) && Open(c) && !Busy(c)
    requires HEADER < |first| < HEADER + 5 && NonEmpty(later)
    requires first + Concat(later) == Encode(env, p)
    ensures RunFramed(env, c, [first] + later)
    ensures Written(NetRun(env, c, [first] + later).out, Owner(env, p)) != Frame(p)
  {
    hide NetUnpack, Framed, Encode, Written, NetRun, RunFramed, NonEmpty;
    FirstTail(env, p, first, Concat(later));
    ShortFirst(env, c, p, first, Concat(later));
    var d := NetUnpack(env, c, first);
    LaterBound(env, d.conn, later, Owner(env, p));
    RunCons(env, c, first, later);
    NackIsNotWritten(d.out, NetRun(env, d.conn, later).out, Owner(env, p));
  }

  lemma NackIsNotWritten(nack: seq<Effect>, out: seq<Effect>, fd: int)
    requires nack == [HeaderNack(0x04)]
    ensures Written(nack + out, fd) == Written(out, fd)
  {
    WrittenAppend(nack, out, fd);
    assert nack[1..] == [];
  }

  /** Later pieces bring a node at most their own bytes. */
  lemma {:induction false} LaterBound(env: Env, c: Conn, ds: seq<seq<Byte>>, fd: int)
    requires Open(c) && NonEmpty(ds)
    requires |Concat(ds)| <= c.total - c.current && (ds != [] ==> 0 < c.current)
    ensures RunFramed(env, c, ds) && |Written(NetRun(env, c, ds).out, fd)| <= |Concat(ds)|
    decreases |ds|
  {
    if ds != [] {
      var data, later := ds[0], ds[1..];
      RestRead(env, c, data);
      var d := NetUnpack(env, c, data);
      OneLater(c, data, d);
      WrittenOne(c.cacheFd, data, fd);
      NoMore(later);
      LaterBound(env, d.conn, later, fd);
      WrittenAppend(d.out, NetRun(env, d.conn, later).out, fd);
    }
  }

  // ---------- a first piece of no bytes ----------

  /** A read that is taken for the first piece although no header is in it. */
  lemma RestartRead(env: Env, c: Conn, data: seq<Byte>)
    requires Open(c) && c.current == 0 && HEADER <= |data| <= c.total
    ensures Framed(env, c, data, 0) && NetUnpack(env, c, data) == FirstPiece(env, c, data)
  {
    hide NetLoop, Framed, NetUnpack, FirstPiece;
    assert data[0..0 + |data|] == data;
    assert NetExec(env, c, data, 0) == Exec(FirstPiece(env, c, data).conn, FirstPiece(env, c, data).out, |data|);
    OneTurn(env, c, data);
  }

  lemma {:induction false} ClosedRun(env: Env, c: Conn, ds: seq<seq<Byte>>)
    requires c.closed && ConnOk(c) && c.total < 0x1_0000_0000
    ensures RunFramed(env, c, ds) && NetRun(env, c, ds) == Done(c, [])
    decreases |ds|
  {
    if ds != [] {
      ClosedRun(env, c, ds[1..]);
    }
  }

  lemma FirstPieceBound(env: Env, c: Conn, data: seq<Byte>, fd: int)
    requires Open(c) && c.current == 0 && HEADER <= |data| < c.total
    ensures var d := FirstPiece(env, c, data);
      && |Written(d.out, fd)| <= 6 + |data|
      && d.conn.total == c.total && d.conn.current == |data|
  {
    var d := FirstPiece(env, c, data);
    if d.out != [] {
      var rest := d.out[1..];
      assert rest == [] || rest == [Closed] || rest == [DiagAck];
      assert rest != [] ==> rest[1..] == [];
      assert Written(rest, fd) == [];
      assert d.out[0].ToNode? ==> |d.out[0].bytes| == 6 + |data|;
    }
  }

  /** If bytes are missing, a restarted message never fills its frame. */
  lemma {:induction false} RestartBound(env: Env, c: Conn, ds: seq<seq<Byte>>, fd: int)
    requires Open(c) && c.current == 0 && NonEmpty(ds) && |Concat(ds)| < c.total
    ensures RunFramed(env, c, ds) && |Written(NetRun(env, c, ds).out, fd)| <= 6 + |Concat(ds)|
    decreases |ds|
  {
    hide FirstPiece, Framed, NetUnpack, Written;
    NothingWritten(fd);
    if ds != [] {
      var data, later := ds[0], ds[1..];
      assert |Concat(ds)| == |data| + |Concat(later)|;
      if |data| < HEADER {
        ShortRead(env, c, data);
        RestartBound(env, c, later, fd);
        NothingFirst(NetRun(env, c, later).out);
      } else {
        RestartRead(env, c, data);
        FirstPieceBound(env, c, data, fd);
        var d := FirstPiece(env, c, data);
        if d.conn.closed {
          ClosedRun(env, d.conn, later);
        } else {
          LaterBound(env, d.conn, later, fd);
        }
        WrittenAppend(d.out, NetRun(env, d.conn, later).out, fd);
      }
    }
  }

  lemma ShortRead(env: Env, c: Conn, data: seq<Byte>)
    requires |data| < HEADER
    ensures NetUnpack(env, c, data) == Done(c, [])
  {
  }

  lemma NothingFirst(out: seq<Effect>)
    ensures [] + out == out
  {
  }

  lemma NothingWritten(fd: int)
    ensures Written([], fd) == []
  {
  }

  /** The header alone is refused as an empty piece, and the next read is taken for the first piece. */
  lemma EmptyFirst(env: Env, c: Conn, p: seq<Byte>, first: seq<Byte>, later: seq<seq<Byte>>)
    requires EnvOk(env) && Good(env, p) && Open(c) && !Busy(c)
    requires |first| == HEADER && NonEmpty(later) && first + Concat(later) == Encode(env, p)
    requires later != [] ==> |later[0]| + 6 <= MAX_BUFFER
    ensures RunFramed(env, c, [first] + later)
    ensures Written(NetRun(env, c, [first] + later).out, Owner(env, p)) == Frame(p) <==> LongEnough(later) && |later| <= 2
  {
    hide NetUnpack, Framed, Encode, Written, NetRun, RunFramed, LongEnough, Frame;
    FirstTail(env, p, first, Concat(later));
    assert p[0..] == p;
    ShortFirst(env, c, p, first, Concat(later));
    var d := NetUnpack(env, c, first);
    Restarted(env, d.conn, p, later);
    RunCons(env, c, first, later);
    NackIsNotWritten(d.out, NetRun(env, d.conn, later).out, Owner(env, p));
  }

  lemma Restarted(env: Env, c: Conn, p: seq<Byte>, ds: seq<seq<Byte>>)
    requires EnvOk(env) && Good(env, p) && Open(c) && c.fail && c.current == 0 && c.total == |p|
    requires NonEmpty(ds) && Concat(ds) == p && (ds != [] ==> |ds[0]| + 6 <= MAX_BUFFER)
    ensures RunFramed(env, c, ds)
    ensures Written(NetRun(env, c, ds).out, Owner(env, p)) == Frame(p) <==> LongEnough(ds) && |ds| <= 2
  {
    hide NetUnpack, Framed, FirstPiece, Written, IpcHeader, Owner;
    var data, later := ds[0], ds[1..];
    assert Concat(ds) == data + Concat(later);
    if |data| < HEADER {
      ShortRead(env, c, data);
      RestartBound(env, c, later, Owner(env, p));
      NothingFirst(NetRun(env, c, later).out);
      assert |Frame(p)| == 6 + |p|;
    } else {
      RestartRead(env, c, data);
      assert data == p[..|data|] && Concat(later) == p[|data|..];
      PieceForwarded(env, c, p, |data|);
      var d := FirstPiece(env, c, data);
      PieceThenRest(env, d.conn, p, |data|, later);
      WrittenFirst(Owner(env, p), IpcHeader(|p|) + p[..|data|], Owner(env, p));
      WrittenAppend(d.out, NetRun(env, d.conn, later).out, Owner(env, p));
      ThroughFirst(false, ds);
    }
  }

  lemma Rejoin(p: seq<Byte>, n: nat, w: seq<Byte>)
    requires n <= |p| < 0x1_0000_0000
    ensures IpcHeader(|p|) + p[..n] + w == Frame(p) <==> w == p[n..]
  {
    var a := IpcHeader(|p|) + p[..n];
    assert a + p[n..] == Frame(p);
    if a + w == Frame(p) {
      assert w == (a + w)[|a|..] && p[n..] == (a + p[n..])[|a|..];
    }
  }

  /** A whole message at offset pos of a read reaches its node exactly when the bytes at its
      payload's position, cut to eight bits, are the payload: always below offset 248, and above
      only by coincidence. */
  lemma WholeMessageArrivesIff(env: Env, c: Conn, data: seq<Byte>, pos: nat, p: seq<Byte>, tail: seq<Byte>)
    requires EnvOk(env) && Good(env, p) && Open(c) && !Busy(c)
    requires pos <= |data| <= MAX_BUFFER && data[pos..] == Encode(env, p) + tail
    ensures var q := (pos + HEADER) % 256;
      && HasHeader(data, pos) && q + |p| <= |data|
      && (NetExec(env, c, data, pos).out == [ToNode(Owner(env, p), Frame(p)), DiagAck]
          <==> data[q..q + |p|] == p)
      && (pos < 248 ==> data[q..q + |p|] == p)
  {
    hide Encode, Frame, IpcHeader, FirstPiece;
    var q := (pos + HEADER) % 256;
    MessageInside(env, data, pos, p, tail);
    HeaderParsed(env, data, pos, p, tail);
    var c1 := c.(total := |p|, current := 0);
    assert NetExec(env, c, data, pos).out == FirstPiece(env, c1, data[q..q + |p|]).out;
    PieceIsPayloadIff(env, c1, data[q..q + |p|], p);
  }

  lemma MessageInside(env: Env, data: seq<Byte>, pos: nat, p: seq<Byte>, tail: seq<Byte>)
    requires EnvOk(env) && Good(env, p) && pos <= |data| && data[pos..] == Encode(env, p) + tail
    ensures pos + HEADER + |p| <= |data| && data[pos + HEADER..pos + HEADER + |p|] == p
  {
    assert |data[pos..]| == |data| - pos && |Encode(env, p)| == HEADER + |p|;
    PayloadParsed(env, data, pos, p, tail, |p|);
    assert p[..|p|] == p;
  }

  lemma PieceIsPayloadIff(env: Env, c: Conn, chunk: seq<Byte>, p: seq<Byte>)
    requires EnvOk(env) && Good(env, p) && |chunk| == |p| <= MAX_BUFFER && c.total == |p| && c.current == 0 && !c.closed
    ensures FirstPiece(env, c, chunk).out == [ToNode(Owner(env, p), Frame(p)), DiagAck] <==> chunk == p
  {
    assert p[..|p|] == p;
    PieceForwarded(env, c, p, |p|);
    if FirstPiece(env, c, chunk).out == [ToNode(Owner(env, p), Frame(p)), DiagAck] {
      var bytes := IpcHeader(|p|) + chunk;
      assert FirstPiece(env, c, chunk).out[0].bytes == bytes == Frame(p);
      assert chunk == bytes[6..] && p == Frame(p)[6..];
    }
  }
}
