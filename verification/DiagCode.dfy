/** Server and node as they run: connection fields changed in place, buffers filled at an advancing
    position, parse loops over a read. Each is proved to do what its specification says. */
module DiagServerCode {
  import opened Wire
  import opened DiagServer

  /** Copy src into dst from pos on. */
  method MemCopy(dst: array<Byte>, pos: nat, src: seq<Byte>)
    requires pos + |src| <= dst.Length
    modifies dst
    ensures dst[..pos] == old(dst[..pos]) && dst[pos..pos + |src|] == src
    ensures dst[pos + |src|..] == old(dst[pos + |src|..])
  {
    var i := 0;
    while i < |src|
      invariant i <= |src|
      invariant dst[..pos] == old(dst[..pos]) && dst[pos..pos + i] == src[..i]
      invariant forall k :: pos + i <= k < dst.Length ==> dst[k] == old(dst[k])
    {
      dst[pos + i] := src[i];
      i := i + 1;
    }
  }

  /** A read that is taken for the first piece of a message, because no byte of it came with the
      header, fits into the output buffer behind the frame's header. */
  predicate RoomFor(c: Conn, data: seq<Byte>) {
    Busy(c) && c.current == 0 && !c.closed ==> |data| + 6 <= MAX_BUFFER
  }

  class Connection {
    const env: Env
    var total: int
    var current: int
    var fail: bool
    var cacheFd: int
    var closed: bool
    var out: seq<Effect>

    constructor (e: Env)
      ensures env == e && State() == Conn(0, 0, false, 0, false) && out == []
    {
      env, total, current, fail, cacheFd, closed, out := e, 0, 0, false, 0, false, [];
    }

    ghost function State(): Conn
      reads this
    {
      Conn(total, current, fail, cacheFd, closed)
    }

    /** The frame for the node is put together in the output buffer of the connection. */
    method SubDiagnosticToSelf(fd: int, chunk: seq<Byte>, totalLength: int)
      requires 0 <= totalLength < 0x1_0000_0000 && (6 + |chunk| <= MAX_BUFFER || |chunk| - 4 > MAX_BUFFER)
      modifies this`out
      ensures out == old(out) + ToSelf(env, fd, chunk, totalLength)
    {
      if totalLength > env.mds {
        out := out + [DiagNack(0x04)];
      } else if |chunk| - 4 > MAX_BUFFER {
        out := out + [DiagNack(0x05)];
      } else {
        var data := new Byte[MAX_BUFFER](_ => 0);
        var pos := 0;
        data[pos] := INDICATION;
        pos := pos + 1;
        MemCopy(data, pos, LE32(totalLength));
        pos := pos + 4;
        data[pos] := PHYSICAL;
        pos := pos + 1;
        assert data[..6] == [INDICATION] + LE32(totalLength) + [PHYSICAL];
        MemCopy(data, pos, chunk);
        var size := pos + |chunk|;
        assert data[..size] == data[..6] + data[6..size];
        out := out + [ToNode(fd, data[..size])];
        out := out + [DiagAck];
      }
    }

    method UnpackDiagnostic(data: seq<Byte>, position: nat, len: nat)
      requires position % 256 + len <= |data| <= MAX_BUFFER && 0 <= total < 0x1_0000_0000
      requires 0 <= current && (current == 0 ==> len + 6 <= MAX_BUFFER)
      modifies this
      ensures var d := Diagnose(env, old(State()), data, position, len);
        State() == d.conn && out == old(out) + d.out
    {
      if closed {
        return;
      }
      var pos := position % 256;
      var chunk := data[pos..pos + len];
      if current > 0 {
        Continue(chunk);
      } else {
        Begin(chunk);
      }
    }

    method Continue(chunk: seq<Byte>)
      modifies this
      ensures var d := LaterPiece(old(State()), chunk); State() == d.conn && out == old(out) + d.out
    {
      current := current + |chunk|;
      if current == total {
        fail := false;
        current := 0;
        total := 0;
      }
      if fail {
        return;
      }
      out := out + [ToNode(cacheFd, chunk)];
    }

    method Begin(chunk: seq<Byte>)
      requires 0 <= total < 0x1_0000_0000 && current == 0 && |chunk| + 6 <= MAX_BUFFER
      modifies this
      ensures var d := FirstPiece(env, old(State()), chunk); State() == d.conn && out == old(out) + d.out
    {
      current := current + |chunk|;
      var totalLength := total;
      if current == total {
        total := 0;
        current := 0;
      }
      if !env.ready {
        fail := true;
        return;
      }
      if |chunk| <= 4 {
        out := out + [HeaderNack(0x04)];
        fail := true;
        return;
      }
      var source, target := FromBE16(chunk[0..2]), FromBE16(chunk[2..4]);
      if !env.active {
        out := out + [DiagNack(0x06)];
        fail := true;
        return;
      }
      if env.sa != source {
        out := out + [DiagNack(0x02)] + [Closed];
        closed := true;
        fail := true;
        return;
      }
      if target !in env.nodes {
        out := out + [DiagNack(0x03)];
        fail := true;
      } else {
        cacheFd := env.nodes[target];
        SubDiagnosticToSelf(cacheFd, chunk, totalLength);
      }
    }

    method NetUnpackExec(data: seq<Byte>, at: nat) returns (next: nat)
      requires at < |data| <= MAX_BUFFER && ConnOk(State()) && total < 0x1_0000_0000
      requires Starts(State(), data, at) && RoomFor(State(), data)
      modifies this
      ensures var x := NetExec(env, old(State()), data, at);
        State() == x.conn && out == old(out) + x.out && next == x.pos
    {
      if closed {
        return 0;
      }
      if total - current > 0 {
        var rest := total - current;
        if rest >= |data| {
          UnpackDiagnostic(data, at, |data|);
          return |data|;
        } else {
          UnpackDiagnostic(data, at, rest);
          return rest;
        }
      }
      total := 0;
      current := 0;
      next := ParseHeader(data, at);
    }

    method ParseHeader(data: seq<Byte>, at: nat) returns (next: nat)
      requires HasHeader(data, at) && |data| <= MAX_BUFFER && total == 0 && current == 0 && !closed
      modifies this
      ensures var x := NetExec(env, old(State()), data, at);
        State() == x.conn && out == old(out) + x.out && next == x.pos
    {
      var version, inverse := data[at], 255 - data[at + 1];
      if (version != env.version && version != 0xFF) || inverse != version {
        out := out + [HeaderNack(0x00)];
        return 0;
      }
      var kind, length, pos := KindAt(data, at), LengthAt(data, at), at + HEADER;
      if kind !in KNOWN {
        out := out + [HeaderNack(0x01)];
        return if length == 0 then 0 else Skip(|data|, pos, length);
      }
      if length > env.mds {
        out := out + [HeaderNack(0x02)];
        return Skip(|data|, pos, length);
      }
      if kind == DIAGNOSTIC {
        total := length;
        UnpackDiagnostic(data, pos, if length > |data| - pos then |data| - pos else length);
      } else {
        out := out + [Handled(kind)];
      }
      next := if length + pos >= |data| then |data| else pos + length;
    }

    /** One read of the stream. */
    method NetUnpackRead(data: seq<Byte>)
      requires |data| <= MAX_BUFFER && RoomFor(State(), data)
      requires |data| >= HEADER ==> Framed(env, State(), data, 0)
      modifies this
      ensures var d := NetUnpack(env, old(State()), data);
        State() == d.conn && out == old(out) + d.out
    {
      if closed || |data| < HEADER {
        return;
      }
      hide NetExec, NetLoop, Framed;
      var pos := 0;
      while pos < |data|
        invariant pos <= |data| && Framed(env, State(), data, pos)
        invariant pos < |data| ==> RoomFor(State(), data)
        invariant Resumes(env, old(State()), old(out), State(), out, data, pos)
        decreases |data| - pos
      {
        LoopTurn(env, old(State()), old(out), State(), out, data, pos);
        var next := NetUnpackExec(data, pos);
        if next == 0 {
          return;
        }
        pos := next;
      }
      LoopOver(env, State(), data, pos);
    }
  }

  /** What the loop has put out so far, and what it will still do from pos on, make up the whole. */
  ghost predicate Resumes(env: Env, c0: Conn, out0: seq<Effect>, c: Conn, out: seq<Effect>, data: seq<Byte>, pos: nat)
    requires Framed(env, c0, data, 0) && Framed(env, c, data, pos)
  {
    var whole, d := NetLoop(env, c0, data, 0), NetLoop(env, c, data, pos);
    out + d.out == out0 + whole.out && d.conn == whole.conn
  }

  lemma LoopOver(env: Env, c: Conn, data: seq<Byte>, pos: nat)
    requires pos >= |data| && Framed(env, c, data, pos)
    ensures NetLoop(env, c, data, pos) == Done(c, [])
  {
  }

  lemma LoopTurn(env: Env, c0: Conn, out0: seq<Effect>, c: Conn, out: seq<Effect>, data: seq<Byte>, pos: nat)
    requires pos < |data| && Framed(env, c0, data, 0) && Framed(env, c, data, pos)
    requires Resumes(env, c0, out0, c, out, data, pos)
    ensures ConnOk(c) && c.total < 0x1_0000_0000
    ensures Starts(c, data, pos)
    ensures var x := NetExec(env, c, data, pos);
      && (Busy(x.conn) && !x.conn.closed ==> x.pos == |data|)
      && if x.pos == 0 then
           var whole := NetLoop(env, c0, data, 0);
           out + x.out == out0 + whole.out && x.conn == whole.conn
         else
           && pos < x.pos <= |data| && Framed(env, x.conn, data, x.pos)
           && Resumes(env, c0, out0, x.conn, out + x.out, data, x.pos)
  {
    hide NetExec;
    ExecOk(env, c, data, pos);
    var x := NetExec(env, c, data, pos);
    if x.pos != 0 {
      var d := NetLoop(env, x.conn, data, x.pos);
      assert out + x.out + d.out == out + (x.out + d.out);
    }
  }
}

module DiagNodeCode {
  import opened Wire
  import opened DiagNode

  class NodeClient {
    const self: int
    var total: int
    var current: int
    var tester: int
    var taType: int
    var out: seq<Event>

    constructor (address: int)
      ensures State() == Node(0, 0, address, 0, 0) && out == []
    {
      self, total, current, tester, taType, out := address, 0, 0, 0, 0, [];
    }

    ghost function State(): Node
      reads this
    {
      Node(total, current, self, tester, taType)
    }

    method IndicateMore(data: seq<Byte>) returns (next: nat)
      requires NodeOk(State()) && Busy(State())
      modifies this
      ensures var x := MorePiece(old(State()), data);
        State() == x.node && out == old(out) + x.out && next == x.pos
    {
      var rest := total - current;
      if rest > |data| {
        current := current + |data|;
        out := out + [Indication(tester, self, taType, data, total, current)];
        next := |data|;
      } else {
        current := current + rest;
        out := out + [Indication(tester, self, taType, data[..rest], total, current)];
        next := rest;
        total := 0;
        current := 0;
      }
    }

    method IndicateFirst(data: seq<Byte>, at: nat) returns (next: nat)
      requires HasBytes(data, at, IPC_HEADER)
      requires HasBytes(data, at + IPC_HEADER, Present(data, at)) ==> Present(data, at) >= 4
      modifies this
      ensures var x := FirstPiece(old(State()), data, at);
        State() == x.node && out == old(out) + x.out && next == x.pos
    {
      var pos := at + 1;
      total := FromLE32(data[pos..pos + 4]);
      pos := pos + 4;
      taType := data[pos];
      pos := pos + 1;
      var len := if total > |data| - IPC_HEADER then |data| - IPC_HEADER else total;
      current := current + len;
      if pos + len > |data| {
        return 0;
      }
      var buffer := data[pos..pos + len];
      pos := pos + len;
      tester := FromBE16(buffer[0..2]);
      var entity := FromBE16(buffer[2..4]);
      if entity != self && taType != FUNCTIONAL {
        return pos;
      }
      out := out + [Indication(tester, self, taType, buffer, total, current)];
      if current == total {
        total := 0;
        current := 0;
      }
      next := pos;
    }

    method NodeUnpackExec(data: seq<Byte>, at: nat) returns (next: nat)
      requires at < |data| && NodeOk(State()) && Parsable(State(), data, at)
      modifies this
      ensures var x := NodeExec(old(State()), data, at);
        State() == x.node && out == old(out) + x.out && next == x.pos
    {
      if total - current > 0 {
        next := IndicateMore(data);
      } else if data[at] == INDICATION {
        next := IndicateFirst(data, at);
      } else if data[at] == USER_CONF || data[at] == CONFIRM {
        next := TakeNotice(data, at, data[at]);
      } else {
        next := 0;
      }
    }

    method TakeNotice(data: seq<Byte>, at: nat, kind: int) returns (next: nat)
      requires HasBytes(data, at, NOTICE_HEADER)
      requires HasBytes(data, at + NOTICE_HEADER, FrameLength(data, at)) ==> FrameLength(data, at) >= 4
      modifies this`out
      ensures var x := Notice(old(State()), data, at, kind);
        State() == x.node && out == old(out) + x.out && next == x.pos
    {
      var length, pos := FrameLength(data, at), at + NOTICE_HEADER;
      if pos + length > |data| {
        return 0;
      }
      var equip := FromBE16(data[pos..pos + 2]);
      pos := pos + 2;
      var entity := FromBE16(data[pos..pos + 2]);
      pos := pos - 2 + length;
      if entity == self {
        out := out + [if kind == USER_CONF then UserConf(equip, entity) else Confirm(equip, entity)];
      }
      next := pos;
    }

    /** One read of the IPC stream. */
    method NodeUnpackRead(data: seq<Byte>)
      requires |data| > 0 && Framed(State(), data, 0)
      modifies this
      ensures var d := NodeUnpack(old(State()), data, 0);
        State() == d.node && out == old(out) + d.out
    {
      var pos := 0;
      while pos < |data|
        invariant Framed(State(), data, pos)
        invariant var d := NodeUnpack(State(), data, pos); var whole := NodeUnpack(old(State()), data, 0);
          out + d.out == old(out) + whole.out && d.node == whole.node
        decreases |data| - pos
      {
        ghost var n := State();
        var next := NodeUnpackExec(data, pos);
        if next == 0 {
          break;
        }
        pos := next;
      }
    }
  }
}
