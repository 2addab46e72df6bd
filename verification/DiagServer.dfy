/** Diagnostic messages in the server: parsing a read of a tester's TCP stream and forwarding the
    payload, in one piece or in several, to the node that owns the target address
    (libdoipstack/ne_doip_server_manager.c). The entity is no gateway for other networks and the
    target addresses are physical. */
module DiagServer {
  import opened Wire

  /** Configuration and the activated connection's address; `nodes` maps addresses to IPC fds. */
  datatype Env = Env(version: int, mds: int, ready: bool, active: bool, sa: int, nodes: map<int, int>)

  /** The diagnostic fields of a connection table entry; `closed` says that the entry is gone. */
  datatype Conn = Conn(total: int, current: int, fail: bool, cacheFd: int, closed: bool)

  datatype Effect =
    | ToNode(fd: int, bytes: seq<Byte>)
    | HeaderNack(code: int)
    | DiagNack(code: int)
    | DiagAck
    | Closed
    | Handled(kind: int)

  const HEADER := 8
  const DIAGNOSTIC := 0x8001
  const KNOWN := {0x0000, 0x0001, 0x0002, 0x0003, 0x0004, 0x0005, 0x0006, 0x0007, 0x0008, 0x4001, 0x4002,
                  0x4003, 0x4004, 0x8001, 0x8002, 0x8003, 0xABAB, 0xBCBC}
  const INDICATION := 0x04
  const PHYSICAL := 0x00
  const MAX_BUFFER := 1500

  ghost predicate ConnOk(c: Conn) {
    0 <= c.current <= c.total
  }

  predicate Busy(c: Conn) { c.total != c.current }

  datatype Done = Done(conn: Conn, out: seq<Effect>)

  /** Forward the first piece of a message behind an IPC header. */
  function ToSelf(env: Env, fd: int, chunk: seq<Byte>, total: int): seq<Effect>
    requires 0 <= total < 0x1_0000_0000
  {
    if total > env.mds then [DiagNack(0x04)]
    else if |chunk| - 4 > MAX_BUFFER then [DiagNack(0x05)]
    else [ToNode(fd, [INDICATION] + LE32(total) + [PHYSICAL] + chunk), DiagAck]
  }

  /** The first piece of a message: it is counted, checked and forwarded or refused. */
  function FirstPiece(env: Env, c: Conn, chunk: seq<Byte>): Done
    requires 0 <= c.total < 0x1_0000_0000
  {
    var c1 := if |chunk| == c.total then c.(current := 0, total := 0) else c.(current := |chunk|);
    if !env.ready then Done(c1.(fail := true), [])
    else if |chunk| <= 4 then Done(c1.(fail := true), [HeaderNack(0x04)])
    else
      var source, target := FromBE16(chunk[0..2]), FromBE16(chunk[2..4]);
      if !env.active then Done(c1.(fail := true), [DiagNack(0x06)])
      else if env.sa != source then Done(c1.(fail := true, closed := true), [DiagNack(0x02), Closed])
      else if target !in env.nodes then Done(c1.(fail := true), [DiagNack(0x03)])
      else Done(c1.(cacheFd := env.nodes[target]), ToSelf(env, env.nodes[target], chunk, c.total))
  }

  /** A later piece: the last one clears the fail flag, before the flag is looked at. */
  function LaterPiece(c: Conn, chunk: seq<Byte>): Done {
    var current := c.current + |chunk|;
    var c1 := if current == c.total then c.(fail := false, current := 0, total := 0) else c.(current := current);
    Done(c1, if c1.fail then [] else [ToNode(c.cacheFd, chunk)])
  }

  /** The position is passed in eight bits. Without a table entry nothing happens. */
  function Diagnose(env: Env, c: Conn, data: seq<Byte>, pos: nat, len: nat): Done
    requires pos % 256 + len <= |data| && 0 <= c.total < 0x1_0000_0000
  {
    var chunk := data[pos % 256..pos % 256 + len];
    if c.closed then Done(c, [])
    else if c.current > 0 then LaterPiece(c, chunk) else FirstPiece(env, c, chunk)
  }

  datatype Exec = Exec(conn: Conn, out: seq<Effect>, pos: nat)

  /** Where a refused message ends, as the code computes it. */
  function Skip(size: nat, pos: nat, length: nat): nat {
    if length + HEADER >= size - pos then size else pos + length
  }

  predicate HasHeader(data: seq<Byte>, pos: nat) { pos + HEADER <= |data| }

  function KindAt(data: seq<Byte>, pos: nat): int
    requires HasHeader(data, pos)
  {
    FromBE16(data[pos + 2..pos + 4])
  }

  function LengthAt(data: seq<Byte>, pos: nat): (n: nat)
    requires HasHeader(data, pos)
    ensures n < 0x1_0000_0000
  {
    FromBE32(data[pos + 4..pos + 8])
  }

  predicate VersionOk(env: Env, data: seq<Byte>, pos: nat)
    requires HasHeader(data, pos)
  {
    (data[pos] == env.version || data[pos] == 0xFF) && 255 - data[pos + 1] == data[pos]
  }

  /** Where a turn of the parse loop may start. */
  predicate Starts(c: Conn, data: seq<Byte>, pos: nat) {
    c.closed || if Busy(c) then pos == 0 else HasHeader(data, pos)
  }

  /** One turn of the parse loop: nothing without a table entry, the rest of a message, or one header
      with what follows it. */
  function NetExec(env: Env, c: Conn, data: seq<Byte>, pos: nat): Exec
    requires pos < |data| && ConnOk(c) && c.total < 0x1_0000_0000 && Starts(c, data, pos)
  {
    if c.closed then Exec(c, [], 0)
    else if Busy(c) then
      var n := if c.total - c.current >= |data| then |data| else c.total - c.current;
      var d := Diagnose(env, c, data, pos, n);
      Exec(d.conn, d.out, n)
    else
      var c0 := c.(total := 0, current := 0);
      var p, kind, length := pos + HEADER, KindAt(data, pos), LengthAt(data, pos);
      if !VersionOk(env, data, pos) then Exec(c0, [HeaderNack(0x00)], 0)
      else if kind !in KNOWN then Exec(c0, [HeaderNack(0x01)], if length == 0 then 0 else Skip(|data|, p, length))
      else if length > env.mds then Exec(c0, [HeaderNack(0x02)], Skip(|data|, p, length))
      else
        var d :=
          if kind != DIAGNOSTIC then Done(c0, [Handled(kind)])
          else Diagnose(env, c0.(total := length), data, p, if length > |data| - p then |data| - p else length);
        Exec(d.conn, d.out, if length + p >= |data| then |data| else p + length)
  }

  /** A piece never takes the counts out of bounds, and completes the message or leaves some of it. */
  lemma DiagnoseOk(env: Env, c: Conn, data: seq<Byte>, pos: nat, len: nat)
    requires pos % 256 + len <= |data| && ConnOk(c) && c.total < 0x1_0000_0000 && len <= c.total - c.current
    ensures var d := Diagnose(env, c, data, pos, len);
      && ConnOk(d.conn) && d.conn.total <= c.total
      && (Busy(d.conn) && !d.conn.closed ==> len < c.total - c.current)
  {
  }

  lemma ExecOk(env: Env, c: Conn, data: seq<Byte>, pos: nat)
    requires pos < |data| && ConnOk(c) && c.total < 0x1_0000_0000 && Starts(c, data, pos)
    ensures var x := NetExec(env, c, data, pos);
      && ConnOk(x.conn) && x.conn.total < 0x1_0000_0000
      && (x.pos == 0 || pos < x.pos <= |data|)
      && (Busy(x.conn) && !x.conn.closed ==> x.pos == |data|)
  {
    hide Diagnose, FromBE32, FromBE16;
    if Busy(c) && !c.closed {
      DiagnoseOk(env, c, data, pos, if c.total - c.current >= |data| then |data| else c.total - c.current);
    } else if !c.closed {
      var p, length := pos + HEADER, LengthAt(data, pos);
      DiagnoseOk(env, c.(total := length, current := 0), data, p, if length > |data| - p then |data| - p else length);
    }
  }

  /** Every header that the loop meets lies within the read. */
  ghost predicate Framed(env: Env, c: Conn, data: seq<Byte>, pos: nat)
    decreases |data| - pos
  {
    && ConnOk(c) && c.total < 0x1_0000_0000
    && (pos < |data| ==>
          && Starts(c, data, pos)
          && var x := NetExec(env, c, data, pos);
             x.pos <= pos || Framed(env, x.conn, data, x.pos))
  }

  function NetLoop(env: Env, c: Conn, data: seq<Byte>, pos: nat): Done
    requires Framed(env, c, data, pos)
    decreases |data| - pos
  {
    if pos >= |data| then Done(c, [])
    else
      var x := NetExec(env, c, data, pos);
      if x.pos <= pos then Done(x.conn, x.out)
      else
        var d := NetLoop(env, x.conn, data, x.pos);
        Done(d.conn, x.out + d.out)
  }

  /** One read of the stream. Reads of fewer than eight bytes are discarded whole, and all reads once
      the table entry is gone. */
  function NetUnpack(env: Env, c: Conn, data: seq<Byte>): Done
    requires |data| >= HEADER ==> Framed(env, c, data, 0)
  {
    if c.closed || |data| < HEADER then Done(c, []) else NetLoop(env, c, data, 0)
  }

  /** What a node receives on its IPC stream. */
  function Written(out: seq<Effect>, fd: int): seq<Byte> {
    if out == [] then []
    else (if out[0].ToNode? && out[0].fd == fd then out[0].bytes else []) + Written(out[1..], fd)
  }

  lemma {:induction false} WrittenAppend(a: seq<Effect>, b: seq<Effect>, fd: int)
    ensures Written(a + b, fd) == Written(a, fd) + Written(b, fd)
  {
    if a == [] {
      assert a + b == b;
    } else {
      assert (a + b)[1..] == a[1..] + b;
      WrittenAppend(a[1..], b, fd);
    }
  }
}
