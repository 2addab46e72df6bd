/** What the server refuses, why, and what becomes of a refused message: reason by reason, in terms of
    the bytes and the codes alone. */
module DiagRefusals {
  import opened Wire
  import opened DiagServer
  import opened DiagDelivery
  import opened DiagPieces

  // ---------- the first piece ----------

  function SourceOf(chunk: seq<Byte>): int
    requires |chunk| >= 2
  {
    var high: int, low: int := chunk[0], chunk[1];
    high * 256 + low
  }

  function TargetOf(chunk: seq<Byte>): int
    requires |chunk| >= 4
  {
    var high: int, low: int := chunk[2], chunk[3];
    high * 256 + low
  }

  /** Reasons to refuse a first piece, in the order in which they count. */
  datatype Reason = NotReady | TooShort | NotActive | WrongSource | UnknownTarget | TooLarge | NoMemory | Accepted

  function ReasonOf(env: Env, total: int, chunk: seq<Byte>): Reason {
    if !env.ready then NotReady
    else if |chunk| < 5 then TooShort
    else if !env.active then NotActive
    else if SourceOf(chunk) != env.sa then WrongSource
    else if TargetOf(chunk) !in env.nodes then UnknownTarget
    else if total > env.mds then TooLarge
    else if |chunk| > 1504 then NoMemory
    else Accepted
  }

  /** A first piece reaches a node exactly if the power mode is ready, routing is active, it has at least
      five bytes, its source is the registered address, its target is known, and neither the message nor
      the piece is too large; and then that node, as the frame of the whole message. */
  lemma ForwardedIff(env: Env, c: Conn, chunk: seq<Byte>)
    requires 0 <= c.total < 0x1_0000_0000
    ensures var out := FirstPiece(env, c, chunk).out;
      (exists fd, bytes :: ToNode(fd, bytes) in out) <==>
        && env.ready && env.active && 5 <= |chunk| <= 1504
        && SourceOf(chunk) == env.sa && TargetOf(chunk) in env.nodes && c.total <= env.mds
    ensures ReasonOf(env, c.total, chunk) == Accepted ==>
      FirstPiece(env, c, chunk).out ==
        [ToNode(env.nodes[TargetOf(chunk)], [0x04] + LE32(c.total) + [0x00] + chunk), DiagAck]
  {
    if |chunk| >= 5 {
      assert chunk[0..2] == [chunk[0], chunk[1]] && chunk[2..4] == [chunk[2], chunk[3]];
      var d := FirstPiece(env, c, chunk);
      if ReasonOf(env, c.total, chunk) == Accepted {
        assert d.out[0] == ToNode(env.nodes[TargetOf(chunk)], [0x04] + LE32(c.total) + [0x00] + chunk);
      }
    }
  }

  /** Every refusal names its first reason; all but the two for size set the fail flag, and a wrong
      source closes the connection. */
  lemma RefusedBecause(env: Env, c: Conn, chunk: seq<Byte>)
    requires 0 <= c.total < 0x1_0000_0000
    ensures var d, r := FirstPiece(env, c, chunk), ReasonOf(env, c.total, chunk);
      && (r == NotReady ==> d.out == [])
      && (r == TooShort ==> d.out == [HeaderNack(0x04)])
      && (r == NotActive ==> d.out == [DiagNack(0x06)])
      && (r == WrongSource ==> d.out == [DiagNack(0x02), Closed])
      && (r == UnknownTarget ==> d.out == [DiagNack(0x03)])
      && (r == TooLarge ==> d.out == [DiagNack(0x04)])
      && (r == NoMemory ==> d.out == [DiagNack(0x05)])
      && (d.conn.fail <==> c.fail || !(r == TooLarge || r == NoMemory || r == Accepted))
      && (d.conn.closed <==> c.closed || r == WrongSource)
  {
    if |chunk| >= 5 {
      assert chunk[0..2] == [chunk[0], chunk[1]] && chunk[2..4] == [chunk[2], chunk[3]];
    }
  }

  /** Refused or not, the piece is counted: the message is over with it, or it waits for its rest. */
  lemma FirstIsCounted(env: Env, c: Conn, chunk: seq<Byte>)
    requires 0 <= c.total < 0x1_0000_0000
    ensures var n := FirstPiece(env, c, chunk).conn;
      if |chunk| == c.total then n.total == 0 && n.current == 0 else n.total == c.total && n.current == |chunk|
  {
  }

  // ---------- the rest of a refused message ----------

  /** Of the rest of a refused message, exactly the last piece is forwarded, to the node of an earlier
      message; with it the refusal is forgotten. */
  lemma {:induction false} RefusedForwardsLast(env: Env, c: Conn, ds: seq<seq<Byte>>)
    requires Open(c) && c.fail && 0 < c.current && ds != [] && LongEnough(ds)
    requires |Concat(ds)| == c.total - c.current
    ensures RunFramed(env, c, ds)
    ensures NetRun(env, c, ds) ==
      Done(c.(fail := false, current := 0, total := 0), [ToNode(c.cacheFd, ds[|ds| - 1])])
    decreases |ds|
  {
    hide NetUnpack, Framed;
    var data, later := ds[0], ds[1..];
    assert |Concat(ds)| == |data| + |Concat(later)|;
    RestRead(env, c, data);
    var d := NetUnpack(env, c, data);
    if later == [] {
      assert d.out + [] == d.out;
    } else {
      assert later[0] == ds[1] && |Concat(later)| >= |later[0]|;
      RefusedForwardsLast(env, d.conn, later);
      assert later[|later| - 1] == ds[|ds| - 1];
      assert [] + NetRun(env, d.conn, later).out == NetRun(env, d.conn, later).out;
    }
  }

  // ---------- headers ----------

  /** The payload types the server knows. */
  predicate KnownKind(kind: int) {
    || 0x0000 <= kind <= 0x0008 || 0x4001 <= kind <= 0x4004 || 0x8001 <= kind <= 0x8003
    || kind == 0xABAB || kind == 0xBCBC
  }

  function ByteAt(data: seq<Byte>, i: nat): int
    requires i < |data|
  {
    data[i]
  }

  predicate VersionFits(env: Env, data: seq<Byte>, pos: nat)
    requires pos + 8 <= |data|
  {
    && (ByteAt(data, pos) == env.version || ByteAt(data, pos) == 0xFF)
    && ByteAt(data, pos) + ByteAt(data, pos + 1) == 255
  }

  function KindOf(data: seq<Byte>, pos: nat): int
    requires pos + 8 <= |data|
  {
    ByteAt(data, pos + 2) * 0x100 + ByteAt(data, pos + 3)
  }

  function LengthOf(data: seq<Byte>, pos: nat): int
    requires pos + 8 <= |data|
  {
    ByteAt(data, pos + 4) * 0x100_0000 + ByteAt(data, pos + 5) * 0x1_0000
    + ByteAt(data, pos + 6) * 0x100 + ByteAt(data, pos + 7)
  }

  lemma HeaderRead(data: seq<Byte>, pos: nat)
    requires pos + 8 <= |data|
    ensures KindAt(data, pos) == KindOf(data, pos) && LengthAt(data, pos) == LengthOf(data, pos)
  {
    assert data[pos + 2..pos + 4] == [data[pos + 2], data[pos + 3]];
    assert data[pos + 4..pos + 8] == [data[pos + 4], data[pos + 5], data[pos + 6], data[pos + 7]];
  }

  /** A header is refused for its version, its type or its length, in this order, each with its code; a
      wrong version ends the read. Other types than diagnostic messages are handled elsewhere. */
  lemma HeaderJudged(env: Env, c: Conn, data: seq<Byte>, pos: nat)
    requires pos + 8 <= |data| && ConnOk(c) && !Busy(c) && !c.closed && c.total < 0x1_0000_0000
    ensures var x, length := NetExec(env, c, data, pos), LengthOf(data, pos);
      if !VersionFits(env, data, pos) then x.out == [HeaderNack(0x00)] && x.pos == 0
      else if !KnownKind(KindOf(data, pos)) then x.out == [HeaderNack(0x01)]
      else if length > env.mds then x.out == [HeaderNack(0x02)]
      else
        && x.pos == Min(|data|, pos + 8 + length)
        && (KindOf(data, pos) != 0x8001 ==> x.out == [Handled(KindOf(data, pos))])
  {
    HeaderRead(data, pos);
  }

  function Min(a: int, b: int): int { if a < b then a else b }

  /** After a refused type or length, parsing goes on right behind the message exactly if more than eight
      bytes follow it in the read; otherwise the rest of the read is passed over. A type that is not
      known, with no payload, ends the read. */
  lemma RefusedIsSkipped(env: Env, c: Conn, data: seq<Byte>, pos: nat)
    requires pos + 8 <= |data| && ConnOk(c) && !Busy(c) && !c.closed && c.total < 0x1_0000_0000
    requires VersionFits(env, data, pos) && (!KnownKind(KindOf(data, pos)) || LengthOf(data, pos) > env.mds)
    ensures var x, end := NetExec(env, c, data, pos), pos + 8 + LengthOf(data, pos);
      if !KnownKind(KindOf(data, pos)) && LengthOf(data, pos) == 0 then x.pos == 0
      else if |data| - end > 8 then x.pos == end
      else x.pos == |data|
  {
    HeaderRead(data, pos);
  }
}
