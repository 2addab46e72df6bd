/** Replies to an internal tester: the server packs them behind a kind and a length, the client
    parses a read full of them and calls back (libdoipstack/ne_doip_server_manager.c,
    libdoipstack/ne_doip_client_manager.c). */
module IpcReplies {
  import opened Wire

  const VIN_SIZE := 17
  const EID_SIZE := 6
  const IDENTITY := 0xF2
  const ROUTING_ACTIVE := 0xF6
  const ENTITY_STATUS := 0xF8
  const POWER_MODE := 0xF9
  const DIAG_ACK := 0xFA
  const DIAG_NACK := 0xFB
  const DIAGNOSTIC := 0xFC
  const REPLY_HEADER := 5

  datatype Reply =
    | Identity(vin: seq<Byte>, address: int, eid: seq<Byte>, gid: seq<Byte>, action: Byte, sync: seq<Byte>)
    | RoutingActive(equip: int, entity: int, code: Byte, reserved: int, oem: seq<Byte>)
    | EntityStatus(nodeType: Byte, mcts: Byte, ncts: Byte, mds: int)
    | PowerMode(mode: Byte)
    | Ack(entity: int, equip: int, code: Byte)
    | Nack(entity: int, equip: int, code: Byte)
    | Diagnostic(entity: int, equip: int, data: seq<Byte>)

  predicate Word(x: int) { 0 <= x < 0x1_0000 }
  predicate Long(x: int) { 0 <= x < 0x1_0000_0000 }

  /** Field widths; the gateway synchronisation byte and the OEM field may be absent. */
  predicate Fits(r: Reply) {
    match r
    case Identity(vin, address, eid, gid, _, sync) =>
      |vin| == VIN_SIZE && Word(address) && |eid| == EID_SIZE && |gid| == EID_SIZE && |sync| <= 1
    case RoutingActive(equip, entity, _, reserved, oem) =>
      Word(equip) && Word(entity) && Long(reserved) && (oem == [] || |oem| == 4)
    case EntityStatus(_, _, _, mds) => Long(mds)
    case PowerMode(_) => true
    case Ack(entity, equip, _) => Word(entity) && Word(equip)
    case Nack(entity, equip, _) => Word(entity) && Word(equip)
    case Diagnostic(entity, equip, data) => Word(entity) && Word(equip) && Long(|data| + 4)
  }

  function Kind(r: Reply): Byte {
    match r
    case Identity(_, _, _, _, _, _) => IDENTITY
    case RoutingActive(_, _, _, _, _) => ROUTING_ACTIVE
    case EntityStatus(_, _, _, _) => ENTITY_STATUS
    case PowerMode(_) => POWER_MODE
    case Ack(_, _, _) => DIAG_ACK
    case Nack(_, _, _) => DIAG_NACK
    case Diagnostic(_, _, _) => DIAGNOSTIC
  }

  function Payload(r: Reply): (p: seq<Byte>)
    requires Fits(r)
    ensures 1 <= |p| < 0x1_0000_0000
  {
    match r
    case Identity(vin, address, eid, gid, action, sync) => vin + BE16(address) + eid + gid + [action] + sync
    case RoutingActive(equip, entity, code, reserved, oem) =>
      BE16(equip) + BE16(entity) + [code] + LE32(reserved) + oem
    case EntityStatus(nodeType, mcts, ncts, mds) => [nodeType, mcts, ncts] + BE32(mds)
    case PowerMode(mode) => [mode]
    case Ack(entity, equip, code) => BE16(entity) + BE16(equip) + [code]
    case Nack(entity, equip, code) => BE16(entity) + BE16(equip) + [code]
    case Diagnostic(entity, equip, data) => BE16(entity) + BE16(equip) + data
  }

  function Pack(r: Reply): seq<Byte>
    requires Fits(r)
  {
    [Kind(r)] + LE32(|Payload(r)|) + Payload(r)
  }

  /** The codes by which server and client know a reply, in its first byte; its length follows. */
  lemma ReplyCodes(r: Reply)
    requires Fits(r)
    ensures Pack(r)[0] ==
      match r
      case Identity(_, _, _, _, _, _) => 0xF2
      case RoutingActive(_, _, _, _, _) => 0xF6
      case EntityStatus(_, _, _, _) => 0xF8
      case PowerMode(_) => 0xF9
      case Ack(_, _, _) => 0xFA
      case Nack(_, _, _) => 0xFB
      case Diagnostic(_, _, _) => 0xFC
    ensures |Pack(r)| == 5 + FromLE32(Pack(r)[1..5])
  {
    assert Pack(r)[1..5] == LE32(|Payload(r)|);
    LE32RoundTrip(|Payload(r)|);
  }

  // ---------- the client ----------

  datatype Callback =
    | VehicleIdentity(vin: seq<Byte>, address: int, eid: seq<Byte>, gid: seq<Byte>, action: Byte, sync: Byte)
    | RoutingActivated(equip: int, entity: int, code: Byte, reserved: int, oem: int)
    | StatusInfo(nodeType: Byte, mcts: Byte, ncts: Byte, mds: int)
    | PowerInfo(mode: Byte)
    | DiagPack(entity: int, code: Byte)
    | DiagData(entity: int, data: seq<Byte>)

  /** The bytes the parser looks at lie within the payload. */
  predicate Complete(kind: Byte, b: seq<Byte>) {
    && (kind == IDENTITY ==> |b| >= 32)
    && (kind == ROUTING_ACTIVE ==> |b| >= 9)
    && (kind == ENTITY_STATUS ==> |b| >= 7)
    && (kind == POWER_MODE ==> |b| >= 1)
    && (kind == DIAG_ACK || kind == DIAG_NACK ==> |b| >= 5)
    && (kind == DIAGNOSTIC ==> |b| >= 4)
  }

  /** What one payload makes the client self call back. */
  function Deliver(self: int, kind: Byte, b: seq<Byte>): seq<Callback>
    requires Complete(kind, b)
  {
    if kind == IDENTITY then
      [VehicleIdentity(b[..17], FromBE16(b[17..19]), b[19..25], b[25..31], b[31],
                       if |b| == 33 then b[32] else 0)]
    else if kind == ROUTING_ACTIVE then
      if FromBE16(b[0..2]) != self then []
      else [RoutingActivated(self, FromBE16(b[2..4]), b[4], FromLE32(b[5..9]), if |b| - 9 == 4 then FromLE32(b[9..13]) else 0)]
    else if kind == ENTITY_STATUS then [StatusInfo(b[0], b[1], b[2], FromBE32(b[3..7]))]
    else if kind == POWER_MODE then [PowerInfo(b[0])]
    else if kind == DIAG_ACK || kind == DIAG_NACK then
      if FromBE16(b[2..4]) != self then [] else [DiagPack(FromBE16(b[0..2]), b[4])]
    else if kind == DIAGNOSTIC then
      if FromBE16(b[2..4]) != self then [] else [DiagData(FromBE16(b[0..2]), b[4..])]
    else []
  }

  /** What the application is to hear of a reply: zero for an absent field, and nothing if
      it is for another tester. Refusals of diagnostic messages arrive through the same callback as
      acknowledgements. */
  function Heard(self: int, r: Reply): seq<Callback> {
    match r
    case Identity(vin, address, eid, gid, action, sync) =>
      [VehicleIdentity(vin, address, eid, gid, action, if |sync| == 1 then sync[0] else 0)]
    case RoutingActive(equip, entity, code, reserved, oem) =>
      if equip == self then [RoutingActivated(equip, entity, code, reserved, if |oem| == 4 then FromLE32(oem) else 0)]
      else []
    case EntityStatus(nodeType, mcts, ncts, mds) => [StatusInfo(nodeType, mcts, ncts, mds)]
    case PowerMode(mode) => [PowerInfo(mode)]
    case Ack(entity, equip, code) => if equip == self then [DiagPack(entity, code)] else []
    case Nack(entity, equip, code) => if equip == self then [DiagPack(entity, code)] else []
    case Diagnostic(entity, equip, data) => if equip == self then [DiagData(entity, data)] else []
  }

  /** Unpacking a payload gives back every field that was packed into it. */
  lemma ReplyRoundTrip(self: int, r: Reply)
    requires Fits(r)
    ensures Complete(Kind(r), Payload(r)) && Deliver(self, Kind(r), Payload(r)) == Heard(self, r)
  {
    match r
    case Identity(_, _, _, _, _, _) => IdentityRoundTrip(self, r);
    case RoutingActive(_, _, _, _, _) => RoutingRoundTrip(self, r);
    case EntityStatus(nodeType, mcts, ncts, mds) =>
      BE32RoundTrip(mds);
      assert Payload(r)[3..7] == BE32(mds);
    case PowerMode(_) =>
    case Ack(entity, equip, code) => AddressesRoundTrip(entity, equip, [code]);
    case Nack(entity, equip, code) => AddressesRoundTrip(entity, equip, [code]);
    case Diagnostic(entity, equip, data) => AddressesRoundTrip(entity, equip, data);
  }

  lemma AddressesRoundTrip(a: int, b: int, rest: seq<Byte>)
    requires Word(a) && Word(b)
    ensures var p := BE16(a) + BE16(b) + rest;
      FromBE16(p[0..2]) == a && FromBE16(p[2..4]) == b && p[4..] == rest
  {
    var p := BE16(a) + BE16(b) + rest;
    BE16RoundTrip(a);
    BE16RoundTrip(b);
    assert p[0..2] == BE16(a) && p[2..4] == BE16(b);
  }

  lemma RoutingRoundTrip(self: int, r: Reply)
    requires r.RoutingActive? && Fits(r)
    ensures Complete(Kind(r), Payload(r)) && Deliver(self, Kind(r), Payload(r)) == Heard(self, r)
  {
    var p := Payload(r);
    AddressesRoundTrip(r.equip, r.entity, [r.code] + LE32(r.reserved) + r.oem);
    assert p == BE16(r.equip) + BE16(r.entity) + ([r.code] + LE32(r.reserved) + r.oem);
    LE32RoundTrip(r.reserved);
    assert p[5..9] == LE32(r.reserved);
    assert |r.oem| == 4 ==> p[9..13] == r.oem;
  }

  lemma IdentityRoundTrip(self: int, r: Reply)
    requires r.Identity? && Fits(r)
    ensures Complete(Kind(r), Payload(r)) && Deliver(self, Kind(r), Payload(r)) == Heard(self, r)
  {
    var p := Payload(r);
    BE16RoundTrip(r.address);
    assert p[..17] == r.vin && p[17..19] == BE16(r.address);
    assert p[19..25] == r.eid && p[25..31] == r.gid;
    assert |r.sync| == 1 ==> p[32] == r.sync[0];
  }

  // ---------- a read full of replies ----------

  function ReplyLength(data: seq<Byte>, pos: nat): (n: nat)
    requires pos + REPLY_HEADER <= |data|
  {
    FromLE32(data[pos + 1..pos + 5])
  }

  predicate Stuck(data: seq<Byte>, pos: nat)
    requires pos + REPLY_HEADER <= |data|
  {
    pos + REPLY_HEADER + ReplyLength(data, pos) > |data|
  }

  function Body(data: seq<Byte>, pos: nat): seq<Byte>
    requires pos + REPLY_HEADER <= |data| && !Stuck(data, pos)
  {
    data[pos + REPLY_HEADER..pos + REPLY_HEADER + ReplyLength(data, pos)]
  }

  /** Headers, and the bytes that the parser looks at, lie within the read. */
  ghost predicate Parsable(data: seq<Byte>, pos: nat)
    decreases |data| - pos
  {
    pos < |data| ==>
      && pos + REPLY_HEADER <= |data|
      && (!Stuck(data, pos) ==>
            && Complete(data[pos], Body(data, pos))
            && Parsable(data, pos + REPLY_HEADER + ReplyLength(data, pos)))
  }

  /** The parse loop: a reply that reaches beyond the read stops it. */
  function Unpack(self: int, data: seq<Byte>, pos: nat): seq<Callback>
    requires Parsable(data, pos)
    decreases |data| - pos
  {
    if pos >= |data| || Stuck(data, pos) then []
    else
      Deliver(self, data[pos], Body(data, pos)) + Unpack(self, data, pos + REPLY_HEADER + ReplyLength(data, pos))
  }

  ghost predicate AllFit(rs: seq<Reply>) {
    forall i :: 0 <= i < |rs| ==> Fits(rs[i])
  }

  function PackAll(rs: seq<Reply>): seq<Byte>
    requires AllFit(rs)
  {
    if rs == [] then [] else Pack(rs[0]) + PackAll(rs[1..])
  }

  function HeardAll(self: int, rs: seq<Reply>): seq<Callback> {
    if rs == [] then [] else Heard(self, rs[0]) + HeardAll(self, rs[1..])
  }

  lemma OneParsed(r: Reply, data: seq<Byte>, pos: nat, rest: seq<Byte>)
    requires Fits(r) && pos <= |data| && data[pos..] == Pack(r) + rest
    ensures pos + REPLY_HEADER <= |data| && !Stuck(data, pos) && ReplyLength(data, pos) == |Payload(r)|
    ensures data[pos] == Kind(r) && Body(data, pos) == Payload(r)
    ensures data[pos + REPLY_HEADER + ReplyLength(data, pos)..] == rest
  {
    hide Payload, Fits, LE32, Kind;
    var s, n := Pack(r), |Payload(r)|;
    HeaderParsed(r, data, pos, rest);
    assert forall i :: 0 <= i < n ==> data[pos + 5 + i] == data[pos..][5 + i] == s[5 + i] == Payload(r)[i];
    assert forall i :: 0 <= i < |rest| ==> data[pos + |s| + i] == data[pos..][|s| + i] == rest[i];
  }

  lemma HeaderParsed(r: Reply, data: seq<Byte>, pos: nat, rest: seq<Byte>)
    requires Fits(r) && pos <= |data| && data[pos..] == Pack(r) + rest
    ensures pos + REPLY_HEADER <= |data| && ReplyLength(data, pos) == |Payload(r)| && data[pos] == Kind(r)
  {
    hide Payload, Fits, LE32, Kind;
    var s := Pack(r);
    assert |s| == REPLY_HEADER + |Payload(r)|;
    assert |data[pos..]| == |data| - pos;
    assert forall i :: 0 <= i < REPLY_HEADER ==> data[pos + i] == data[pos..][i] == s[i];
    assert data[pos + 1..pos + 5] == s[1..5] == LE32(|Payload(r)|);
    LE32RoundTrip(|Payload(r)|);
  }

  lemma Shorter(t: seq<Byte>, s: seq<Byte>)
    requires t <= s && t != s
    ensures |t| < |s|
  {
    assert t == s[..|t|] && s == s[..|s|];
  }

  lemma CutParsed(r: Reply, data: seq<Byte>, pos: nat)
    requires Fits(r) && pos + REPLY_HEADER <= |data| && data[pos..] <= Pack(r) && data[pos..] != Pack(r)
    ensures Stuck(data, pos)
  {
    hide Payload, Fits, LE32, Kind;
    var s := Pack(r);
    assert |s| == REPLY_HEADER + |Payload(r)|;
    assert forall i :: 0 <= i < REPLY_HEADER ==> data[pos + i] == data[pos..][i] == s[i];
    assert data[pos + 1..pos + 5] == s[1..5] == LE32(|Payload(r)|);
    LE32RoundTrip(|Payload(r)|);
    Shorter(data[pos..], s);
  }

  lemma {:induction false} UnpackFrom(self: int, rs: seq<Reply>, next: Reply, tail: seq<Byte>, data: seq<Byte>, pos: nat)
    requires AllFit(rs) && Fits(next) && pos <= |data| && data[pos..] == PackAll(rs) + tail
    requires tail == [] || (|tail| >= REPLY_HEADER && tail <= Pack(next) && tail != Pack(next))
    ensures Parsable(data, pos) && Unpack(self, data, pos) == HeardAll(self, rs)
    decreases |rs|
  {
    hide Deliver, Heard, Pack, Fits, Complete, Payload, Body, Kind;
    if rs == [] {
      assert data[pos..] == tail;
      if tail != [] {
        assert |data[pos..]| == |data| - pos;
        CutParsed(next, data, pos);
      }
    } else {
      var rest := PackAll(rs[1..]) + tail;
      assert data[pos..] == Pack(rs[0]) + rest;
      OneParsed(rs[0], data, pos, rest);
      ReplyRoundTrip(self, rs[0]);
      UnpackFrom(self, rs[1..], next, tail, data, pos + REPLY_HEADER + ReplyLength(data, pos));
    }
  }

  /** A read of whole replies, and perhaps the start of another one, makes the application hear
      exactly the whole replies, in order; the one that is cut off is not heard. */
  lemma ReadIsHeard(self: int, rs: seq<Reply>, next: Reply, tail: seq<Byte>)
    requires AllFit(rs) && Fits(next)
    requires tail == [] || (|tail| >= REPLY_HEADER && tail <= Pack(next) && tail != Pack(next))
    ensures Parsable(PackAll(rs) + tail, 0)
    ensures Unpack(self, PackAll(rs) + tail, 0) == HeardAll(self, rs)
  {
    var data := PackAll(rs) + tail;
    assert data[0..] == data;
    UnpackFrom(self, rs, next, tail, data, 0);
  }
}

module IpcReplyCode {
  import opened Wire
  import opened IpcReplies
  import Code = DiagServerCode

  const OUT_SIZE := 1500

  /** The server's packers fill the output buffer at an advancing position. */
  method PackBehindHeader(out: array<Byte>, kind: Byte, payload: seq<Byte>) returns (size: nat)
    requires out.Length == OUT_SIZE && REPLY_HEADER + |payload| <= OUT_SIZE
    modifies out
    ensures size == REPLY_HEADER + |payload| && out[..size] == [kind] + LE32(|payload|) + payload
  {
    var pos := 0;
    out[pos] := kind;
    pos := pos + 1;
    Code.MemCopy(out, pos, LE32(|payload|));
    pos := pos + 4;
    assert out[..pos] == [kind] + LE32(|payload|);
    Code.MemCopy(out, pos, payload);
    size := pos + |payload|;
    assert out[..size] == out[..pos] + out[pos..size];
  }

  const LAST_RESPONSE_CODE := 0x11

  /** A response code beyond the last one is refused, and nothing is written. */
  method PackRoutingActivationRes(out: array<Byte>, equip: int, entity: int, code: Byte, reserved: int) returns (size: nat)
    requires out.Length == OUT_SIZE && Fits(RoutingActive(equip, entity, code, reserved, []))
    modifies out
    ensures size <= OUT_SIZE
    ensures code > LAST_RESPONSE_CODE ==> size == 0 && out[..] == old(out[..])
    ensures code <= LAST_RESPONSE_CODE ==> out[..size] == Pack(RoutingActive(equip, entity, code, reserved, []))
  {
    if code > LAST_RESPONSE_CODE {
      return 0;
    }
    var data := new Byte[9](_ => 0);
    var pos := 0;
    Code.MemCopy(data, pos, BE16(equip));
    pos := pos + 2;
    Code.MemCopy(data, pos, BE16(entity));
    pos := pos + 2;
    assert data[..4] == data[..2] + data[2..4] == BE16(equip) + BE16(entity);
    data[pos] := code;
    pos := pos + 1;
    assert data[..5] == data[..4] + [code];
    Code.MemCopy(data, pos, LE32(reserved));
    assert data[..] == data[..5] + data[5..9];
    size := PackBehindHeader(out, ROUTING_ACTIVE, data[..]);
  }

  method PackEntityStatusRes(out: array<Byte>, nodeType: Byte, mcts: Byte, ncts: Byte, mds: int) returns (size: nat)
    requires out.Length == OUT_SIZE && Fits(EntityStatus(nodeType, mcts, ncts, mds))
    modifies out
    ensures size <= OUT_SIZE && out[..size] == Pack(EntityStatus(nodeType, mcts, ncts, mds))
  {
    var data := new Byte[7](_ => 0);
    var pos := 0;
    data[pos] := nodeType;
    pos := pos + 1;
    data[pos] := mcts;
    pos := pos + 1;
    data[pos] := ncts;
    pos := pos + 1;
    assert data[..3] == [nodeType, mcts, ncts];
    Code.MemCopy(data, pos, BE32(mds));
    assert data[..] == data[..3] + data[3..7];
    size := PackBehindHeader(out, ENTITY_STATUS, data[..]);
  }

  /** The refusal codes of diagnostic messages. */
  predicate NackCode(code: Byte) { 0x02 <= code <= 0x08 }

  /** An acknowledgement or a refusal of a diagnostic message; a refusal with another code is not
      written. */
  method PackDiagnosticAck(out: array<Byte>, kind: Byte, entity: int, equip: int, code: Byte) returns (size: nat)
    requires out.Length == OUT_SIZE && Fits(Ack(entity, equip, code)) && (kind == DIAG_ACK || kind == DIAG_NACK)
    modifies out
    ensures size <= OUT_SIZE
    ensures kind == DIAG_NACK && !NackCode(code) ==> size == 0 && out[..] == old(out[..])
    ensures kind == DIAG_ACK || NackCode(code) ==>
      out[..size] == Pack(if kind == DIAG_ACK then Ack(entity, equip, code) else Nack(entity, equip, code))
  {
    if kind == DIAG_NACK && !NackCode(code) {
      return 0;
    }
    var pos := 0;
    out[pos] := kind;
    pos := pos + 1;
    Code.MemCopy(out, pos, LE32(5));
    pos := pos + 4;
    assert out[..5] == [kind] + LE32(5);
    Code.MemCopy(out, pos, BE16(entity));
    pos := pos + 2;
    assert out[..7] == out[..5] + out[5..7];
    Code.MemCopy(out, pos, BE16(equip));
    pos := pos + 2;
    assert out[..9] == out[..7] + out[7..9];
    out[pos] := code;
    size := 10;
    assert out[..10] == out[..9] + [code];
    assert out[..10] == [kind] + LE32(5) + (BE16(entity) + BE16(equip) + [code]);
  }

  class TestEquip {
    const self: int
    var heard: seq<Callback>

    constructor (address: int)
      ensures self == address && heard == []
    {
      self, heard := address, [];
    }

    method EquipUnpackExec(data: seq<Byte>, at: nat) returns (next: nat)
      requires at < |data| && Parsable(data, at)
      modifies this`heard
      ensures Stuck(data, at) ==> next == 0 && heard == old(heard)
      ensures !Stuck(data, at) ==>
        && next == at + REPLY_HEADER + ReplyLength(data, at)
        && heard == old(heard) + Deliver(self, data[at], Body(data, at))
    {
      var kind, pos := data[at], at + 1;
      var length := FromLE32(data[pos..pos + 4]);
      pos := pos + 4;
      if pos + length > |data| {
        return 0;
      }
      var buffer := data[pos..pos + length];
      heard := heard + Deliver(self, kind, buffer);
      next := pos + length;
    }

    method EquipUnpack(data: seq<Byte>)
      requires |data| > 0 && Parsable(data, 0)
      modifies this`heard
      ensures heard == old(heard) + Unpack(self, data, 0)
    {
      hide Deliver, Complete;
      var pos := 0;
      while pos < |data|
        invariant Parsable(data, pos)
        invariant heard + Unpack(self, data, pos) == old(heard) + Unpack(self, data, 0)
        decreases |data| - pos
      {
        var next := EquipUnpackExec(data, pos);
        if next == 0 {
          break;
        }
        pos := next;
      }
    }
  }
}
