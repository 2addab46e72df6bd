/** Reassembly in a node: the IPC stream from the server becomes indications to the application
    (libdoipstack/ne_doip_node_manager.c). */
module DiagNode {
  import opened Wire

  const INDICATION := 0x04
  const USER_CONF := 0x06
  const CONFIRM := 0x03
  const FUNCTIONAL := 0x01
  const IPC_HEADER := 6
  const NOTICE_HEADER := 5

  /** The node's own address and the diagnostic message under way. */
  datatype Node = Node(total: int, current: int, self: int, tester: int, taType: int)

  datatype Event =
    | Indication(source: int, target: int, taType: int, data: seq<Byte>, total: int, position: int)
    | UserConf(equip: int, entity: int)
    | Confirm(equip: int, entity: int)

  predicate NodeOk(n: Node) { 0 <= n.current <= n.total }

  predicate Busy(n: Node) { n.total != n.current }

  datatype Exec = Exec(node: Node, out: seq<Event>, pos: nat)

  /** A piece of the message under way. */
  function MorePiece(n: Node, data: seq<Byte>): Exec
    requires NodeOk(n) && Busy(n)
  {
    var rest := n.total - n.current;
    if rest > |data| then
      Exec(n.(current := n.current + |data|),
           [Indication(n.tester, n.self, n.taType, data, n.total, n.current + |data|)], |data|)
    else
      Exec(n.(total := 0, current := 0),
           [Indication(n.tester, n.self, n.taType, data[..rest], n.total, n.total)], rest)
  }

  predicate HasBytes(data: seq<Byte>, pos: nat, count: nat) { pos + count <= |data| }

  function FrameLength(data: seq<Byte>, pos: nat): (x: nat)
    requires HasBytes(data, pos, NOTICE_HEADER)
  {
    FromLE32(data[pos + 1..pos + 5])
  }

  /** How much of a frame at pos counts as present; the code subtracts the header from the size of
      the whole read, wherever the frame starts. */
  function Present(data: seq<Byte>, pos: nat): nat
    requires HasBytes(data, pos, IPC_HEADER)
  {
    if FrameLength(data, pos) > |data| - IPC_HEADER then |data| - IPC_HEADER else FrameLength(data, pos)
  }

  /** The first piece of a message. A piece that reaches beyond the read stops the parser. */
  function FirstPiece(n: Node, data: seq<Byte>, pos: nat): Exec
    requires HasBytes(data, pos, IPC_HEADER)
    requires HasBytes(data, pos + IPC_HEADER, Present(data, pos)) ==> Present(data, pos) >= 4
  {
    var total, taType, len := FrameLength(data, pos), data[pos + 5], Present(data, pos);
    var n1 := n.(total := total, taType := taType, current := n.current + len);
    if !HasBytes(data, pos + IPC_HEADER, len) then Exec(n1, [], 0)
    else
      var end := pos + IPC_HEADER + len;
      var buffer := data[pos + IPC_HEADER..end];
      var equip, entity := FromBE16(buffer[0..2]), FromBE16(buffer[2..4]);
      var n2 := n1.(tester := equip);
      if entity != n.self && taType != FUNCTIONAL then Exec(n2, [], end)
      else
        Exec(if n2.current == total then n2.(total := 0, current := 0) else n2,
             [Indication(equip, n.self, taType, buffer, total, n2.current)], end)
  }

  /** A confirmation request or a send confirmation: two addresses. */
  function Notice(n: Node, data: seq<Byte>, pos: nat, kind: int): Exec
    requires HasBytes(data, pos, NOTICE_HEADER)
    requires HasBytes(data, pos + NOTICE_HEADER, FrameLength(data, pos)) ==> FrameLength(data, pos) >= 4
  {
    var p := pos + NOTICE_HEADER;
    if !HasBytes(data, p, FrameLength(data, pos)) then Exec(n, [], 0)
    else
      var equip, entity := FromBE16(data[p..p + 2]), FromBE16(data[p + 2..p + 4]);
      Exec(n, if entity != n.self then []
              else if kind == USER_CONF then [UserConf(equip, entity)] else [Confirm(equip, entity)],
           p + FrameLength(data, pos))
  }

  /** The headers and addresses that the parser looks at lie within the read. */
  predicate Parsable(n: Node, data: seq<Byte>, pos: nat)
    requires pos < |data|
  {
    if Busy(n) then pos == 0
    else if data[pos] == INDICATION then
      && HasBytes(data, pos, IPC_HEADER)
      && (HasBytes(data, pos + IPC_HEADER, Present(data, pos)) ==> Present(data, pos) >= 4)
    else if data[pos] == USER_CONF || data[pos] == CONFIRM then
      && HasBytes(data, pos, NOTICE_HEADER)
      && (HasBytes(data, pos + NOTICE_HEADER, FrameLength(data, pos)) ==> FrameLength(data, pos) >= 4)
    else true
  }

  function NodeExec(n: Node, data: seq<Byte>, pos: nat): Exec
    requires pos < |data| && NodeOk(n) && Parsable(n, data, pos)
  {
    if Busy(n) then MorePiece(n, data)
    else if data[pos] == INDICATION then FirstPiece(n, data, pos)
    else if data[pos] == USER_CONF || data[pos] == CONFIRM then Notice(n, data, pos, data[pos])
    else Exec(n, [], 0)
  }

  ghost predicate Framed(n: Node, data: seq<Byte>, pos: nat)
    decreases |data| - pos
  {
    pos < |data| ==>
      && NodeOk(n) && Parsable(n, data, pos)
      && var x := NodeExec(n, data, pos);
         x.pos <= pos || Framed(x.node, data, x.pos)
  }

  datatype Done = Done(node: Node, out: seq<Event>)

  function NodeUnpack(n: Node, data: seq<Byte>, pos: nat): Done
    requires Framed(n, data, pos)
    decreases |data| - pos
  {
    if pos >= |data| then Done(n, [])
    else
      var x := NodeExec(n, data, pos);
      if x.pos <= pos then Done(x.node, x.out)
      else
        var d := NodeUnpack(x.node, data, x.pos);
        Done(d.node, x.out + d.out)
  }
}
