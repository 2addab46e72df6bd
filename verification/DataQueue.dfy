/** The gateway's linked queue of data waiting for a routing activation
    (libdoipstack/ne_doip_data_queue.c). */
module DataQueue {
  import opened Wrappers

  type bytes = seq<bv8>

  datatype RoutingData = RoutingData(fd: int, data: bytes)

  /** What a removal at the head does: drop entries of fd as long as they come first. */
  function DropLeading(c: seq<RoutingData>, fd: int): seq<RoutingData> {
    if c != [] && c[0].fd == fd then DropLeading(c[1..], fd) else c
  }

  function TotalSize(c: seq<RoutingData>): nat {
    if c == [] then 0 else |c[0].data| + TotalSize(c[1..])
  }

  /** Clearing leaves no entry of fd behind exactly when the entries of fd all come first. */
  lemma {:induction false} DropLeadingClears(c: seq<RoutingData>, fd: int)
    ensures (forall e :: e in DropLeading(c, fd) ==> e.fd != fd)
       <==> (forall i, j :: 0 <= i < j < |c| && c[j].fd == fd ==> c[i].fd == fd)
  {
    if c != [] && c[0].fd == fd {
      DropLeadingClears(c[1..], fd);
      var t := c[1..];
      if forall i, j :: 0 <= i < j < |c| && c[j].fd == fd ==> c[i].fd == fd {
        forall i, j | 0 <= i < j < |t| && t[j].fd == fd ensures t[i].fd == fd {
          assert c[j + 1].fd == fd && c[i + 1] == t[i];
        }
      }
      if forall i, j :: 0 <= i < j < |t| && t[j].fd == fd ==> t[i].fd == fd {
        forall i, j | 0 <= i < j < |c| && c[j].fd == fd ensures c[i].fd == fd {
          if i > 0 {
            assert t[j - 1].fd == fd && t[i - 1] == c[i];
          }
        }
      }
    } else if c != [] {
      assert c[0] in c;
    }
  }

  /** Clearing empties a queue whose entries all carry the cleared fd. */
  lemma {:induction false} DropLeadingAll(c: seq<RoutingData>, fd: int)
    requires forall e :: e in c ==> e.fd == fd
    ensures DropLeading(c, fd) == []
  {
    if c != [] {
      DropLeadingAll(c[1..], fd);
    }
  }

  class Node {
    var routingData: RoutingData
    var next: Node?

    constructor (data: RoutingData)
      ensures routingData == data && next == null
    {
      routingData := data;
      next := null;
    }
  }

  class QueueManager {
    var head: Node?
    var tail: Node?
    ghost var nodes: seq<Node>
    ghost var contents: seq<RoutingData>
    ghost var freed: set<Node>  // nodes given back to the allocator

    /** The nodes are linked in order; the tail means nothing once the queue is empty. */
    ghost predicate Linked()
      reads this, nodes
    {
      && |contents| == |nodes|
      && (forall i, j :: 0 <= i < j < |nodes| ==> nodes[i] != nodes[j])
      && (forall i :: 0 <= i < |nodes| ==> nodes[i].routingData == contents[i])
      && (forall i {:trigger nodes[i].next} :: 0 <= i < |nodes| - 1 ==> nodes[i].next == nodes[i + 1])
      && (nodes != [] ==> nodes[|nodes| - 1].next == null)
      && head == (if nodes == [] then null else nodes[0])
      && (nodes != [] ==> tail == nodes[|nodes| - 1])
    }

    /** No linked node has been freed. */
    ghost predicate Valid()
      reads this, nodes
    {
      Linked() && forall n :: n in nodes ==> n !in freed
    }

    constructor ()
      ensures Valid() && contents == [] && fresh(nodes)
    {
      head, tail := null, null;
      nodes, contents, freed := [], [], {};
    }

    predicate Empty()
      reads this
    {
      head == null
    }

    static method Insert(mgr: QueueManager?, data: RoutingData) returns (ret: int)
      requires mgr != null ==> mgr.Valid()
      modifies mgr, if mgr != null then mgr.nodes else []
      ensures ret == if mgr == null then -1 else 0
      ensures mgr != null ==>
        && mgr.Valid()
        && mgr.contents == old(mgr.contents) + [data]
        && (forall n :: n in mgr.nodes ==> n in old(mgr.nodes) || fresh(n))
    {
      if mgr == null {
        return -1;
      }
      var node := new Node(data);
      if mgr.head == null {
        mgr.head, mgr.tail := node, node;
      } else {
        mgr.tail.next := node;
        mgr.tail := node;
      }
      mgr.nodes := mgr.nodes + [node];
      mgr.contents := mgr.contents + [data];
      return 0;
    }

    static method Front(mgr: QueueManager?) returns (buff: Option<RoutingData>)
      requires mgr != null ==> mgr.Valid()
      modifies mgr
      ensures buff == if mgr == null || old(mgr.contents) == [] then None else Some(old(mgr.contents)[0])
      ensures mgr != null ==>
        && mgr.Valid()
        && mgr.contents == (if old(mgr.contents) == [] then [] else old(mgr.contents)[1..])
        && (forall n :: n in mgr.nodes ==> n in old(mgr.nodes))
    {
      if mgr == null || mgr.head == null {
        return None;
      }
      buff := Some(mgr.head.routingData);
      mgr.RemoveHead();
    }

    /** Unlinks and frees the first node. */
    method RemoveHead()
      requires Linked() && nodes != []
      modifies this
      ensures Linked() && tail == old(tail) && freed == old(freed) + {old(nodes)[0]}
      ensures nodes == old(nodes)[1..] && contents == old(contents)[1..]
    {
      var node := head;
      assert node == nodes[0] && (|nodes| > 1 ==> nodes[0].next == nodes[1]);
      head := node.next;
      freed := freed + {node};
      nodes, contents := nodes[1..], contents[1..];
    }

    static method Size(mgr: QueueManager?) returns (size: int)
      requires mgr != null ==> mgr.Valid()
      ensures size == if mgr == null then -1 else TotalSize(mgr.contents)
    {
      if mgr == null {
        return -1;
      }
      size := 0;
      var num := mgr.head;
      ghost var i := 0;
      while num != null
        invariant 0 <= i <= |mgr.nodes|
        invariant num == if i < |mgr.nodes| then mgr.nodes[i] else null
        invariant size + TotalSize(mgr.contents[i..]) == TotalSize(mgr.contents)
        decreases |mgr.nodes| - i
      {
        assert mgr.contents[i..][1..] == mgr.contents[i + 1..];
        size := size + |num.routingData.data|;
        num := num.next;
        i := i + 1;
      }
    }

    /** Removes the entries of one fd. Only entries at the head are unlinked: a later entry of
        that fd is freed but stays linked. */
    static method Clear(mgr: QueueManager?, flagFd: int) returns (ret: int)
      requires mgr != null ==> mgr.Valid()
      modifies mgr
      ensures ret == if mgr == null || flagFd <= 0 then -1 else 0
      ensures mgr != null && ret == -1 ==> mgr.Valid() && mgr.contents == old(mgr.contents)
      ensures ret == 0 ==>
        && mgr.Linked()
        && mgr.contents == DropLeading(old(mgr.contents), flagFd)
        && (forall n :: n in mgr.nodes ==> n in old(mgr.nodes) && (n in mgr.freed <==> n.routingData.fd == flagFd))
    {
      if mgr == null || flagFd <= 0 {
        return -1;
      }
      var select := mgr.head;
      ghost var i := 0;
      while select != null
        invariant 0 <= i <= |mgr.nodes| && mgr.Linked()
        invariant select == if i < |mgr.nodes| then mgr.nodes[i] else null
        invariant forall n :: n in mgr.nodes ==> n in old(mgr.nodes)
        invariant forall j :: 0 <= j < |mgr.nodes| ==>
          (mgr.nodes[j] in mgr.freed <==> j < i && mgr.contents[j].fd == flagFd)
        invariant i == 0 ==> DropLeading(mgr.contents, flagFd) == DropLeading(old(mgr.contents), flagFd)
        invariant i > 0 ==> mgr.contents[0].fd != flagFd && mgr.contents == DropLeading(old(mgr.contents), flagFd)
        decreases |mgr.nodes| - i
      {
        assert select == mgr.nodes[i] && select in mgr.nodes;
        assert i + 1 < |mgr.nodes| ==> mgr.nodes[i].next == mgr.nodes[i + 1];
        if select.routingData.fd == flagFd {
          if select == mgr.head {
            assert i == 0;
            mgr.RemoveHead();
            select := mgr.head;
          } else {
            var tmp := select;
            select := select.next;
            mgr.freed := mgr.freed + {tmp};
            i := i + 1;
          }
        } else {
          select := select.next;
          i := i + 1;
        }
      }
      return 0;
    }
  }
}
