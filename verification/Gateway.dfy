/** The edge gateway's link to one target: chunks are stored until the target answers the
    routing activation, and sent directly afterwards (ne_doip_sub_diagnostic_to_other,
    ne_doip_egw_phys_routing, ne_doip_unpack_routing_activation_res). */
module Gateway {
  import opened DataQueue

  datatype Step = Step1 | Step2

  /** `fd` is 0 while the target is not connected; `arrived` is the history of the chunks
      accepted for the connection, `wire` what was written to it. */
  datatype Link = Link(fd: int, step: Step, queue: seq<RoutingData>, wire: seq<bytes>, arrived: seq<bytes>)

  datatype Event =
    | Request(chunk: bytes, newFd: int)  // first chunk of a message; newFd is what connecting yields
    | More(chunk: bytes)                 // a further chunk
    | Answer(activated: bool)            // the target's routing activation response

  function Datas(q: seq<RoutingData>): seq<bytes> {
    if q == [] then [] else [q[0].data] + Datas(q[1..])
  }

  function Apply(l: Link, e: Event): Link {
    match e
    case Request(c, newFd) =>
      if l.fd > 0 then l.(step := Step2, wire := l.wire + [c], arrived := l.arrived + [c])
      else if newFd <= 0 then l
      else Link(newFd, Step1, [RoutingData(newFd, c)], [], [c])
    case More(c) =>
      if l.fd <= 0 then l
      else if l.step == Step2 then l.(wire := l.wire + [c], arrived := l.arrived + [c])
      else l.(queue := l.queue + [RoutingData(l.fd, c)], arrived := l.arrived + [c])
    case Answer(activated) =>
      if l.fd <= 0 then l
      else if activated then l.(step := Step2, wire := l.wire + Datas(l.queue), queue := [])
      else l.(queue := DropLeading(l.queue, l.fd))
  }

  function Run(l: Link, es: seq<Event>): Link
    decreases es
  {
    if es == [] then l else Run(Apply(l, es[0]), es[1..])
  }

  const UNCONNECTED := Link(0, Step1, [], [], [])

  ghost predicate InOrder(l: Link) {
    l.wire + Datas(l.queue) == l.arrived
  }

  ghost predicate Sound(l: Link) {
    && (forall x :: x in l.queue ==> x.fd == l.fd)
    && (l.fd <= 0 ==> l == UNCONNECTED.(fd := l.fd))
  }

  ghost predicate Ok(l: Link) {
    Sound(l) && (l.step == Step2 ==> l.queue == [])
  }

  /** A run in which no second request reaches a connected target that still has chunks stored,
      and no activation is refused. */
  ghost predicate Polite(l: Link, es: seq<Event>)
    decreases es
  {
    es != [] ==>
      && (es[0].Request? && l.fd > 0 ==> l.queue == [])
      && (es[0].Answer? ==> es[0].activated)
      && Polite(Apply(l, es[0]), es[1..])
  }

  lemma {:induction false} DatasConcat(a: seq<RoutingData>, b: seq<RoutingData>)
    ensures Datas(a + b) == Datas(a) + Datas(b)
  {
    if a == [] {
      assert a + b == b;
    } else {
      assert (a + b)[1..] == a[1..] + b;
      DatasConcat(a[1..], b);
    }
  }

  /** In every polite run nothing is lost, duplicated or reordered: what is on the wire followed
      by what is stored is exactly what arrived; and once direct sending began nothing is stored. */
  lemma {:induction false} StoreAndForward(l: Link, es: seq<Event>)
    requires Ok(l) && InOrder(l) && Polite(l, es)
    ensures var l' := Run(l, es); Ok(l') && InOrder(l') && (l'.step == Step2 ==> l'.wire == l'.arrived)
    decreases es
  {
    if es == [] {
    } else {
      var e := es[0];
      if e.More? && l.step == Step1 {
        DatasConcat(l.queue, [RoutingData(l.fd, e.chunk)]);
        assert Datas([RoutingData(l.fd, e.chunk)]) == [e.chunk];
      }
      if e.Request? {
        assert Datas([RoutingData(e.newFd, e.chunk)]) == [e.chunk];
      }
      StoreAndForward(Apply(l, e), es[1..]);
    }
  }

  /** The chunks that the events bring for the target: that of the request that connects, and those of
      all requests and further chunks after it. */
  function History(connected: bool, es: seq<Event>): seq<bytes>
    decreases es
  {
    if es == [] then []
    else
      match es[0]
      case Request(c, newFd) =>
        if connected || newFd > 0 then [c] + History(true, es[1..]) else History(false, es[1..])
      case More(c) => if connected then [c] + History(true, es[1..]) else History(false, es[1..])
      case Answer(_) => History(connected, es[1..])
  }

  lemma {:induction false} ArrivedIsHistory(l: Link, es: seq<Event>)
    requires Sound(l)
    ensures Run(l, es).arrived == l.arrived + History(l.fd > 0, es)
    decreases es
  {
    if es != [] {
      var l' := Apply(l, es[0]);
      DropLeadingAll(l.queue, l.fd);
      ArrivedIsHistory(l', es[1..]);
      if l'.arrived != l.arrived {
        var c := es[0].chunk;
        assert l'.arrived == l.arrived + [c];
        assert l.arrived + [c] + History(true, es[1..]) == l.arrived + ([c] + History(true, es[1..]));
      }
    }
  }

  /** The target answered after it was connected. */
  predicate Released(connected: bool, es: seq<Event>)
    decreases es
  {
    es != [] &&
    match es[0]
    case Request(_, newFd) => Released(connected || newFd > 0, es[1..])
    case More(_) => Released(connected, es[1..])
    case Answer(_) => connected || Released(false, es[1..])
  }

  /** Until the target answers everything is stored. */
  ghost predicate Held(l: Link) {
    l.step == Step1 ==> l.wire == [] && (l.fd > 0 ==> l.queue != [])
  }

  lemma {:induction false} SentOnceReleased(l: Link, es: seq<Event>)
    requires Ok(l) && Held(l) && Polite(l, es)
    ensures var l' := Run(l, es);
      Held(l') && (l'.step == Step2 <==> l.step == Step2 || Released(l.fd > 0, es))
    decreases es
  {
    if es != [] {
      SentOnceReleased(Apply(l, es[0]), es[1..]);
    }
  }

  /** From the start and over every polite run: what is on the wire followed by what is stored is the
      history of the events, and all of it is on the wire once the target has answered, nothing before. */
  lemma NothingIsLost(es: seq<Event>)
    requires Polite(UNCONNECTED, es)
    ensures var l, h := Run(UNCONNECTED, es), History(false, es);
      l.wire + Datas(l.queue) == h && l.wire == if Released(false, es) then h else []
  {
    StoreAndForward(UNCONNECTED, es);
    ArrivedIsHistory(UNCONNECTED, es);
    SentOnceReleased(UNCONNECTED, es);
    assert UNCONNECTED.arrived + History(false, es) == History(false, es);
  }

  lemma {:induction false} DatasAt(q: seq<RoutingData>)
    ensures |Datas(q)| == |q|
    ensures forall i :: 0 <= i < |q| ==> Datas(q)[i] == q[i].data
  {
    if q != [] {
      DatasAt(q[1..]);
    }
  }

  lemma DatasMembers(q: seq<RoutingData>, c: bytes)
    ensures (forall x :: x in q ==> x.data == c) <==> (forall d :: d in Datas(q) ==> d == c)
  {
    DatasAt(q);
    if forall d :: d in Datas(q) ==> d == c {
      forall x | x in q ensures x.data == c {
        var i :| 0 <= i < |q| && q[i] == x;
        assert Datas(q)[i] in Datas(q);
      }
    }
  }

  lemma {:induction false} RotateOne(q: seq<bytes>, c: bytes)
    ensures [c] + q == q + [c] <==> forall d :: d in q ==> d == c
  {
    if q != [] {
      RotateOne(q[1..], c);
      if [c] + q == q + [c] {
        assert ([c] + q)[0] == (q + [c])[0];
        assert q[0] == c;
        assert ([c] + q)[1..] == q == [c] + q[1..];
        assert (q + [c])[1..] == q[1..] + [c];
        assert forall d :: d in q ==> d == q[0] || d in q[1..];
      }
      if forall d :: d in q ==> d == c {
        assert forall d :: d in q[1..] ==> d in q;
        assert q[0] in q;
        assert q == [c] + q[1..];
        assert q + [c] == [c] + (q[1..] + [c]) == [c] + ([c] + q[1..]);
      }
    }
  }

  /** A second request that overtakes the activation is sent ahead of the stored chunks. It keeps
      the order exactly when every stored chunk is the same as the new one. */
  lemma EarlyRequestKeepsOrderIff(l: Link, c: bytes, newFd: int)
    requires l.fd > 0 && InOrder(l)
    ensures InOrder(Apply(l, Request(c, newFd))) <==> forall x :: x in l.queue ==> x.data == c
  {
    var d := Datas(l.queue);
    RotateOne(d, c);
    DatasMembers(l.queue, c);
    assert l.wire + [c] + d == l.wire + ([c] + d);
    assert l.arrived + [c] == l.wire + (d + [c]);
    if l.wire + ([c] + d) == l.wire + (d + [c]) {
      assert (l.wire + ([c] + d))[|l.wire|..] == [c] + d;
      assert (l.wire + (d + [c]))[|l.wire|..] == d + [c];
    }
  }

  /** A refused activation throws all stored chunks away and sends none of them. */
  lemma RefusalDropsStored(l: Link)
    requires Ok(l) && l.fd > 0
    ensures var l' := Apply(l, Answer(false)); l' == l.(queue := []) && Ok(l')
  {
    DropLeadingAll(l.queue, l.fd);
  }

  /** The code of the three operations, on the linked queue. */
  class Target {
    var fd: int
    var step: Step
    var queueManager: QueueManager?
    var wire: seq<bytes>
    ghost var arrived: seq<bytes>

    ghost function Repr(): set<object>
      reads this, queueManager
    {
      if queueManager == null then {this} else {this, queueManager} + set n | n in queueManager.nodes
    }

    ghost function Stored(): seq<RoutingData>
      reads this, queueManager
    {
      if queueManager == null then [] else queueManager.contents
    }

    ghost function View(): Link
      reads this, queueManager
    {
      Link(fd, step, Stored(), wire, arrived)
    }

    ghost predicate Valid()
      reads this, queueManager, if queueManager != null then queueManager.nodes else []
    {
      && (queueManager != null ==> queueManager.Valid())
      && (fd > 0 ==> queueManager != null)
      && Sound(View())
    }

    constructor ()
      ensures Valid() && View() == UNCONNECTED && fresh(Repr())
    {
      fd, step, queueManager, wire := 0, Step1, null, [];
      arrived := [];
    }

    /** The first chunk of a message for this target: sent, or stored behind a new connection. */
    method SubDiagnosticToOther(chunk: bytes, newFd: int)
      requires Valid()
      modifies this, queueManager, if queueManager != null then queueManager.nodes else []
      ensures Valid() && View() == Apply(old(View()), Request(chunk, newFd))
      ensures fresh(Repr() - old(Repr()))
    {
      if fd > 0 {
        SendDirectly(chunk);
      } else if newFd > 0 {
        StoreAndConnect(chunk, newFd);
      }
    }

    method SendDirectly(chunk: bytes)
      requires Valid() && fd > 0
      modifies this`step, this`wire, this`arrived
      ensures Valid()
      ensures View() == old(View()).(step := Step2, wire := old(wire) + [chunk], arrived := old(arrived) + [chunk])
    {
      step := Step2;
      wire := wire + [chunk];
      arrived := arrived + [chunk];
    }

    method StoreAndConnect(chunk: bytes, newFd: int)
      requires Valid() && fd <= 0 && newFd > 0
      modifies this
      ensures Valid() && View() == Link(newFd, Step1, [RoutingData(newFd, chunk)], [], [chunk])
      ensures fresh(Repr() - old(Repr()))
    {
      var queue := new QueueManager();
      var r := QueueManager.Insert(queue, RoutingData(newFd, chunk));
      assert queue.contents == [RoutingData(newFd, chunk)];
      fd, step, queueManager, wire, arrived := newFd, Step1, queue, [], [chunk];
    }

    /** A further chunk of the message. */
    method EgwPhysRouting(chunk: bytes)
      requires Valid()
      modifies this, queueManager, if queueManager != null then queueManager.nodes else []
      ensures Valid() && View() == Apply(old(View()), More(chunk))
      ensures fresh(Repr() - old(Repr()))
    {
      if fd <= 0 {
        return;
      }
      if step == Step2 {
        wire := wire + [chunk];
      } else {
        var r := QueueManager.Insert(queueManager, RoutingData(fd, chunk));
      }
      arrived := arrived + [chunk];
    }

    /** Takes everything out of the queue, in order. */
    static method Drain(q: QueueManager) returns (sent: seq<bytes>)
      requires q.Valid()
      modifies q
      ensures q.Valid() && q.contents == [] && sent == Datas(old(q.contents))
      ensures forall n :: n in q.nodes ==> n in old(q.nodes)
    {
      sent := [];
      while !q.Empty()
        invariant q.Valid()
        invariant forall n :: n in q.nodes ==> n in old(q.nodes)
        invariant sent + Datas(q.contents) == Datas(old(q.contents))
        decreases |q.contents|
      {
        ghost var c := q.contents;
        var data := QueueManager.Front(q);
        assert Datas(c) == [c[0].data] + Datas(c[1..]);
        if data.Some? {
          sent := sent + [data.value.data];
        }
      }
    }

    /** The target's routing activation response. */
    method UnpackRoutingActivationRes(activated: bool)
      requires Valid()
      modifies this, queueManager, if queueManager != null then queueManager.nodes else []
      ensures Valid() && View() == Apply(old(View()), Answer(activated))
      ensures fresh(Repr() - old(Repr()))
    {
      if fd <= 0 {
        return;
      }
      if activated {
        step := Step1;
        var sent := Drain(queueManager);
        wire := wire + sent;
        step := Step2;
      } else {
        DropLeadingAll(queueManager.contents, fd);
        var r := QueueManager.Clear(queueManager, fd);
      }
    }
  }
}
