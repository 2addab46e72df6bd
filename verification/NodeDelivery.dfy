/** What an application can put together from a node's indications, for every way the IPC stream is
    cut into reads. */
module NodeDelivery {
  import opened Wire
  import opened Places
  import opened DiagNode
  import D = DiagDelivery

  // ---------- the application ----------

  /** An application that puts pieces together: complete messages, and one under way. It is content
      while every indication carries the right addresses, total and running position. */
  datatype App = App(done: seq<seq<Byte>>, acc: seq<Byte>, total: int, content: bool)

  function Take(a: App, e: Event, self: int): App {
    if !e.Indication? then a.(content := false)
    else
      var acc := a.acc + e.data;
      var ok := && a.content && (a.acc == [] || a.total == e.total)
                && e.position == |acc| <= e.total && |acc| >= 4
                && e.source == FromBE16(acc[0..2]) && e.target == self == FromBE16(acc[2..4]);
      if e.position == e.total then App(a.done + [acc], [], 0, ok) else App(a.done, acc, e.total, ok)
  }

  function TakeAll(a: App, es: seq<Event>, self: int): App
    decreases |es|
  {
    if es == [] then a else TakeAll(Take(a, es[0], self), es[1..], self)
  }

  lemma {:induction false} TakeAppend(a: App, es: seq<Event>, fs: seq<Event>, self: int)
    ensures TakeAll(a, es + fs, self) == TakeAll(TakeAll(a, es, self), fs, self)
    decreases |es|
  {
    if es == [] {
      assert es + fs == fs;
    } else {
      assert (es + fs)[1..] == es[1..] + fs;
      TakeAppend(Take(a, es[0], self), es[1..], fs, self);
    }
  }

  // ---------- the stream ----------

  predicate ForNode(self: int, p: seq<Byte>) {
    5 <= |p| < 0x1_0000_0000 && FromBE16(p[2..4]) == self
  }

  ghost predicate AllFor(self: int, ms: seq<seq<Byte>>) {
    forall i :: 0 <= i < |ms| ==> ForNode(self, ms[i])
  }

  function Frames(ms: seq<seq<Byte>>): seq<Byte>
    requires forall i :: 0 <= i < |ms| ==> |ms[i]| < 0x1_0000_0000
  {
    if ms == [] then [] else D.Frame(ms[0]) + Frames(ms[1..])
  }

  ghost predicate ForAt(self: int, at: Place) { AllFor(self, at.ms) }

  function Stream(self: int, at: Place): seq<Byte>
    requires ForAt(self, at)
  {
    at.rest + Frames(at.ms)
  }

  /** A message at the start of a read has its header and addresses in it; one that starts later
      lies wholly in the read. */
  predicate Cut(size: nat, pos: nat, ms: seq<seq<Byte>>)
    decreases |ms|
  {
    pos < size && ms != [] ==>
      && (pos == 0 ==> IPC_HEADER + 4 <= size)
      && (pos > 0 ==> pos + IPC_HEADER + |ms[0]| <= size)
      && (pos + IPC_HEADER + |ms[0]| <= size ==> Cut(size, pos + IPC_HEADER + |ms[0]|, ms[1..]))
  }

  /** The node and its application stand at this place of the stream; `all` is everything sent. */
  ghost predicate Stands(n: Node, a: App, at: Place, all: seq<seq<Byte>>) {
    && NodeOk(n) && ForAt(n.self, at) && a.content
    && |at.rest| == n.total - n.current && |a.acc| == n.current
    && if at.rest == [] then n.total == 0 && a.acc == [] && a.done + at.ms == all
       else
         && 4 <= n.current && n.total < 0x1_0000_0000 && a.total == n.total
         && FromBE16(a.acc[0..2]) == n.tester && FromBE16(a.acc[2..4]) == n.self
         && a.done + [a.acc + at.rest] + at.ms == all
  }

  // ---------- one step ----------

  lemma FrameParsed(data: seq<Byte>, pos: nat, p: seq<Byte>, tail: seq<Byte>)
    requires |p| < 0x1_0000_0000 && HasBytes(data, pos, IPC_HEADER) && data[pos..] <= D.Frame(p) + tail
    ensures data[pos] == INDICATION && FrameLength(data, pos) == |p| && data[pos + 5] == 0
  {
    var h := D.IpcHeader(|p|);
    assert forall i :: 0 <= i < IPC_HEADER ==> data[pos + i] == data[pos..][i] == (D.Frame(p) + tail)[i] == h[i];
    assert data[pos + 1..pos + 5] == h[1..5] == LE32(|p|);
    LE32RoundTrip(|p|);
  }

  lemma FramePayload(data: seq<Byte>, pos: nat, p: seq<Byte>, tail: seq<Byte>, n: nat)
    requires |p| < 0x1_0000_0000 && pos + IPC_HEADER + n <= |data| && n <= |p|
    requires data[pos..] <= D.Frame(p) + tail
    ensures data[pos + IPC_HEADER..pos + IPC_HEADER + n] == p[..n]
  {
    var s := D.Frame(p) + tail;
    assert forall i :: 0 <= i < n ==>
      data[pos + IPC_HEADER + i] == data[pos..][IPC_HEADER + i] == s[IPC_HEADER + i] == p[i];
  }

  /** A frame is indicated with the piece of it that lies in the read. */
  lemma FrameStep(n: Node, data: seq<Byte>, pos: nat, p: seq<Byte>, tail: seq<Byte>)
    requires n.total == 0 && n.current == 0 && ForNode(n.self, p) && pos < |data|
    requires if pos == 0 then IPC_HEADER + 4 <= |data| else pos + IPC_HEADER + |p| <= |data|
    requires data[pos..] <= D.Frame(p) + tail
    ensures Parsable(n, data, pos)
    ensures var x, room := NodeExec(n, data, pos), |data| - pos - IPC_HEADER;
      var k := if |p| > room then room else |p|;
      && 4 <= k
      && x.out == [Indication(FromBE16(p[0..2]), n.self, 0, p[..k], |p|, k)]
      && x.node == n.(taType := 0, tester := FromBE16(p[0..2]),
                      total := if k == |p| then 0 else |p|, current := if k == |p| then 0 else k)
      && x.pos == pos + IPC_HEADER + k
  {
    var room := |data| - pos - IPC_HEADER;
    var k := if |p| > room then room else |p|;
    FrameParsed(data, pos, p, tail);
    FramePayload(data, pos, p, tail, k);
    assert p[..k][0..2] == p[0..2] && p[..k][2..4] == p[2..4];
  }

  /** The application takes the first piece. */
  lemma FirstTaken(n: Node, n': Node, a: App, ms: seq<seq<Byte>>, all: seq<seq<Byte>>, k: nat)
    requires Stands(n, a, Place([], ms), all) && ms != [] && ForNode(n.self, ms[0]) && 4 <= k <= |ms[0]|
    requires var p := ms[0]; n' == n.(taType := 0, tester := FromBE16(p[0..2]),
                      total := if k == |p| then 0 else |p|, current := if k == |p| then 0 else k)
    ensures var p := ms[0];
      Stands(n', TakeAll(a, [Indication(FromBE16(p[0..2]), n.self, 0, p[..k], |p|, k)], n.self),
             Place(p[k..], ms[1..]), all)
  {
    var p := ms[0];
    var e := Indication(FromBE16(p[0..2]), n.self, 0, p[..k], |p|, k);
    assert [e][1..] == [];
    assert a.acc + p[..k] == p[..k];
    assert p[..k][0..2] == p[0..2] && p[..k][2..4] == p[2..4];
    assert p[..k] + p[k..] == p && ms == [p] + ms[1..];
    assert k == |p| ==> p[..k] == p;
    assert a.done + ([p] + ms[1..]) == a.done + [p] + ms[1..];
  }

  /** The application takes a later piece. */
  lemma MoreTaken(n: Node, a: App, at: Place, all: seq<seq<Byte>>, k: nat, n': Node)
    requires Stands(n, a, at, all) && 0 < k <= |at.rest|
    requires n' == if k == |at.rest| then n.(total := 0, current := 0) else n.(current := n.current + k)
    ensures Stands(n', TakeAll(a, [Indication(n.tester, n.self, n.taType, at.rest[..k], n.total, n.current + k)], n.self),
                   Place(at.rest[k..], at.ms), all)
  {
    var e := Indication(n.tester, n.self, n.taType, at.rest[..k], n.total, n.current + k);
    assert [e][1..] == [];
    var acc := a.acc + at.rest[..k];
    assert acc[0..2] == a.acc[0..2] && acc[2..4] == a.acc[2..4];
    assert acc + at.rest[k..] == a.acc + at.rest;
    assert k == |at.rest| ==> acc == a.acc + at.rest;
  }

  lemma MoreStep(n: Node, a: App, at: Place, all: seq<seq<Byte>>, data: seq<Byte>)
    requires Stands(n, a, at, all) && at.rest != [] && |data| > 0 && data <= Stream(n.self, at)
    ensures Parsable(n, data, 0)
    ensures var x := NodeExec(n, data, 0); var k := if |at.rest| > |data| then |data| else |at.rest|;
      && x.pos == k && 0 < k
      && x.out == [Indication(n.tester, n.self, n.taType, at.rest[..k], n.total, n.current + k)]
      && x.node == if k == |at.rest| then n.(total := 0, current := 0) else n.(current := n.current + k)
  {
    var s, k := Stream(n.self, at), if |at.rest| > |data| then |data| else |at.rest|;
    assert forall i :: 0 <= i < k ==> data[i] == s[i] == at.rest[i];
    assert data[..k] == at.rest[..k];
    assert |at.rest| > |data| ==> data == data[..k];
  }

  // ---------- one read ----------

  lemma LoopEnds(n: Node, data: seq<Byte>)
    ensures Framed(n, data, |data|) && NodeUnpack(n, data, |data|) == Done(n, [])
  {
  }

  lemma LoopStep(n: Node, data: seq<Byte>, pos: nat)
    requires pos < |data| && NodeOk(n) && Parsable(n, data, pos)
    requires var x := NodeExec(n, data, pos); pos < x.pos && Framed(x.node, data, x.pos)
    ensures Framed(n, data, pos)
    ensures var x := NodeExec(n, data, pos); var d := NodeUnpack(x.node, data, x.pos);
      NodeUnpack(n, data, pos) == Done(d.node, x.out + d.out)
  {
  }

  /** Node and application advance together. */
  ghost predicate Advances(n: Node, a: App, d: Done, at: Place, all: seq<seq<Byte>>) {
    d.node.self == n.self && Stands(d.node, TakeAll(a, d.out, n.self), at, all)
  }

  lemma AdvancesTwice(n: Node, a: App, d: Done, e: Done, at: Place, all: seq<seq<Byte>>)
    requires d.node.self == n.self && Advances(d.node, TakeAll(a, d.out, n.self), e, at, all)
    ensures Advances(n, a, Done(e.node, d.out + e.out), at, all)
  {
    TakeAppend(a, d.out, e.out, n.self);
  }

  lemma StepAdvances(n: Node, a: App, ms: seq<seq<Byte>>, all: seq<seq<Byte>>, data: seq<Byte>, pos: nat)
    requires Stands(n, a, Place([], ms), all) && ms != [] && pos < |data| && Cut(|data|, pos, ms)
    requires data[pos..] <= D.Frame(ms[0]) + Frames(ms[1..])
    ensures Parsable(n, data, pos)
    ensures var x, whole := NodeExec(n, data, pos), pos + IPC_HEADER + |ms[0]| <= |data|;
      && x.pos == (if whole then pos + IPC_HEADER + |ms[0]| else |data|)
      && Advances(n, a, Done(x.node, x.out), Within(IPC_HEADER, x.pos - pos, ms), all)
      && (whole ==> Within(IPC_HEADER, x.pos - pos, ms) == Place([], ms[1..]))
      && pos < x.pos && (!whole ==> Within(IPC_HEADER, x.pos - pos, ms) == Place(ms[0][x.pos - pos - IPC_HEADER..], ms[1..]))
  {
    hide NodeExec, Frames, TakeAll, Stands, Within, Cut;
    CutStart(|data|, pos, ms);
    StandsAt(n, a, ms, all);
    var room := |data| - pos - IPC_HEADER;
    var k := if |ms[0]| > room then room else |ms[0]|;
    FrameStep(n, data, pos, ms[0], Frames(ms[1..]));
    FirstTaken(n, NodeExec(n, data, pos).node, a, ms, all, k);
    WithinFirst(ms, k);
  }

  lemma StandsAt(n: Node, a: App, ms: seq<seq<Byte>>, all: seq<seq<Byte>>)
    requires Stands(n, a, Place([], ms), all) && ms != []
    ensures n.total == 0 && n.current == 0 && AllFor(n.self, ms)
  {
  }

  lemma CutStart(size: nat, pos: nat, ms: seq<seq<Byte>>)
    requires Cut(size, pos, ms) && pos < size && ms != []
    ensures if pos == 0 then IPC_HEADER + 4 <= size else pos + IPC_HEADER + |ms[0]| <= size
  {
  }

  lemma WithinFirst(ms: seq<seq<Byte>>, k: nat)
    requires ms != [] && 0 < k <= |ms[0]|
    ensures Within(IPC_HEADER, IPC_HEADER + k, ms) == Place(ms[0][k..], ms[1..])
  {
  }

  lemma {:induction false} LoopAdvances(n: Node, a: App, ms: seq<seq<Byte>>, all: seq<seq<Byte>>, data: seq<Byte>, pos: nat)
    requires Stands(n, a, Place([], ms), all) && pos <= |data|
    requires data[pos..] <= Frames(ms) && Cut(|data|, pos, ms)
    ensures Framed(n, data, pos)
    ensures Advances(n, a, NodeUnpack(n, data, pos), Within(IPC_HEADER, |data| - pos, ms), all)
    decreases |ms|
  {
    hide NodeExec, NodeUnpack, Framed, TakeAll;
    if pos == |data| {
      LoopEnds(n, data);
      TakeNone(a, n.self);
    } else {
      assert ms != [] by {
        assert |data[pos..]| > 0;
      }
      StepAdvances(n, a, ms, all, data, pos);
      LoopContinues(n, a, ms, all, data, pos);
    }
  }

  lemma TakeNone(a: App, self: int)
    ensures TakeAll(a, [], self) == a
  {
  }

  lemma {:induction false} LoopContinues(n: Node, a: App, ms: seq<seq<Byte>>, all: seq<seq<Byte>>, data: seq<Byte>, pos: nat)
    requires Stands(n, a, Place([], ms), all) && ms != [] && pos < |data| && Cut(|data|, pos, ms)
    requires data[pos..] <= D.Frame(ms[0]) + Frames(ms[1..]) && Parsable(n, data, pos)
    requires var x, whole := NodeExec(n, data, pos), pos + IPC_HEADER + |ms[0]| <= |data|;
      && x.pos == (if whole then pos + IPC_HEADER + |ms[0]| else |data|)
      && Advances(n, a, Done(x.node, x.out), Within(IPC_HEADER, x.pos - pos, ms), all)
      && (whole ==> Within(IPC_HEADER, x.pos - pos, ms) == Place([], ms[1..]))
    ensures Framed(n, data, pos)
    ensures Advances(n, a, NodeUnpack(n, data, pos), Within(IPC_HEADER, |data| - pos, ms), all)
    decreases |ms|, 0
  {
    hide NodeExec, NodeUnpack, Framed, TakeAll, Frames, Parsable;
    var x := NodeExec(n, data, pos);
    if pos + IPC_HEADER + |ms[0]| <= |data| {
      D.SuffixOf(data, pos, D.Frame(ms[0]), Frames(ms[1..]), x.pos);
      LoopAdvances(x.node, TakeAll(a, x.out, n.self), ms[1..], all, data, x.pos);
      LoopStep(n, data, pos);
      var d, end := NodeUnpack(x.node, data, x.pos), Within(IPC_HEADER, |data| - x.pos, ms[1..]);
      AdvancesTwice(n, a, Done(x.node, x.out), d, end, all);
      assert Within(IPC_HEADER, |data| - pos, ms) == end;
    } else {
      LoopEnds(x.node, data);
      LoopStep(n, data, pos);
      assert x.out + [] == x.out;
    }
  }

  ghost predicate ReadOk(at: Place, size: nat) {
    size > 0 && Cut(size, |at.rest|, at.ms)
  }

  lemma ReadAdvances(n: Node, a: App, at: Place, all: seq<seq<Byte>>, data: seq<Byte>)
    requires Stands(n, a, at, all) && ReadOk(at, |data|) && data <= Stream(n.self, at)
    ensures Framed(n, data, 0)
    ensures Advances(n, a, NodeUnpack(n, data, 0), Advance(IPC_HEADER, at, |data|), all)
  {
    hide NodeExec, NodeUnpack, Framed, TakeAll, Frames, Parsable, Stands;
    if |data| <= |at.rest| {
      OnlyRest(n, a, at, all, data);
    } else if at.rest != [] {
      RestAndMore(n, a, at, all, data);
    } else {
      assert at == Place([], at.ms) && data[0..] == data;
      LoopAdvances(n, a, at.ms, all, data, 0);
    }
  }

  lemma OnlyRest(n: Node, a: App, at: Place, all: seq<seq<Byte>>, data: seq<Byte>)
    requires Stands(n, a, at, all) && 0 < |data| <= |at.rest| && data <= Stream(n.self, at)
    ensures Framed(n, data, 0)
    ensures Advances(n, a, NodeUnpack(n, data, 0), Place(at.rest[|data|..], at.ms), all)
  {
    hide NodeExec, NodeUnpack, Framed, TakeAll, Frames, Parsable, Take;
    MoreStep(n, a, at, all, data);
    var x := NodeExec(n, data, 0);
    MoreTaken(n, a, at, all, |data|, x.node);
    LoopEnds(x.node, data);
    LoopStep(n, data, 0);
    assert x.out + [] == x.out;
  }

  lemma RestAndMore(n: Node, a: App, at: Place, all: seq<seq<Byte>>, data: seq<Byte>)
    requires Stands(n, a, at, all) && 0 < |at.rest| < |data| && data <= Stream(n.self, at)
    requires Cut(|data|, |at.rest|, at.ms)
    ensures Framed(n, data, 0)
    ensures Advances(n, a, NodeUnpack(n, data, 0), Within(IPC_HEADER, |data| - |at.rest|, at.ms), all)
  {
    hide NodeExec, NodeUnpack, Framed, TakeAll, Frames, Parsable, Take, Cut, Within;
    var k := |at.rest|;
    MoreStep(n, a, at, all, data);
    var x := NodeExec(n, data, 0);
    MoreTaken(n, a, at, all, k, x.node);
    assert at.rest[k..] == [] && data[0..] == data;
    D.SuffixOf(data, 0, at.rest, Frames(at.ms), k);
    LoopAdvances(x.node, TakeAll(a, x.out, n.self), at.ms, all, data, k);
    LoopStep(n, data, 0);
    AdvancesTwice(n, a, Done(x.node, x.out), NodeUnpack(x.node, data, k), Within(IPC_HEADER, |data| - k, at.ms), all);
  }

  // ---------- all reads ----------

  ghost predicate RunFramed(n: Node, datas: seq<seq<Byte>>)
    decreases |datas|
  {
    datas != [] ==> Framed(n, datas[0], 0) && RunFramed(NodeUnpack(n, datas[0], 0).node, datas[1..])
  }

  function NodeRun(n: Node, datas: seq<seq<Byte>>): Done
    requires RunFramed(n, datas)
    decreases |datas|
  {
    if datas == [] then Done(n, [])
    else
      var d := NodeUnpack(n, datas[0], 0);
      var e := NodeRun(d.node, datas[1..]);
      Done(e.node, d.out + e.out)
  }

  ghost predicate ReadsOk(at: Place, datas: seq<seq<Byte>>)
    decreases |datas|
  {
    datas != [] ==> ReadOk(at, |datas[0]|) && ReadsOk(Advance(IPC_HEADER, at, |datas[0]|), datas[1..])
  }

  lemma {:induction false} WithinStream(self: int, n: nat, ms: seq<seq<Byte>>, size: nat, pos: nat)
    requires AllFor(self, ms) && n <= |Frames(ms)| && Cut(size, pos, ms) && n == size - pos
    ensures var at := Within(IPC_HEADER, n, ms); ForAt(self, at) && Stream(self, at) == Frames(ms)[n..]
    decreases |ms|
  {
    if n > 0 && ms != [] {
      var p, tail := ms[0], Frames(ms[1..]);
      var k := IPC_HEADER + |p|;
      assert |D.Frame(p)| == k;
      if n >= k {
        WithinStream(self, n - k, ms[1..], size, pos + k);
        assert (D.Frame(p) + tail)[n..] == tail[n - k..];
      } else {
        assert (D.Frame(p) + tail)[n..] == D.Frame(p)[n..] + tail;
        assert D.Frame(p)[n..] == p[n - IPC_HEADER..];
      }
    }
  }

  lemma AdvanceStream(self: int, at: Place, n: nat)
    requires ForAt(self, at) && n <= |Stream(self, at)| && Cut(n, |at.rest|, at.ms)
    ensures var at' := Advance(IPC_HEADER, at, n); ForAt(self, at') && Stream(self, at') == Stream(self, at)[n..]
  {
    var r, e := at.rest, Frames(at.ms);
    if n <= |r| {
      assert (r + e)[n..] == r[n..] + e;
    } else {
      WithinStream(self, n - |r|, at.ms, n, |r|);
      assert (r + e)[n..] == e[n - |r|..];
    }
  }

  lemma {:induction false} RunAdvances(n: Node, a: App, at: Place, all: seq<seq<Byte>>, datas: seq<seq<Byte>>)
    requires Stands(n, a, at, all) && Concat(datas) == Stream(n.self, at) && ReadsOk(at, datas)
    ensures RunFramed(n, datas)
    ensures Advances(n, a, NodeRun(n, datas), Place([], []), all)
    decreases |datas|
  {
    hide NodeUnpack, Framed, TakeAll, Frames, Stands, Advance, Cut;
    StandsFor(n, a, at, all);
    if datas == [] {
      StreamEmpty(n.self, at);
      TakeNone(a, n.self);
      assert at == Place([], []);
    } else {
      var data, later := datas[0], Concat(datas[1..]);
      assert data <= data + later;
      ReadAdvances(n, a, at, all, data);
      var d, at' := NodeUnpack(n, data, 0), Advance(IPC_HEADER, at, |data|);
      AdvanceStream(n.self, at, |data|);
      assert (data + later)[|data|..] == later;
      var rest := datas[1..];
      RunAdvances(d.node, TakeAll(a, d.out, n.self), at', all, rest);
      AdvancesTwice(n, a, d, NodeRun(d.node, rest), Place([], []), all);
    }
  }

  lemma StandsFor(n: Node, a: App, at: Place, all: seq<seq<Byte>>)
    requires Stands(n, a, at, all)
    ensures ForAt(n.self, at)
  {
  }

  lemma StreamEmpty(self: int, at: Place)
    requires ForAt(self, at)
    ensures Stream(self, at) == [] ==> at.rest == [] && at.ms == []
  {
    if at.ms != [] {
      assert |D.Frame(at.ms[0])| > 0;
    }
  }

  /** However the frames are cut into reads, within the stated bounds, the application puts together
      exactly the payloads that were sent, content with every indication on the way. */
  lemma NodeDelivers(n: Node, ms: seq<seq<Byte>>, datas: seq<seq<Byte>>)
    requires n.total == 0 && n.current == 0 && AllFor(n.self, ms)
    requires Concat(datas) == Frames(ms) && ReadsOk(Place([], ms), datas)
    ensures RunFramed(n, datas)
    ensures var d := NodeRun(n, datas); var a := TakeAll(App([], [], 0, true), d.out, n.self);
      && a.done == ms && a.acc == [] && a.content
      && d.node.total == 0 && d.node.current == 0
  {
    var a := App([], [], 0, true);
    assert Stream(n.self, Place([], ms)) == Frames(ms);
    assert Stands(n, a, Place([], ms), ms);
    RunAdvances(n, a, Place([], ms), ms, datas);
    assert TakeAll(a, NodeRun(n, datas).out, n.self).done + [] == TakeAll(a, NodeRun(n, datas).out, n.self).done;
  }

  /** The condition on frames is needed: a frame whose header and addresses are in the read is
      indicated exactly when it starts the read or lies wholly in it. Otherwise the parser stops,
      and the node has counted bytes that it never passed on. */
  lemma FrameIndicatedIff(n: Node, data: seq<Byte>, pos: nat, p: seq<Byte>, tail: seq<Byte>)
    requires n.total == 0 && n.current == 0 && ForNode(n.self, p)
    requires HasBytes(data, pos, IPC_HEADER + 4) && data[pos..] <= D.Frame(p) + tail
    ensures Parsable(n, data, pos)
    ensures var x := NodeExec(n, data, pos);
      && (x.out != [] <==> pos == 0 || HasBytes(data, pos, IPC_HEADER + |p|))
      && (x.out == [] ==> x.pos == 0 && x.node.current > 0)
  {
    FrameParsed(data, pos, p, tail);
    if pos == 0 || HasBytes(data, pos, IPC_HEADER + |p|) {
      FrameStep(n, data, pos, p, tail);
    }
  }

  // ---------- other frames ----------

  /** A confirmation request or a send confirmation, as the server packs it. */
  function NoticeFrame(kind: Byte, equip: int, entity: int): seq<Byte>
    requires 0 <= equip < 0x1_0000 && 0 <= entity < 0x1_0000
  {
    [kind] + LE32(4) + BE16(equip) + BE16(entity)
  }

  /** A notice that lies in the read calls back exactly if it is for this node: 0x06 asks the user, 0x03
      confirms a sending. */
  lemma NoticeRoundTrip(n: Node, data: seq<Byte>, pos: nat, kind: Byte, equip: int, entity: int, rest: seq<Byte>)
    requires NodeOk(n) && !Busy(n) && pos < |data| && (kind == 0x06 || kind == 0x03)
    requires 0 <= equip < 0x1_0000 && 0 <= entity < 0x1_0000
    requires data[pos..] == NoticeFrame(kind, equip, entity) + rest
    ensures Parsable(n, data, pos)
    ensures NodeExec(n, data, pos) ==
      Exec(n, if entity != n.self then [] else if kind == 0x06 then [UserConf(equip, entity)] else [Confirm(equip, entity)],
           pos + 9)
  {
    var s := NoticeFrame(kind, equip, entity);
    assert |data[pos..]| == |data| - pos;
    assert forall i :: 0 <= i < 9 ==> data[pos + i] == data[pos..][i] == s[i];
    assert data[pos + 1..pos + 5] == s[1..5] == LE32(4);
    assert data[pos + 5..pos + 7] == s[5..7] == BE16(equip);
    assert data[pos + 7..pos + 9] == s[7..9] == BE16(entity);
    LE32RoundTrip(4);
    BE16RoundTrip(equip);
    BE16RoundTrip(entity);
  }

  /** The first piece of a message for another address is passed over in silence, unless the message is
      functionally addressed. */
  lemma IndicatedIfAddressed(n: Node, data: seq<Byte>, pos: nat)
    requires n.total == 0 && n.current == 0 && HasBytes(data, pos, IPC_HEADER) && data[pos] == 0x04
    requires HasBytes(data, pos + IPC_HEADER, Present(data, pos)) && Present(data, pos) >= 4
    ensures var target: int := FromBE16(data[pos + 8..pos + 10]);
      NodeExec(n, data, pos).out != [] <==> target == n.self || data[pos + 5] == 0x01
  {
    var b := data[pos + IPC_HEADER..pos + IPC_HEADER + Present(data, pos)];
    assert b[2] == data[pos + 8] && b[3] == data[pos + 9];
    assert b[2..4] == [b[2], b[3]] && data[pos + 8..pos + 10] == [data[pos + 8], data[pos + 9]];
  }

  /** A frame of another kind ends the read. */
  lemma UnknownFrameStops(n: Node, data: seq<Byte>, pos: nat)
    requires NodeOk(n) && !Busy(n) && pos < |data| && data[pos] !in {0x03, 0x04, 0x06}
    ensures Parsable(n, data, pos) && NodeExec(n, data, pos) == Exec(n, [], 0)
  {
  }
}
