/** From the tester's stream to the application: server and node together. */
module DiagEndToEnd {
  import opened Wire
  import opened Places
  import S = DiagServer
  import D = DiagDelivery
  import N = DiagNode
  import R = NodeDelivery

  /** The messages that go to the node on fd, in the order in which they were sent. */
  function Mine(env: S.Env, ms: seq<seq<Byte>>, fd: int): seq<seq<Byte>>
    requires D.AllGood(env, ms)
  {
    if ms == [] then [] else (if D.Owner(env, ms[0]) == fd then [ms[0]] else []) + Mine(env, ms[1..], fd)
  }

  /** Only messages for the node's own address are routed to its fd. */
  ghost predicate RoutedTo(env: S.Env, fd: int, self: int) {
    forall a :: a in env.nodes && env.nodes[a] == fd ==> a == self
  }

  lemma {:induction false} MineAreFrames(env: S.Env, ms: seq<seq<Byte>>, fd: int, self: int)
    requires D.AllGood(env, ms) && RoutedTo(env, fd, self)
    ensures R.AllFor(self, Mine(env, ms, fd)) && D.Owed(env, ms, fd) == R.Frames(Mine(env, ms, fd))
    decreases |ms|
  {
    if ms != [] {
      MineAreFrames(env, ms[1..], fd, self);
      var a, b := if D.Owner(env, ms[0]) == fd then [ms[0]] else [], Mine(env, ms[1..], fd);
      assert a == [] ==> a + b == b;
      assert a != [] ==> (a + b)[1..] == b;
      forall i | 0 <= i < |a + b| ensures R.ForNode(self, (a + b)[i]) {
        assert i >= |a| ==> (a + b)[i] == b[i - |a|];
      }
    }
  }

  /** Every application receives exactly its messages, complete and in order, with the right
      addresses, totals and running positions, whatever the messages are and however the tester's
      stream and the IPC stream are cut into reads within the stated bounds. */
  lemma EndToEnd(env: S.Env, c: S.Conn, ms: seq<seq<Byte>>, tcp: seq<seq<Byte>>,
                 fd: int, n: N.Node, ipc: seq<seq<Byte>>)
    requires D.EnvOk(env) && D.AllGood(env, ms) && D.Stands(c, [])
    requires Concat(tcp) == D.Encoded(env, ms) && D.ReadsOk(Place([], ms), tcp)
    requires RoutedTo(env, fd, n.self) && n.total == 0 && n.current == 0
    requires D.RunFramed(env, c, tcp) && Concat(ipc) == S.Written(D.NetRun(env, c, tcp).out, fd)
    requires R.ReadsOk(Place([], Mine(env, ms, fd)), ipc)
    ensures R.RunFramed(n, ipc)
    ensures var a := R.TakeAll(R.App([], [], 0, true), R.NodeRun(n, ipc).out, n.self);
      a.done == Mine(env, ms, fd) && a.acc == [] && a.content
  {
    D.ServerDelivers(env, c, ms, tcp, fd);
    MineAreFrames(env, ms, fd, n.self);
    R.NodeDelivers(n, Mine(env, ms, fd), ipc);
  }
}
