/** A reachable run of a guarded server that ends with two holders of one tester address. */
module RoutingOrphan {
  import opened Wrappers
  import opened Routing
  import opened RoutingInvariants
  import opened RoutingUnique

  const CFG := Config(false, false, 0, 1, 0, false)
  const A := 0x0E00
  const B := 0x0E01

  function Asking(fd: int, sa: int): Event {
    Requested(fd, 7, sa, 0, 0)
  }

  function Holder(fd: int, sa: int): Entry {
    NewEntry(fd).(sa := sa, registered := true, state := PendingAuth)
  }

  function Waiter(fd: int, sa: int): Entry {
    NewEntry(fd).(sa := sa)
  }

  function At(clients: seq<int>, table: seq<Entry>, out: seq<Msg>): Server {
    Server(CFG, None, clients, table, 0, out)
  }

  /** A run as the list of its steps. */
  ghost predicate Leads(s: Server, es: seq<Event>, s': Server) {
    Feasible(s, es) && Run(s, es) == s'
  }

  lemma Extend(s: Server, es: seq<Event>, s': Server, e: Event)
    requires Leads(s, es, s') && Possible(s', e)
    ensures Leads(s, es + [e], Apply(s', e))
    decreases es
  {
    if es == [] {
      assert [] + [e] == [e];
      assert Feasible(Apply(s, e), []);
    } else {
      Extend(Apply(s, es[0]), es[1..], s', e);
      assert (es + [e])[1..] == es[1..] + [e];
    }
  }

  lemma TwoOpen()
    ensures Leads(Start(CFG), [Accepted(1), Accepted(2)], At([1, 2], [NewEntry(1), NewEntry(2)], []))
  {
    var s0, s1 := Start(CFG), At([1], [NewEntry(1)], []);
    assert Leads(s0, [], s0);
    Extend(s0, [], s0, Accepted(1));
    assert [] + [Accepted(1)] == [Accepted(1)];
    assert Apply(s0, Accepted(1)) == s1;
    assert FindFd([NewEntry(1)], 2) == 1;
    Extend(s0, [Accepted(1)], s1, Accepted(2));
    assert [1] + [2] == [1, 2] && [NewEntry(1)] + [NewEntry(2)] == [NewEntry(1), NewEntry(2)];
    assert [Accepted(1)] + [Accepted(2)] == [Accepted(1), Accepted(2)];
  }

  lemma FirstRegisters()
    ensures Apply(At([1, 2], [NewEntry(1), NewEntry(2)], []), Asking(1, A))
         == At([1, 2], [Holder(1, A), NewEntry(2)], [])
  {
    var t := [NewEntry(1), NewEntry(2)];
    assert t[0 := NewEntry(1)] == t;
    assert !AnyRegistered(t);
  }

  lemma SecondWaits()
    ensures Apply(At([1, 2], [Holder(1, A), NewEntry(2)], []), Asking(2, B))
         == At([1, 2], AskAll([Holder(1, A), Waiter(2, B)], B), [AliveRequest(1)])
  {
    var t := [Holder(1, A), NewEntry(2)];
    assert FindFd(t, 2) == 1;
    assert t[1 := NewEntry(2)] == t;
    assert t[0].registered;
    assert FindSa(t, B) == 2;
    assert t[1..] == [NewEntry(2)] && RegisteredCount([NewEntry(2)]) == 0;
    assert RegisteredCount(t) == 1;
    var u := [Holder(1, A), Waiter(2, B)];
    assert t[1 := Waiter(2, B)] == u;
    assert u[1..] == [Waiter(2, B)] && AliveRequests([Waiter(2, B)]) == [];
    assert AliveRequests(u) == [AliveRequest(1)];
  }

  lemma FirstLeaves()
    ensures Apply(At([1, 2], AskAll([Holder(1, A), Waiter(2, B)], B), [AliveRequest(1)]), Disconnected(1))
         == At([2], [Waiter(2, B)], [AliveRequest(1)])
  {
    var t := AskAll([Holder(1, A), Waiter(2, B)], B);
    assert FindFd(t, 1) == 0 && FindInt([1, 2], 1) == 0;
    assert Without(t, 0) == [Waiter(2, B)];
    assert Without([1, 2], 0) == [2];
  }

  lemma ThirdOpens()
    ensures var s := At([2], [Waiter(2, B)], [AliveRequest(1)]);
      && Possible(s, Accepted(3))
      && Apply(s, Accepted(3)) == At([2, 3], [Waiter(2, B), NewEntry(3)], [AliveRequest(1)])
  {
    assert FindFd([Waiter(2, B)], 3) == 1;
    assert [2] + [3] == [2, 3] && [Waiter(2, B)] + [NewEntry(3)] == [Waiter(2, B), NewEntry(3)];
  }

  lemma ThirdRegisters()
    ensures Apply(At([2, 3], [Waiter(2, B), NewEntry(3)], [AliveRequest(1)]), Asking(3, B))
         == At([2, 3], [Waiter(2, B), Holder(3, B)], [AliveRequest(1)])
  {
    var t := [Waiter(2, B), NewEntry(3)];
    assert FindFd(t, 3) == 1;
    assert t[1 := NewEntry(3)] == t;
    assert !AnyRegistered(t);
    var u := [Waiter(2, B), NewEntry(3).(registered := true, sa := B)];
    assert t[1 := NewEntry(3).(registered := true, sa := B)] == u;
    assert FindFd(u, 3) == 1;
    assert u[1 := Holder(3, B)] == [Waiter(2, B), Holder(3, B)];
  }

  /** The side condition of TesterAddressesAreUnique is needed: with one place, the holder leaves
      while a second connection waits on the all-socket check, and a third takes the address the
      second still stores. */
  lemma OrphanDuplicatesAddress() returns (es: seq<Event>)
    ensures Guarded(CFG) && Feasible(Start(CFG), es) && !Unique(Run(Start(CFG), es).table)
  {
    var s0 := Start(CFG);
    TwoOpen();
    var s2 := At([1, 2], [NewEntry(1), NewEntry(2)], []);
    var e2 := [Accepted(1), Accepted(2)];
    FirstRegisters();
    var s3 := At([1, 2], [Holder(1, A), NewEntry(2)], []);
    Extend(s0, e2, s2, Asking(1, A));
    SecondWaits();
    var e3 := e2 + [Asking(1, A)];
    var s4 := At([1, 2], AskAll([Holder(1, A), Waiter(2, B)], B), [AliveRequest(1)]);
    Extend(s0, e3, s3, Asking(2, B));
    var e4 := e3 + [Asking(2, B)];
    FirstLeaves();
    Extend(s0, e4, s4, Disconnected(1));
    var s5 := At([2], [Waiter(2, B)], [AliveRequest(1)]);
    var e5 := e4 + [Disconnected(1)];
    ThirdOpens();
    Extend(s0, e5, s5, Accepted(3));
    var s6 := At([2, 3], [Waiter(2, B), NewEntry(3)], [AliveRequest(1)]);
    ThirdRegisters();
    es := e5 + [Accepted(3)];
    Extend(s0, es, s6, Asking(3, B));
    es := es + [Asking(3, B)];
    var t := [Waiter(2, B), Holder(3, B)];
    assert t[0].sa == t[1].sa != 0;
  }
}
