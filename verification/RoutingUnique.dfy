/** Tester-address uniqueness, and what is lost when the handler is not guarded. */
module RoutingUnique {
  import opened Wrappers
  import opened Routing
  import opened RoutingInvariants
  import opened RoutingTheorems

  /** No two connections hold the same nonzero tester address. */
  ghost predicate Unique(t: seq<Entry>) {
    forall i, j :: 0 <= i < j < |t| && t[i].sa != 0 ==> t[i].sa != t[j].sa
  }

  /** An accepted request that finds no registered socket, while another connection, left over
      from an all-socket check, already holds the address. */
  ghost predicate Clash(s: Server, e: Event) {
    && e.Requested? && Reaches(s, e.fd, e.length, e.sa, e.kind)
    && !AnyRegistered(s.table)
    && exists j :: 0 <= j < |s.table| && j != FindFd(s.table, e.fd) && s.table[j].sa == e.sa
  }

  lemma UniqueWithout(t: seq<Entry>, k: nat)
    requires Unique(t)
    ensures Unique(Without(t, k))
  {
    var u := Without(t, k);
    forall i, j | 0 <= i < j < |u| && u[i].sa != 0 ensures u[i].sa != u[j].sa {
      if k < |t| {
        assert u[i] == t[if i < k then i else i + 1] && u[j] == t[if j < k then j else j + 1];
      }
    }
  }

  lemma UniqueSame(t: seq<Entry>, t': seq<Entry>)
    requires |t'| == |t| && forall i :: 0 <= i < |t| ==> t'[i].sa == t[i].sa
    ensures Unique(t) <==> Unique(t')
  {
  }

  /** Giving entry i the address sa keeps uniqueness exactly when no other entry holds sa. */
  lemma UniquePut(t: seq<Entry>, i: nat, x: Entry)
    requires Unique(t) && i < |t| && x.sa != 0
    ensures Unique(t[i := x]) <==> forall j :: 0 <= j < |t| && j != i ==> t[j].sa != x.sa
  {
    var u := t[i := x];
    if Unique(u) {
      forall j | 0 <= j < |t| && j != i ensures t[j].sa != x.sa {
        assert u[j] == t[j] && u[i] == x;
        if j < i {
          assert u[j].sa == 0 || u[j].sa != u[i].sa;
        }
      }
    }
  }

  lemma UniqueTaken(s: Server, t: seq<Entry>, w: nat, x: Entry, i: nat, t': seq<Entry>)
    requires Unique(t) && i < |t| && TookOver(s, t, w, x, i, t')
    requires x.sa == t[i].sa || x.sa == t[w].sa
    ensures Unique(t')
  {
    var v := t[w := x];
    forall a, b | 0 <= a < b < |t'| && t'[a].sa != 0 ensures t'[a].sa != t'[b].sa {
      var c, d := if a < i then a else a + 1, if b < i then b else b + 1;
      assert t'[a] == v[c] && t'[b] == v[d] && c < d && c != i && d != i;
      if x.sa == t[i].sa && (c == w || d == w) {
        var o := if c == w then d else c;
        assert o != i && v[o] == t[o];
        assert t[i].sa != 0 ==> t[o].sa != t[i].sa by {
          if o < i {
            assert t[o].sa == 0 || t[o].sa != t[i].sa;
          }
        }
      }
    }
  }

  lemma RequestUnique(s: Server, fd: int, length: int, sa: int, kind: int, info: int)
    requires Agree(s) && Guarded(s.cfg) && Unique(s.table)
    ensures Unique(Request(s, fd, length, sa, kind, info).table)
       <==> !Clash(s, Requested(fd, length, sa, kind, info))
  {
    RequestCases(s, fd, length, sa, kind, info);
    var s', i := Request(s, fd, length, sa, kind, info), FindFd(s.table, fd);
    if Reaches(s, fd, length, sa, kind) {
      var p := Prepared(s, fd, length, info);
      UniqueSame(s.table, p.table);
      CountPut(s.table, i, p.table[i]);
      CountBound(s.table);
      CountBound(p.table);
      DecidedUnique(p, i, sa, s');
      assert forall j :: 0 <= j < |s.table| ==> p.table[j].sa == s.table[j].sa;
    } else {
      UniqueWithout(s.table, i);
    }
  }

  lemma DecidedUnique(p: Server, i: nat, sa: int, s': Server)
    requires i < |p.table| && Decided(p, i, sa, s') && Unique(p.table) && sa != 0
    ensures Unique(s'.table) <==>
      (AnyRegistered(p.table) || forall j :: 0 <= j < |p.table| && j != i ==> p.table[j].sa != sa)
  {
    var e, o := p.table[i], FindSa(p.table, sa);
    if !AnyRegistered(p.table) {
      UniquePut(p.table, i, s'.table[i]);
    } else if e.registered && sa == e.sa {
      UniqueSame(p.table, s'.table);
    } else if e.registered {
      UniqueWithout(p.table, i);
    } else if o < |p.table| {
      UniqueSame(p.table, s'.table);
    } else if RegisteredCount(p.table) % 256 == p.cfg.mcts {
      UniquePut(p.table, i, e.(sa := sa));
      UniqueSame(p.table[i := e.(sa := sa)], s'.table);
    } else {
      UniquePut(p.table, i, s'.table[i]);
    }
  }

  /** Every event keeps the addresses unique, except exactly the clashing request. */
  lemma UniquenessIff(s: Server, e: Event)
    requires Agree(s) && Guarded(s.cfg) && Possible(s, e) && Unique(s.table)
    ensures Unique(Apply(s, e).table) <==> !Clash(s, e)
  {
    match e
    case Accepted(fd) =>
    case Requested(fd, length, sa, kind, info) => RequestUnique(s, fd, length, sa, kind, info);
    case Answered(fd, length, sa) =>
      AnswerCases(s, fd, length, sa);
      var s', i := Apply(s, e), FindSa(s.table, sa);
      if s'.table != s.table {
        var all: bool, single: bool, k: nat :| Marked(s.table, i, all, single, k, s'.table);
        var t := s.table[i := s.table[i].(armed := false, allAlive := all, singleAlive := single)];
        UniqueSame(s.table, t);
        UniqueWithout(t, k);
      }
    case TimedOut(fd) => TimeoutUnique(s, fd);
    case UserAnswered(sa, result) =>
      UserCases(s, sa, result);
      UniqueSame(s.table, Apply(s, e).table);
    case Disconnected(fd) =>
      DropTable(s, fd);
      UniqueWithout(s.table, FindFd(s.table, fd));
    case EntityChanged(_) =>
    case LineChanged(_) =>
  }

  lemma TimeoutUnique(s: Server, fd: int)
    requires Agree(s) && Unique(s.table)
    ensures Unique(AliveTimeout(s, fd).table)
  {
    TimeoutCases(s, fd);
    var s', i := AliveTimeout(s, fd), FindFd(s.table, fd);
    if i < |s.table| && s.table[i].armed {
      ShapeUnique(s, i, s');
    }
  }

  lemma ShapeUnique(s: Server, i: nat, s': Server)
    requires Unique(s.table) && i < |s.table| && TimeoutShape(s, i, s')
    ensures Unique(s'.table)
  {
    var t := s.table[i := s.table[i].(armed := false)];
    UniqueSame(s.table, t);
    UniqueWithout(t, i);
    if s'.table != Without(t, i) {
      var w: nat, x: Entry :| TookOver(s, t, w, x, i, s'.table)
        && (x.sa == t[i].sa || (x.sa == t[w].sa && !t[w].registered));
      UniqueTaken(s, t, w, x, i, s'.table);
    }
  }

  /** A run without a clashing request. */
  ghost predicate Orderly(s: Server, es: seq<Event>)
    decreases es
  {
    es != [] ==> !Clash(s, es[0]) && Orderly(Apply(s, es[0]), es[1..])
  }

  lemma {:induction false} RunUnique(s: Server, es: seq<Event>)
    requires Agree(s) && Guarded(s.cfg) && Unique(s.table) && Feasible(s, es) && Orderly(s, es)
    ensures Unique(Run(s, es).table)
    decreases es
  {
    if es != [] {
      ApplyAgrees(s, es[0]);
      UniquenessIff(s, es[0]);
      RunUnique(Apply(s, es[0]), es[1..]);
    }
  }

  /** A run in which, whenever no socket is registered, none still waits with a stored address. */
  ghost predicate NoOrphanWaiter(s: Server, es: seq<Event>)
    decreases es
  {
    && (!AnyRegistered(s.table) ==> forall j :: 0 <= j < |s.table| ==> s.table[j].sa == 0)
    && (es != [] ==> NoOrphanWaiter(Apply(s, es[0]), es[1..]))
  }

  lemma {:induction false} NoOrphanIsOrderly(s: Server, es: seq<Event>)
    requires NoOrphanWaiter(s, es) && Guarded(s.cfg) && Agree(s) && Feasible(s, es)
    ensures Orderly(s, es)
    decreases es
  {
    if es != [] {
      ApplyAgrees(s, es[0]);
      NoOrphanIsOrderly(Apply(s, es[0]), es[1..]);
    }
  }

  /** Tester addresses stay unique over every run in which no socket is still waiting on an
      all-socket check when the last registered socket goes away. */
  lemma TesterAddressesAreUnique(cfg: Config, es: seq<Event>)
    requires Guarded(cfg) && Feasible(Start(cfg), es) && NoOrphanWaiter(Start(cfg), es)
    ensures Unique(Run(Start(cfg), es).table)
  {
    assert Fds([]) == [];
    NoOrphanIsOrderly(Start(cfg), es);
    RunUnique(Start(cfg), es);
  }

  /** Addresses are unique now and after every event. */
  ghost predicate UniqueThroughout(s: Server, es: seq<Event>)
    decreases es
  {
    Unique(s.table) && (es != [] ==> UniqueThroughout(Apply(s, es[0]), es[1..]))
  }

  lemma {:induction false} ThroughoutIff(s: Server, es: seq<Event>)
    requires Agree(s) && Guarded(s.cfg) && Unique(s.table) && Feasible(s, es)
    ensures UniqueThroughout(s, es) <==> Orderly(s, es)
    decreases es
  {
    if es != [] {
      ApplyAgrees(s, es[0]);
      UniquenessIff(s, es[0]);
      if Unique(Apply(s, es[0]).table) {
        ThroughoutIff(Apply(s, es[0]), es[1..]);
      }
    }
  }

  /** Over a whole run, addresses are unique in every state exactly if no event of it clashes. */
  lemma AddressesUniqueIffOrderly(cfg: Config, es: seq<Event>)
    requires Guarded(cfg) && Feasible(Start(cfg), es)
    ensures UniqueThroughout(Start(cfg), es) <==> Orderly(Start(cfg), es)
  {
    assert Fds([]) == [];
    ThroughoutIff(Start(cfg), es);
  }

  // ---------- without the guard ----------

  ghost predicate Authorised(s: Server) {
    forall i :: 0 <= i < |s.table| && s.table[i].state == RoutingActive ==>
      s.cfg.authenInfo == 0 || s.table[i].authen == s.cfg.authenInfo
  }

  ghost predicate AlwaysAuthorised(cfg: Config) {
    forall es :: Feasible(Start(cfg), es) ==> Authorised(Run(Start(cfg), es))
  }

  const SA := 0x0E00

  function Intruder(wrong: int): seq<Event> {
    [Accepted(1), Accepted(2), Requested(1, 11, SA, 0, wrong), Requested(2, 11, SA, 0, wrong)]
  }

  /** Without the guard a second connection is activated under an address that is already held,
      unauthenticated. */
  lemma UnguardedIntrusion(cfg: Config, wrong: int)
    requires !Guarded(cfg) && 1 <= cfg.mcts <= 255 && cfg.authenInfo != 0 && wrong != cfg.authenInfo
    ensures Feasible(Start(cfg), Intruder(wrong))
    ensures var s := Run(Start(cfg), Intruder(wrong));
      && !Authorised(s) && !Unique(s.table)
  {
    var e1, e2 := NewEntry(1), NewEntry(2);
    var s0 := Start(cfg);
    var s1 := Server(cfg, None, [1], [e1], 0, []);
    assert Apply(s0, Accepted(1)) == s1;
    var s2 := Server(cfg, None, [1, 2], [e1, e2], 0, []);
    assert [1] + [2] == [1, 2] && [e1] + [e2] == [e1, e2];
    assert FindFd([e1], 2) == 1;
    assert Apply(s1, Accepted(2)) == s2;
    var r1 := e1.(authen := wrong, registered := true, sa := SA, state := PendingAuth);
    var s3 := Server(cfg, None, [1, 2], [r1, e2], 0, []);
    IntruderFirst(cfg, wrong);
    IntruderSecond(cfg, wrong);
    var r2 := e2.(authen := wrong, registered := true, sa := SA, state := RoutingActive);
    var s4 := Server(cfg, None, [1, 2], [r1, r2], 0, []);
    var es := Intruder(wrong);
    RunFour(s0, es, s1, s2, s3, s4);
    assert s4.table[1].state == RoutingActive;
    assert s4.table[0].sa == s4.table[1].sa;
  }

  lemma RunFour(s0: Server, es: seq<Event>, s1: Server, s2: Server, s3: Server, s4: Server)
    requires |es| == 4
    requires Apply(s0, es[0]) == s1 && Apply(s1, es[1]) == s2 && Apply(s2, es[2]) == s3 && Apply(s3, es[3]) == s4
    requires Possible(s0, es[0]) && Possible(s1, es[1]) && Possible(s2, es[2]) && Possible(s3, es[3])
    ensures Run(s0, es) == s4 && Feasible(s0, es)
  {
    var a, b, c := es[1..], es[1..][1..], es[1..][1..][1..];
    assert a[0] == es[1] && b[0] == es[2] && c[0] == es[3] && c[1..] == [];
    assert Run(s3, c) == s4 && Feasible(s3, c);
    assert Run(s2, b) == s4 && Feasible(s2, b);
    assert Run(s1, a) == s4 && Feasible(s1, a);
  }

  lemma IntruderFirst(cfg: Config, wrong: int)
    requires !Guarded(cfg)
    ensures Apply(Server(cfg, None, [1, 2], [NewEntry(1), NewEntry(2)], 0, []), Requested(1, 11, SA, 0, wrong))
         == Server(cfg, None, [1, 2],
                   [NewEntry(1).(authen := wrong, registered := true, sa := SA, state := PendingAuth), NewEntry(2)], 0, [])
  {
    var t := [NewEntry(1), NewEntry(2)];
    assert t[0 := NewEntry(1).(authen := wrong)] == [NewEntry(1).(authen := wrong), NewEntry(2)];
    assert !AnyRegistered([NewEntry(1).(authen := wrong), NewEntry(2)]);
  }

  lemma IntruderSecond(cfg: Config, wrong: int)
    requires !Guarded(cfg)
    ensures var r1 := NewEntry(1).(authen := wrong, registered := true, sa := SA, state := PendingAuth);
      Apply(Server(cfg, None, [1, 2], [r1, NewEntry(2)], 0, []), Requested(2, 11, SA, 0, wrong))
      == Server(cfg, None, [1, 2],
                [r1, NewEntry(2).(authen := wrong, registered := true, sa := SA, state := RoutingActive)], 0, [])
  {
    var r1 := NewEntry(1).(authen := wrong, registered := true, sa := SA, state := PendingAuth);
    var t := [r1, NewEntry(2)];
    var u := t[1 := NewEntry(2).(authen := wrong)];
    assert FindFd(t, 2) == 1;
    assert u[0].registered;
    assert FindSa(u, SA) == 0;
  }

  /** When authentication is configured, only authenticated connections ever become active if and
      only if the handler is guarded. */
  lemma AuthorityIffGuarded(cfg: Config)
    requires 1 <= cfg.mcts <= 255 && cfg.authenInfo != 0
    ensures AlwaysAuthorised(cfg) <==> Guarded(cfg)
  {
    if Guarded(cfg) {
      forall es | Feasible(Start(cfg), es) ensures Authorised(Run(Start(cfg), es)) {
        ActiveMeansAuthorised(cfg, es);
      }
    } else {
      UnguardedIntrusion(cfg, cfg.authenInfo + 1);
    }
  }
}
