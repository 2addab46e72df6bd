/** What every event keeps true of the connection table, over all runs. */
module RoutingInvariants {
  import opened Wrappers
  import opened Routing

  // ---------- the table as a list ----------

  lemma {:induction false} CountConcat(a: seq<Entry>, b: seq<Entry>)
    ensures RegisteredCount(a + b) == RegisteredCount(a) + RegisteredCount(b)
  {
    if a == [] {
      assert a + b == b;
    } else {
      assert (a + b)[1..] == a[1..] + b;
      CountConcat(a[1..], b);
    }
  }

  function Bit(b: bool): nat { if b then 1 else 0 }

  lemma {:induction false} CountSplit(t: seq<Entry>, i: nat)
    requires i < |t|
    ensures RegisteredCount(t) == RegisteredCount(t[..i]) + Bit(t[i].registered) + RegisteredCount(t[i + 1..])
  {
    if i > 0 {
      CountSplit(t[1..], i - 1);
      assert t[1..][..i - 1] == t[..i][1..] && t[1..][i..] == t[i + 1..];
    }
  }

  lemma CountPut(t: seq<Entry>, i: nat, e: Entry)
    requires i < |t|
    ensures RegisteredCount(t[i := e]) + Bit(t[i].registered) == RegisteredCount(t) + Bit(e.registered)
  {
    CountSplit(t, i);
    CountSplit(t[i := e], i);
    assert t[i := e][..i] == t[..i] && t[i := e][i + 1..] == t[i + 1..];
  }

  lemma CountWithout(t: seq<Entry>, i: nat)
    requires i < |t|
    ensures RegisteredCount(Without(t, i)) + Bit(t[i].registered) == RegisteredCount(t)
  {
    CountSplit(t, i);
    CountConcat(t[..i], t[i + 1..]);
  }

  lemma {:induction false} CountBound(t: seq<Entry>)
    ensures RegisteredCount(t) <= |t|
    ensures AnyRegistered(t) <==> RegisteredCount(t) > 0
  {
    if t != [] {
      CountBound(t[1..]);
      if AnyRegistered(t[1..]) {
        var i :| 0 <= i < |t[1..]| && t[1..][i].registered;
        assert t[i + 1].registered;
      }
      if i :| 0 <= i < |t| && t[i].registered {
        if i > 0 {
          assert t[1..][i - 1].registered;
        }
      }
    }
  }

  lemma {:induction false} CountAskAll(t: seq<Entry>, sa: int)
    ensures RegisteredCount(AskAll(t, sa)) == RegisteredCount(t)
  {
    if t != [] {
      assert AskAll(t, sa)[1..] == AskAll(t[1..], sa);
      CountAskAll(t[1..], sa);
    }
  }

  // ---------- clients and table entries go together ----------

  /** The client list and the table hold the same connections in the same order, each once. */
  ghost predicate Agree(s: Server) {
    && s.clients == Fds(s.table)
    && forall i, j :: 0 <= i < j < |s.table| ==> s.table[i].fd != s.table[j].fd
  }

  lemma {:induction false} FindAgree(t: seq<Entry>, fd: int)
    ensures FindInt(Fds(t), fd) == FindFd(t, fd)
  {
    if t != [] {
      assert Fds(t)[1..] == Fds(t[1..]);
      FindAgree(t[1..], fd);
    }
  }

  lemma FindOwn(s: Server, i: nat)
    requires Agree(s) && i < |s.table|
    ensures FindFd(s.table, s.table[i].fd) == i
  {
  }

  lemma DropTable(s: Server, fd: int)
    requires Agree(s)
    ensures var s' := Drop(s, fd);
      && s' == s.(clients := s'.clients, table := Without(s.table, FindFd(s.table, fd)))
      && Agree(s')
  {
    FindAgree(s.table, fd);
    var i := FindFd(s.table, fd);
    if i < |s.table| {
      assert Fds(Without(s.table, i)) == Without(Fds(s.table), i);
    }
  }

  lemma RespondTable(s: Server, fd: int, sa: int, code: int)
    ensures Respond(s, fd, sa, code) == s.(out := Respond(s, fd, sa, code).out)
  {
  }

  lemma PutAgrees(s: Server, i: nat, e: Entry)
    requires Agree(s) && i < |s.table| && e.fd == s.table[i].fd
    ensures Agree(Put(s, i, e)) && Fds(Put(s, i, e).table) == Fds(s.table)
  {
    assert Fds(Put(s, i, e).table) == Fds(s.table);
  }

  /** Authentication and confirmation change only an entry's progress, and grant it honestly. */
  ghost predicate Progressed(s: Server, e: Entry, e': Entry, authen: int) {
    && e' == e.(state := e'.state, registered := e'.registered)
    && (e.registered ==> e'.registered)
    && e'.state != Initialized
    && (e'.state != PendingAuth ==> s.entity.Some? && Matches(s.cfg, authen))
    && (e'.state == RoutingActive ==> e'.registered && !s.entity.value.confirmation)
  }

  /** Only entry i and the output differ. */
  ghost predicate OnlyEntry(s: Server, i: nat, s': Server)
    requires i < |s.table|
  {
    |s'.table| == |s.table| && s' == s.(table := s.table[i := s'.table[i]], out := s'.out)
  }

  lemma CheckConfTable(s: Server, i: nat, entity: Entity, authen: int)
    requires i < |s.table| && s.entity == Some(entity) && Matches(s.cfg, authen)
    ensures var s' := CheckConf(s, i, entity);
      OnlyEntry(s, i, s') && Progressed(s, s.table[i], s'.table[i], authen)
  {
  }

  lemma CheckAuthTable(s: Server, i: nat, authen: int)
    requires Agree(s) && i < |s.table|
    ensures var s' := CheckAuth(s, s.table[i].fd, authen);
      OnlyEntry(s, i, s') && Progressed(s, s.table[i], s'.table[i], authen)
    ensures Agree(CheckAuth(s, s.table[i].fd, authen))
  {
    hide CheckConf;
    FindOwn(s, i);
    var s' := CheckAuth(s, s.table[i].fd, authen);
    var e := s.table[i].(state := PendingAuth);
    if s.entity.Some? && Matches(s.cfg, authen) {
      CheckConfTable(Put(s, i, e), i, s.entity.value, authen);
    } else {
      RespondTable(Put(s, i, e), e.fd, e.sa, MISSING_AUTH);
    }
    PutAgrees(s, i, s'.table[i]);
  }

  /** Progress that only authentication and confirmation can give. */
  predicate Granted(cfg: Config, e: Entry) {
    && (e.state != Initialized ==> e.registered)
    && (e.state == PendingConf || e.state == RoutingActive ==> Matches(cfg, e.authen))
  }

  /** A connection that has just been through authentication. */
  predicate Admitted(s: Server, e: Entry) {
    && e.registered && Granted(s.cfg, e)
    && (e.state == RoutingActive ==> s.entity.Some? && !s.entity.value.confirmation)
  }

  lemma TakeOverTable(s: Server, w: nat, sa: int)
    requires Agree(s) && w < |s.table|
    ensures var s' := TakeOver(s, w, sa);
      && OnlyEntry(s, w, s')
      && s'.table[w].fd == s.table[w].fd && s'.table[w].sa == sa
      && Admitted(s, s'.table[w])
    ensures Agree(TakeOver(s, w, sa))
  {
    var e := s.table[w].(sa := sa, registered := true, state := RoutingActive);
    PutAgrees(s, w, e);
    CheckAuthTable(Put(s, w, e), w, e.authen);
  }

  // ---------- the decision, case by case ----------

  /** What can come out of the decision for connection i. */
  ghost predicate Decided(s: Server, i: nat, sa: int, s': Server)
    requires i < |s.table|
  {
    var e := s.table[i];
    if !AnyRegistered(s.table) || (!e.registered && FindSa(s.table, sa) == |s.table|
                                   && RegisteredCount(s.table) % 256 != s.cfg.mcts) then
      // registered under sa
      && OnlyEntry(s, i, s')
      && s'.table[i].fd == e.fd && s'.table[i].sa == sa && Admitted(s, s'.table[i])
    else if e.registered && sa == e.sa then
      && OnlyEntry(s, i, s')
      && s'.table[i].fd == e.fd && s'.table[i].sa == sa && Admitted(s, s'.table[i])
    else if e.registered then
      s' == s.(clients := s'.clients, table := Without(s.table, i), out := s'.out)
    else
      var o := FindSa(s.table, sa);
      if o < |s.table| then
        // a single alive check is pending on the other holder of sa
        s' == s.(table := s.table[o := s.table[o].(routingFd := e.fd, singleAlive := true, armed := true)], out := s'.out)
      else
        // all sockets are taken: everybody is asked
        s' == s.(table := AskAll(s.table[i := e.(sa := sa)], sa), out := s'.out)
  }

  lemma DecideCases(s: Server, i: nat, sa: int, authen: int)
    requires Agree(s) && Guarded(s.cfg) && i < |s.table| && s.table[i].authen == authen
    ensures Decided(s, i, sa, Decide(s, i, sa, authen))
    ensures Agree(Decide(s, i, sa, authen))
  {
    var e := s.table[i];
    FindOwn(s, i);
    if !AnyRegistered(s.table) {
      DecideRegisters(s, i, sa, authen);
    } else if e.registered {
      if sa == e.sa {
        CheckAuthTable(s, i, authen);
      } else {
        RespondTable(s, e.fd, sa, SA_DIFFERENT);
        DropTable(Respond(s, e.fd, sa, SA_DIFFERENT), e.fd);
      }
    } else if FindSa(s.table, sa) < |s.table| {
      var o := FindSa(s.table, sa);
      PutAgrees(s, o, s.table[o].(routingFd := e.fd, singleAlive := true, armed := true));
    } else if RegisteredCount(s.table) % 256 == s.cfg.mcts {
      PutAgrees(s, i, e.(sa := sa));
      assert Fds(AskAll(s.table[i := e.(sa := sa)], sa)) == Fds(s.table[i := e.(sa := sa)]);
    } else {
      DecideRegisters(s, i, sa, authen);
    }
  }

  lemma DecideRegisters(s: Server, i: nat, sa: int, authen: int)
    requires Agree(s) && i < |s.table| && s.table[i].authen == authen
    ensures var e := s.table[i];
      var s' := CheckAuth(Put(s, i, e.(registered := true, sa := sa)), e.fd, authen);
      && Agree(s')
      && OnlyEntry(s, i, s')
      && s'.table[i].fd == e.fd && s'.table[i].sa == sa && Admitted(s, s'.table[i])
  {
    var e := s.table[i].(registered := true, sa := sa);
    PutAgrees(s, i, e);
    CheckAuthTable(Put(s, i, e), i, authen);
  }

  /** A request reaches the decision. */
  predicate Reaches(s: Server, fd: int, length: int, sa: int, kind: int) {
    && (length == 7 || length == 11) && KnownSa(s.cfg, sa) && !(0x02 <= kind <= 0xDF)
    && FindFd(s.table, fd) < |s.table|
  }

  function Prepared(s: Server, fd: int, length: int, info: int): Server
    requires FindFd(s.table, fd) < |s.table|
  {
    var i := FindFd(s.table, fd);
    Put(s, i, s.table[i].(authen := if length == 11 then info else 0))
  }

  lemma RequestCases(s: Server, fd: int, length: int, sa: int, kind: int, info: int)
    requires Agree(s) && Guarded(s.cfg)
    ensures var s' := Request(s, fd, length, sa, kind, info);
      && Agree(s')
      && if Reaches(s, fd, length, sa, kind) then
           Decided(Prepared(s, fd, length, info), FindFd(s.table, fd), sa, s')
         else
           || s' == s.(out := s'.out)
           || s' == s.(clients := s'.clients, table := Without(s.table, FindFd(s.table, fd)), out := s'.out)
  {
    if length != 7 && length != 11 {
    } else if !KnownSa(s.cfg, sa) {
      DropTable(Respond(s, fd, sa, UNKNOWN_SA), fd);
    } else if 0x02 <= kind <= 0xDF {
      DropTable(Respond(s, fd, sa, UNSUPPORTED), fd);
    } else if FindFd(s.table, fd) < |s.table| {
      var p := Prepared(s, fd, length, info);
      var i := FindFd(s.table, fd);
      PutAgrees(s, i, p.table[i]);
      DecideCases(p, i, sa, if length == 11 then info else 0);
    }
  }

  // ---------- the other events, case by case ----------

  /** An answer clears marks of the answering entry and may close one connection. */
  ghost predicate AnswerShape(s: Server, sa: int, s': Server) {
    var i := FindSa(s.table, sa);
    if i == |s.table| then s'.table == s.table && s'.cfg == s.cfg
    else
      && s'.cfg == s.cfg
      && exists all: bool, single: bool, k: nat :: Marked(s.table, i, all, single, k, s'.table)
  }

  ghost predicate Marked(t: seq<Entry>, i: nat, all: bool, single: bool, k: nat, t': seq<Entry>) {
    i < |t| && t' == Without(t[i := t[i].(armed := false, allAlive := all, singleAlive := single)], k)
  }

  lemma CountAnswerCases(s: Server, i: nat) returns (k: nat)
    requires Agree(s) && i < |s.table|
    ensures var s' := CountAnswer(s, i);
      Agree(s') && s'.cfg == s.cfg && s'.table == Without(s.table[i := s.table[i].(allAlive := false)], k)
  {
    var e := s.table[i];
    var s1 := Put(s, i, e.(allAlive := false));
    PutAgrees(s, i, e.(allAlive := false));
    k := |s1.table|;
    var w := FindSa(s1.table, e.routingSa);
    if (s.ncts + 1) % 256 == s.cfg.mcts && w < |s1.table| && !s1.table[w].registered {
      DropTable(Respond(s1.(ncts := 0), s1.table[w].fd, e.routingSa, ALL_REGISTERED), s1.table[w].fd);
      FindOwn(s1, w);
      k := w;
    }
  }

  lemma RefuseRivalCases(s: Server, i: nat, sa: int) returns (k: nat)
    requires Agree(s) && i < |s.table|
    ensures var s' := RefuseRival(s, i, sa);
      Agree(s') && s'.cfg == s.cfg && s'.table == Without(s.table[i := s.table[i].(singleAlive := false)], k)
  {
    var e := s.table[i];
    var s1 := Put(s, i, e.(singleAlive := false));
    PutAgrees(s, i, e.(singleAlive := false));
    DropTable(Respond(s1, e.routingFd, sa, SA_ELSEWHERE), e.routingFd);
    k := FindFd(s1.table, e.routingFd);
  }

  lemma AnswerCases(s: Server, fd: int, length: int, sa: int)
    requires Agree(s)
    ensures Agree(AliveAnswer(s, fd, length, sa))
    ensures var s' := AliveAnswer(s, fd, length, sa); s'.cfg == s.cfg && (s'.table == s.table || AnswerShape(s, sa, s'))
  {
    var i := FindSa(s.table, sa);
    if length == 2 && i < |s.table| {
      var e := s.table[i].(armed := false);
      var s1 := Put(s, i, e);
      PutAgrees(s, i, e);
      if e.allAlive {
        var k := CountAnswerCases(s1, i);
        assert s1.table[i := e.(allAlive := false)] == s.table[i := e.(allAlive := false)];
        assert Marked(s.table, i, false, e.singleAlive, k, CountAnswer(s1, i).table);
      } else if e.singleAlive {
        var k := RefuseRivalCases(s1, i, sa);
        assert s1.table[i := e.(singleAlive := false)] == s.table[i := e.(singleAlive := false)];
        assert Marked(s.table, i, e.allAlive, false, k, RefuseRival(s1, i, sa).table);
      } else {
        assert Marked(s.table, i, e.allAlive, e.singleAlive, |s.table|, s1.table);
      }
    }
  }

  /** A timeout removes the silent connection, after another may have taken over an address. */
  ghost predicate TimeoutShape(s: Server, i: nat, s': Server)
    requires i < |s.table|
  {
    var e := s.table[i].(armed := false);
    var t := s.table[i := e];
    || s'.table == Without(t, i)
    || (exists w: nat, x: Entry ::
          && TookOver(s, t, w, x, i, s'.table)
          && (x.sa == e.sa || (x.sa == t[w].sa && !t[w].registered)))
  }

  /** Entry w became x, then entry i was removed. */
  ghost predicate TookOver(s: Server, t: seq<Entry>, w: nat, x: Entry, i: nat, t': seq<Entry>) {
    w < |t| && x.fd == t[w].fd && Admitted(s, x) && t' == Without(t[w := x], i)
  }

  lemma TimeoutCases(s: Server, fd: int)
    requires Agree(s)
    ensures var s' := AliveTimeout(s, fd);
      var i := FindFd(s.table, fd);
      && Agree(s') && s'.cfg == s.cfg
      && if i < |s.table| && s.table[i].armed then TimeoutShape(s, i, s') else s' == s
  {
    var i := FindFd(s.table, fd);
    if i < |s.table| && s.table[i].armed {
      if s.table[i].singleAlive {
        SingleTimeout(s, i);
      } else {
        RoundTimeout(s, i);
      }
    }
  }

  lemma SingleTimeout(s: Server, i: nat)
    requires Agree(s) && i < |s.table| && s.table[i].armed && s.table[i].singleAlive
    ensures var s' := AliveTimeout(s, s.table[i].fd); Agree(s') && s'.cfg == s.cfg && TimeoutShape(s, i, s')
  {
    FindOwn(s, i);
    var s1 := Put(s, i, s.table[i].(armed := false));
    var e := s1.table[i];
    PutAgrees(s, i, e);
    FindOwn(s1, i);
    var w := FindFd(s1.table, e.routingFd);
    if w < |s1.table| {
      var x := TakeOverAndDrop(s1, w, e.sa, i);
      assert TookOver(s, s1.table, w, x, i, AliveTimeout(s, e.fd).table);
    } else {
      DropTable(s1, e.fd);
    }
  }

  lemma RoundTimeout(s: Server, i: nat)
    requires Agree(s) && i < |s.table| && s.table[i].armed && !s.table[i].singleAlive
    ensures var s' := AliveTimeout(s, s.table[i].fd); Agree(s') && s'.cfg == s.cfg && TimeoutShape(s, i, s')
  {
    FindOwn(s, i);
    var s1 := Put(s, i, s.table[i].(armed := false));
    var e := s1.table[i];
    PutAgrees(s, i, e);
    FindOwn(s1, i);
    var s2 := s1.(ncts := Counted(s1));
    var w := FindSa(s2.table, e.routingSa);
    if w < |s2.table| && !s2.table[w].registered {
      var x := TakeOverAndDrop(s2, w, e.routingSa, i);
      assert TookOver(s, s1.table, w, x, i, AliveTimeout(s, e.fd).table);
    } else {
      DropTable(s2, e.fd);
    }
  }

  lemma TakeOverAndDrop(s: Server, w: nat, sa: int, i: nat) returns (x: Entry)
    requires Agree(s) && w < |s.table| && i < |s.table|
    ensures var s' := Drop(TakeOver(s, w, sa), s.table[i].fd);
      && Agree(s') && s'.cfg == s.cfg
      && TookOver(s, s.table, w, x, i, s'.table) && x.sa == sa
  {
    TakeOverTable(s, w, sa);
    var s1 := TakeOver(s, w, sa);
    DropTable(s1, s.table[i].fd);
    FindOwn(s1, i);
    assert s1.table[i].fd == s.table[i].fd;
    x := s1.table[w];
    assert TookOver(s, s.table, w, x, i, Drop(s1, s.table[i].fd).table);
  }

  /** A user's answer can only promote the pending connection it names, and only if positive. */
  lemma UserCases(s: Server, sa: int, result: int)
    requires Agree(s)
    ensures var s' := UserAnswer(s, sa, result);
      var i := FindSa(s.table, sa);
      && Agree(s')
      && (|| s' == s.(out := s'.out)
          || (&& i < |s.table| && s.table[i].state == PendingConf && (result == 1 || result == 2)
              && s' == s.(table := s.table[i := s.table[i].(state := RoutingActive, registered := true)],
                          out := s'.out)))
  {
    var i := FindSa(s.table, sa);
    if i < |s.table| {
      PutAgrees(s, i, s.table[i].(state := RoutingActive, registered := true));
    }
  }

  lemma AcceptAgrees(s: Server, fd: int)
    requires Agree(s) && Possible(s, Accepted(fd))
    ensures Agree(Accept(s, fd))
  {
    assert Fds(s.table + [NewEntry(fd)]) == Fds(s.table) + [fd];
  }

  lemma ApplyAgrees(s: Server, e: Event)
    requires Agree(s) && Guarded(s.cfg) && Possible(s, e)
    ensures Agree(Apply(s, e)) && Guarded(Apply(s, e).cfg) && Apply(s, e).cfg.mcts == s.cfg.mcts
  {
    match e
    case Accepted(fd) => AcceptAgrees(s, fd);
    case Requested(fd, length, sa, kind, info) => RequestCases(s, fd, length, sa, kind, info);
    case Answered(fd, length, sa) => AnswerCases(s, fd, length, sa);
    case TimedOut(fd) => TimeoutCases(s, fd);
    case UserAnswered(sa, result) => UserCases(s, sa, result);
    case Disconnected(fd) => DropTable(s, fd);
    case EntityChanged(_) =>
    case LineChanged(_) =>
  }
}
