/** The promises of the connection table over all runs, and exactly where they end. */
module RoutingTheorems {
  import opened Wrappers
  import opened Routing
  import opened RoutingInvariants

  // ---------- activation authority ----------

  ghost predicate AllGranted(s: Server) {
    forall i :: 0 <= i < |s.table| ==> Granted(s.cfg, s.table[i])
  }

  lemma WithoutGranted(cfg: Config, t: seq<Entry>, k: nat)
    requires forall i :: 0 <= i < |t| ==> Granted(cfg, t[i])
    ensures forall i :: 0 <= i < |Without(t, k)| ==> Granted(cfg, Without(t, k)[i])
  {
  }

  lemma RequestGranted(s: Server, fd: int, length: int, sa: int, kind: int, info: int)
    requires Agree(s) && Guarded(s.cfg) && AllGranted(s)
    ensures AllGranted(Request(s, fd, length, sa, kind, info))
  {
    RequestCases(s, fd, length, sa, kind, info);
    if Reaches(s, fd, length, sa, kind) {
      DecidedGranted(s, fd, length, sa, info, Request(s, fd, length, sa, kind, info));
    } else {
      WithoutGranted(s.cfg, s.table, FindFd(s.table, fd));
    }
  }

  lemma DecidedGranted(s: Server, fd: int, length: int, sa: int, info: int, s': Server)
    requires Agree(s) && AllGranted(s) && FindFd(s.table, fd) < |s.table|
    requires Decided(Prepared(s, fd, length, info), FindFd(s.table, fd), sa, s')
    ensures AllGranted(s')
  {
    var p, i := Prepared(s, fd, length, info), FindFd(s.table, fd);
    var e := p.table[i];
    if e.registered && AnyRegistered(p.table) && sa != e.sa {
      forall j | 0 <= j < |s'.table| ensures Granted(s'.cfg, s'.table[j]) {
        assert s'.table[j] == s.table[if j < i then j else j + 1];
      }
    } else if !e.registered {
      // a connection that is not registered has made no progress
      assert Granted(p.cfg, e);
      assert AllGranted(p);
      if AnyRegistered(p.table) {
        UnregisteredDecided(p, i, sa, s');
      }
    } else {
      assert AnyRegistered(p.table);
    }
  }

  lemma UnregisteredDecided(p: Server, i: nat, sa: int, s': Server)
    requires AllGranted(p) && i < |p.table| && !p.table[i].registered && AnyRegistered(p.table)
    requires Decided(p, i, sa, s')
    ensures AllGranted(s')
  {
    var o := FindSa(p.table, sa);
    if o < |p.table| {
      assert Granted(p.cfg, p.table[o]);
    } else if RegisteredCount(p.table) % 256 == p.cfg.mcts {
      var t := p.table[i := p.table[i].(sa := sa)];
      forall j | 0 <= j < |t| ensures Granted(p.cfg, AskAll(t, sa)[j]) {
        assert Granted(p.cfg, p.table[j]);
      }
    }
  }

  lemma ApplyGranted(s: Server, e: Event)
    requires Agree(s) && Guarded(s.cfg) && Possible(s, e) && AllGranted(s)
    ensures AllGranted(Apply(s, e))
  {
    match e
    case Accepted(fd) =>
    case Requested(fd, length, sa, kind, info) => RequestGranted(s, fd, length, sa, kind, info);
    case Answered(fd, length, sa) => AnswerGranted(s, fd, length, sa);
    case TimedOut(fd) => TimeoutGranted(s, fd);
    case UserAnswered(sa, result) => UserCases(s, sa, result);
    case Disconnected(fd) =>
      DropTable(s, fd);
      WithoutGranted(s.cfg, s.table, FindFd(s.table, fd));
    case EntityChanged(_) =>
    case LineChanged(active) =>
      forall i | 0 <= i < |s.table|
        ensures Granted(s.cfg.(activationLine := active), s.table[i])
      {
        assert Granted(s.cfg, s.table[i]);
      }
  }

  lemma AnswerGranted(s: Server, fd: int, length: int, sa: int)
    requires Agree(s) && AllGranted(s)
    ensures AllGranted(AliveAnswer(s, fd, length, sa))
  {
    AnswerCases(s, fd, length, sa);
    var s' := AliveAnswer(s, fd, length, sa);
    var i := FindSa(s.table, sa);
    if s'.table != s.table {
      var all: bool, single: bool, k: nat :| Marked(s.table, i, all, single, k, s'.table);
      WithoutGranted(s.cfg, s.table[i := s.table[i].(armed := false, allAlive := all, singleAlive := single)], k);
    }
  }

  lemma TimeoutGranted(s: Server, fd: int)
    requires Agree(s) && AllGranted(s)
    ensures AllGranted(AliveTimeout(s, fd))
  {
    TimeoutCases(s, fd);
    var s' := AliveTimeout(s, fd);
    var i := FindFd(s.table, fd);
    if i < |s.table| && s.table[i].armed {
      var t := s.table[i := s.table[i].(armed := false)];
      WithoutGranted(s.cfg, t, i);
      if s'.table != Without(t, i) {
        var w: nat, x: Entry :| TookOver(s, t, w, x, i, s'.table);
        WithoutGranted(s.cfg, t[w := x], i);
      }
    }
  }

  ghost predicate ActiveFd(s: Server, fd: int) {
    exists i :: 0 <= i < |s.table| && s.table[i].fd == fd && s.table[i].state == RoutingActive
  }

  ghost predicate PendingFd(s: Server, fd: int) {
    exists i :: 0 <= i < |s.table| && s.table[i].fd == fd && s.table[i].state == PendingConf
  }

  /** The only two ways in which a connection may become active: a positive user answer while its
      confirmation is pending, or an authentication while no confirmation is required. */
  ghost predicate Legitimate(s: Server, e: Event, fd: int) {
    if e.UserAnswered? then (e.result == 1 || e.result == 2) && PendingFd(s, fd)
    else (e.Requested? || e.TimedOut?) && s.entity.Some? && !s.entity.value.confirmation
  }

  /** An entry of the old table witnesses that fd was active already. */
  lemma WasActive(s: Server, k: nat, fd: int)
    requires k < |s.table| && s.table[k].fd == fd && s.table[k].state == RoutingActive
    ensures ActiveFd(s, fd)
  {
  }

  lemma RequestActivates(s: Server, f: int, length: int, sa: int, kind: int, info: int, j: nat)
    requires Agree(s) && Guarded(s.cfg)
    requires var s' := Request(s, f, length, sa, kind, info);
      j < |s'.table| && s'.table[j].state == RoutingActive
    ensures (s.entity.Some? && !s.entity.value.confirmation)
      || ActiveFd(s, Request(s, f, length, sa, kind, info).table[j].fd)
  {
    RequestCases(s, f, length, sa, kind, info);
    var s' := Request(s, f, length, sa, kind, info);
    var i, fd := FindFd(s.table, f), s'.table[j].fd;
    if !Reaches(s, f, length, sa, kind) {
      WasActive(s, if s'.table == s.table || j < i then j else j + 1, fd);
    } else if s.entity.None? || s.entity.value.confirmation {
      var p := Prepared(s, f, length, info);
      var k := DecidedActivates(p, i, sa, s', j);
      WasActive(s, k, fd);
    }
  }

  lemma DecidedActivates(p: Server, i: nat, sa: int, s': Server, j: nat) returns (k: nat)
    requires i < |p.table| && Decided(p, i, sa, s')
    requires j < |s'.table| && s'.table[j].state == RoutingActive
    requires p.entity.None? || p.entity.value.confirmation
    ensures k < |p.table| && p.table[k].fd == s'.table[j].fd && p.table[k].state == RoutingActive
  {
    k := if |s'.table| == |p.table| || j < i then j else j + 1;
  }

  lemma TimeoutActivates(s: Server, f: int, j: nat)
    requires Agree(s)
    requires var s' := AliveTimeout(s, f); j < |s'.table| && s'.table[j].state == RoutingActive
    ensures (s.entity.Some? && !s.entity.value.confirmation) || ActiveFd(s, AliveTimeout(s, f).table[j].fd)
  {
    TimeoutCases(s, f);
    var s', i := AliveTimeout(s, f), FindFd(s.table, f);
    if i < |s.table| && s.table[i].armed {
      ShapeActivates(s, i, s', j);
    } else {
      WasActive(s, j, s'.table[j].fd);
    }
  }

  lemma ShapeActivates(s: Server, i: nat, s': Server, j: nat)
    requires i < |s.table| && TimeoutShape(s, i, s') && j < |s'.table| && s'.table[j].state == RoutingActive
    ensures (s.entity.Some? && !s.entity.value.confirmation) || ActiveFd(s, s'.table[j].fd)
  {
    var t := s.table[i := s.table[i].(armed := false)];
    var l, fd := if j < i then j else j + 1, s'.table[j].fd;
    if s'.table == Without(t, i) {
      WasActive(s, l, fd);
    } else {
      var w: nat, x: Entry :| TookOver(s, t, w, x, i, s'.table);
      TakenActive(s, t, w, x, i, s'.table, j);
      if l != w {
        WasActive(s, l, fd);
      }
    }
  }

  lemma TakenActive(s: Server, t: seq<Entry>, w: nat, x: Entry, i: nat, t': seq<Entry>, j: nat)
    requires TookOver(s, t, w, x, i, t') && i < |t| && j < |t'| && t'[j].state == RoutingActive
    ensures var l := if j < i then j else j + 1;
      && l < |t|
      && if l == w then s.entity.Some? && !s.entity.value.confirmation
         else t[l] == t'[j]
  {
  }

  lemma AnswerActivates(s: Server, f: int, length: int, sa: int, j: nat)
    requires Agree(s)
    requires var s' := AliveAnswer(s, f, length, sa); j < |s'.table| && s'.table[j].state == RoutingActive
    ensures ActiveFd(s, AliveAnswer(s, f, length, sa).table[j].fd)
  {
    AnswerCases(s, f, length, sa);
    var s', i := AliveAnswer(s, f, length, sa), FindSa(s.table, sa);
    if s'.table != s.table {
      var all: bool, single: bool, k: nat :| Marked(s.table, i, all, single, k, s'.table);
      MarkedKeeps(s.table, i, all, single, k, s'.table, j);
      WasActive(s, if j < k then j else j + 1, s'.table[j].fd);
    } else {
      WasActive(s, j, s'.table[j].fd);
    }
  }

  lemma MarkedKeeps(t: seq<Entry>, i: nat, all: bool, single: bool, k: nat, t': seq<Entry>, j: nat)
    requires Marked(t, i, all, single, k, t') && j < |t'|
    ensures var l := if j < k then j else j + 1;
      l < |t| && t[l].fd == t'[j].fd && t[l].state == t'[j].state
  {
  }

  lemma UserActivates(s: Server, sa: int, result: int, j: nat)
    requires Agree(s)
    requires var s' := UserAnswer(s, sa, result); j < |s'.table| && s'.table[j].state == RoutingActive
    ensures var s', e := UserAnswer(s, sa, result), UserAnswered(sa, result);
      ActiveFd(s, s'.table[j].fd) || Legitimate(s, e, s'.table[j].fd)
  {
    UserCases(s, sa, result);
    var s' := UserAnswer(s, sa, result);
    if s'.table == s.table || FindSa(s.table, sa) != j {
      WasActive(s, j, s'.table[j].fd);
    } else {
      assert s.table[j].fd == s'.table[j].fd && s.table[j].state == PendingConf;
    }
  }

  /** No event activates a connection in any other way; taking over an address is no exception. */
  lemma ActivationIsLegitimate(s: Server, e: Event, fd: int)
    requires Agree(s) && Guarded(s.cfg) && Possible(s, e)
    requires ActiveFd(Apply(s, e), fd)
    ensures Legitimate(s, e, fd) || ActiveFd(s, fd)
  {
    var s' := Apply(s, e);
    var j: nat :| j < |s'.table| && s'.table[j].fd == fd && s'.table[j].state == RoutingActive;
    match e
    case Accepted(f) => WasActive(s, j, fd);
    case Requested(f, length, sa, kind, info) => RequestActivates(s, f, length, sa, kind, info, j);
    case Answered(f, length, sa) => AnswerActivates(s, f, length, sa, j);
    case TimedOut(f) => TimeoutActivates(s, f, j);
    case UserAnswered(sa, result) => UserActivates(s, sa, result, j);
    case Disconnected(f) =>
      DropTable(s, f);
      WasActive(s, if j < FindFd(s.table, f) then j else j + 1, fd);
    case EntityChanged(_) => WasActive(s, j, fd);
    case LineChanged(_) => WasActive(s, j, fd);
  }

  // ---------- the socket bound ----------

  ghost predicate Bounded(s: Server) {
    |s.table| <= s.cfg.mcts + 1 && RegisteredCount(s.table) <= s.cfg.mcts
  }

  lemma ApplyBounded(s: Server, e: Event)
    requires Agree(s) && Guarded(s.cfg) && Possible(s, e) && AllGranted(s)
    requires 1 <= s.cfg.mcts <= 254 && Bounded(s)
    ensures Bounded(Apply(s, e))
  {
    match e
    case Accepted(fd) =>
      CountConcat(s.table, [NewEntry(fd)]);
      assert [NewEntry(fd)][1..] == [];
    case Requested(fd, length, sa, kind, info) => RequestBounded(s, fd, length, sa, kind, info);
    case Answered(fd, length, sa) => AnswerBounded(s, fd, length, sa);
    case TimedOut(fd) =>
      TimeoutCases(s, fd);
      CountBound(Apply(s, e).table);
    case UserAnswered(sa, result) => UserBounded(s, sa, result);
    case Disconnected(fd) =>
      DropTable(s, fd);
      if FindFd(s.table, fd) < |s.table| {
        CountWithout(s.table, FindFd(s.table, fd));
      }
    case EntityChanged(_) =>
    case LineChanged(_) =>
  }

  lemma AnswerBounded(s: Server, fd: int, length: int, sa: int)
    requires Agree(s) && Bounded(s)
    ensures Bounded(AliveAnswer(s, fd, length, sa))
  {
    AnswerCases(s, fd, length, sa);
    var s', i := AliveAnswer(s, fd, length, sa), FindSa(s.table, sa);
    if s'.table != s.table {
      var all: bool, single: bool, k: nat :| Marked(s.table, i, all, single, k, s'.table);
      var x := s.table[i].(armed := false, allAlive := all, singleAlive := single);
      CountPut(s.table, i, x);
      if k < |s.table| {
        CountWithout(s.table[i := x], k);
      }
    }
  }

  lemma UserBounded(s: Server, sa: int, result: int)
    requires Agree(s) && AllGranted(s) && Bounded(s)
    ensures Bounded(UserAnswer(s, sa, result))
  {
    UserCases(s, sa, result);
    var s', i := UserAnswer(s, sa, result), FindSa(s.table, sa);
    if s'.table != s.table {
      assert Granted(s.cfg, s.table[i]);
      CountPut(s.table, i, s'.table[i]);
    }
  }

  lemma RequestBounded(s: Server, fd: int, length: int, sa: int, kind: int, info: int)
    requires Agree(s) && Guarded(s.cfg) && 1 <= s.cfg.mcts <= 254 && Bounded(s)
    ensures Bounded(Request(s, fd, length, sa, kind, info))
  {
    RequestCases(s, fd, length, sa, kind, info);
    var s', i := Request(s, fd, length, sa, kind, info), FindFd(s.table, fd);
    if Reaches(s, fd, length, sa, kind) {
      var p := Prepared(s, fd, length, info);
      CountPut(s.table, i, p.table[i]);
      DecidedBounded(p, i, sa, s');
    } else if i < |s.table| {
      CountWithout(s.table, i);
    }
  }

  lemma DecidedBounded(p: Server, i: nat, sa: int, s': Server)
    requires i < |p.table| && Decided(p, i, sa, s') && 1 <= p.cfg.mcts <= 254 && Bounded(p)
    ensures Bounded(s')
  {
    CountBound(p.table);
    var e, o := p.table[i], FindSa(p.table, sa);
    if |s'.table| != |p.table| {
      CountWithout(p.table, i);
    } else if AnyRegistered(p.table) && !e.registered && o < |p.table| {
      CountPut(p.table, o, s'.table[o]);
    } else if AnyRegistered(p.table) && !e.registered && RegisteredCount(p.table) % 256 == p.cfg.mcts {
      CountPut(p.table, i, e.(sa := sa));
      CountAskAll(p.table[i := e.(sa := sa)], sa);
    } else {
      CountPut(p.table, i, s'.table[i]);
    }
  }

  // ---------- runs ----------

  ghost predicate Healthy(s: Server) {
    Agree(s) && Guarded(s.cfg) && AllGranted(s)
  }

  lemma {:induction false} RunHealthy(s: Server, es: seq<Event>)
    requires Healthy(s) && Feasible(s, es)
    ensures Healthy(Run(s, es)) && Run(s, es).cfg.mcts == s.cfg.mcts
    decreases es
  {
    if es != [] {
      ApplyAgrees(s, es[0]);
      ApplyGranted(s, es[0]);
      RunHealthy(Apply(s, es[0]), es[1..]);
    }
  }

  /** In every run the client list and the table agree, every connection beyond its initial state is
      registered, and every one that is active or awaits confirmation carries accepted authentication
      information. */
  lemma ActiveMeansAuthorised(cfg: Config, es: seq<Event>)
    requires Guarded(cfg) && Feasible(Start(cfg), es)
    ensures var s := Run(Start(cfg), es);
      && Agree(s)
      && forall i :: 0 <= i < |s.table| && s.table[i].state != Initialized ==>
           && s.table[i].registered
           && (s.table[i].state != PendingAuth ==> s.cfg.authenInfo == 0 || s.table[i].authen == s.cfg.authenInfo)
  {
    assert Fds([]) == [];
    RunHealthy(Start(cfg), es);
    var s := Run(Start(cfg), es);
    assert forall i :: 0 <= i < |s.table| ==> Granted(s.cfg, s.table[i]);
  }

  /** The connection fd is active now and after every event. */
  ghost predicate ActiveThroughout(s: Server, es: seq<Event>, fd: int)
    decreases es
  {
    ActiveFd(s, fd) && (es != [] ==> ActiveThroughout(Apply(s, es[0]), es[1..], fd))
  }

  /** Some event of the run made fd active legitimately, and it has been active ever since: so it is
      still the connection of that event, though fds are reused. */
  ghost predicate ActivatedIn(s: Server, es: seq<Event>, fd: int)
    decreases es
  {
    && es != []
    && (|| (!ActiveFd(s, fd) && Legitimate(s, es[0], fd) && ActiveThroughout(Apply(s, es[0]), es[1..], fd))
        || ActivatedIn(Apply(s, es[0]), es[1..], fd))
  }

  lemma {:induction false} ActiveWasActivated(s: Server, es: seq<Event>, fd: int)
    requires Healthy(s) && Feasible(s, es) && ActiveFd(Run(s, es), fd)
    ensures ActiveThroughout(s, es, fd) || ActivatedIn(s, es, fd)
    decreases es
  {
    if es != [] {
      var s' := Apply(s, es[0]);
      ApplyAgrees(s, es[0]);
      ApplyGranted(s, es[0]);
      ActiveWasActivated(s', es[1..], fd);
      if !ActivatedIn(s', es[1..], fd) && !ActiveFd(s, fd) {
        ActivationIsLegitimate(s, es[0], fd);
      }
    }
  }

  /** In every run from the start, an active connection was at some point made active by a positive
      user answer while pending, or by authentication while no confirmation was required, and it has
      been active ever since. */
  lemma NoActivationWithoutAuthority(cfg: Config, es: seq<Event>, fd: int)
    requires Guarded(cfg) && Feasible(Start(cfg), es) && ActiveFd(Run(Start(cfg), es), fd)
    ensures ActivatedIn(Start(cfg), es, fd)
  {
    assert Fds([]) == [];
    ActiveWasActivated(Start(cfg), es, fd);
  }

  lemma {:induction false} RunBounded(s: Server, es: seq<Event>)
    requires Healthy(s) && Feasible(s, es) && 1 <= s.cfg.mcts <= 254 && Bounded(s)
    ensures Bounded(Run(s, es))
    decreases es
  {
    if es != [] {
      ApplyAgrees(s, es[0]);
      ApplyGranted(s, es[0]);
      ApplyBounded(s, es[0]);
      RunBounded(Apply(s, es[0]), es[1..]);
    }
  }

  /** Never more than mcts + 1 open and mcts registered sockets. */
  lemma SocketBound(cfg: Config, es: seq<Event>)
    requires Guarded(cfg) && 1 <= cfg.mcts <= 254 && Feasible(Start(cfg), es)
    ensures var s := Run(Start(cfg), es);
      |s.clients| == |s.table| <= cfg.mcts + 1 && RegisteredCount(s.table) <= cfg.mcts
  {
    assert Fds([]) == [];
    RunHealthy(Start(cfg), es);
    RunBounded(Start(cfg), es);
  }

  // ---------- the accept cap ----------

  /** Accept n connections with the fds from..from+n. */
  function Accepts(from: int, n: nat): seq<Event>
    decreases n
  {
    if n == 0 then [] else [Accepted(from)] + Accepts(from + 1, n - 1)
  }

  /** New connections are not turned away for the activation line. */
  predicate Listens(cfg: Config) { cfg.edgeGateway ==> cfg.activationLine }

  predicate FdsBelow(s: Server, from: int) {
    && (forall i :: 0 <= i < |s.clients| ==> s.clients[i] < from)
    && (forall i :: 0 <= i < |s.table| ==> s.table[i].fd < from)
  }

  lemma AcceptsOne(s: Server, from: int)
    requires s.cfg.mcts == 255 && Listens(s.cfg) && FdsBelow(s, from)
    ensures var s' := Accept(s, from);
      && Possible(s, Accepted(from)) && s'.cfg == s.cfg && |s'.clients| == |s.clients| + 1
      && FdsBelow(s', from + 1)
  {
  }

  lemma {:induction false} AcceptsAll(s: Server, from: int, n: nat)
    requires s.cfg.mcts == 255 && Listens(s.cfg) && FdsBelow(s, from)
    ensures Feasible(s, Accepts(from, n)) && |Run(s, Accepts(from, n)).clients| == |s.clients| + n
    decreases n
  {
    if n > 0 {
      var es, s' := Accepts(from, n), Accept(s, from);
      AcceptsOne(s, from);
      assert es[0] == Accepted(from) && Apply(s, es[0]) == s' && es[1..] == Accepts(from + 1, n - 1);
      AcceptsAll(s', from + 1, n - 1);
    }
  }

  lemma {:induction false} ClientsCapped(s: Server, es: seq<Event>)
    requires 0 <= s.cfg.mcts <= 254 && |s.clients| <= s.cfg.mcts + 1
    ensures |Run(s, es).clients| <= s.cfg.mcts + 1
    decreases es
  {
    if es != [] {
      ApplyClients(s, es[0]);
      ClientsCapped(Apply(s, es[0]), es[1..]);
    }
  }

  lemma ApplyClients(s: Server, e: Event)
    requires 0 <= s.cfg.mcts <= 254 && |s.clients| <= s.cfg.mcts + 1
    ensures |Apply(s, e).clients| <= s.cfg.mcts + 1 && Apply(s, e).cfg.mcts == s.cfg.mcts
  {
    match e
    case Requested(fd, length, sa, kind, info) => RequestClients(s, fd, length, sa, kind, info);
    case Answered(fd, length, sa) => AnswerClients(s, fd, length, sa);
    case TimedOut(fd) => TimeoutClients(s, fd);
    case UserAnswered(sa, result) => UserClients(s, sa, result);
    case Disconnected(fd) =>
    case Accepted(_) =>
    case EntityChanged(_) =>
    case LineChanged(_) =>
  }

  lemma AnswerClients(s: Server, fd: int, length: int, sa: int)
    ensures var s' := AliveAnswer(s, fd, length, sa); |s'.clients| <= |s.clients| && s'.cfg == s.cfg
  {
  }

  lemma UserClients(s: Server, sa: int, result: int)
    ensures var s' := UserAnswer(s, sa, result); s'.clients == s.clients && s'.cfg == s.cfg
  {
  }

  lemma CheckAuthClients(s: Server, fd: int, authen: int)
    ensures CheckAuth(s, fd, authen).clients == s.clients && CheckAuth(s, fd, authen).cfg == s.cfg
  {
  }

  lemma RequestClients(s: Server, fd: int, length: int, sa: int, kind: int, info: int)
    ensures var s' := Request(s, fd, length, sa, kind, info);
      |s'.clients| <= |s.clients| && s'.cfg == s.cfg
  {
    hide Decide;
    var i := FindFd(s.table, fd);
    if i < |s.table| {
      var authen := if length == 11 then info else 0;
      var p := Put(s, i, s.table[i].(authen := authen));
      DecideClients(p, i, sa, authen);
    }
  }

  lemma DecideClients(s: Server, i: nat, sa: int, authen: int)
    requires i < |s.table|
    ensures var s' := Decide(s, i, sa, authen); |s'.clients| <= |s.clients| && s'.cfg == s.cfg
  {
    var e := s.table[i];
    CheckAuthClients(Put(s, i, e.(registered := true, sa := sa)), e.fd, authen);
    CheckAuthClients(s, e.fd, authen);
  }

  lemma TakeOverClients(s: Server, w: nat, sa: int)
    requires w < |s.table|
    ensures TakeOver(s, w, sa).clients == s.clients && TakeOver(s, w, sa).cfg == s.cfg
  {
    var e := s.table[w];
    CheckAuthClients(Put(s, w, e.(sa := sa, registered := true, state := RoutingActive)), e.fd, e.authen);
  }

  lemma SingleClients(s: Server, i: nat)
    requires i < |s.table|
    ensures |SingleExpired(s, i).clients| <= |s.clients| && SingleExpired(s, i).cfg == s.cfg
  {
    var w := FindFd(s.table, s.table[i].routingFd);
    if w < |s.table| {
      TakeOverClients(s, w, s.table[i].sa);
    }
  }

  lemma RoundClients(s: Server, i: nat)
    requires i < |s.table|
    ensures |RoundExpired(s, i).clients| <= |s.clients| && RoundExpired(s, i).cfg == s.cfg
  {
    var e := s.table[i];
    var w := FindSa(s.table, e.routingSa);
    if w < |s.table| {
      TakeOverClients(s.(ncts := Counted(s)), w, e.routingSa);
    }
  }

  lemma TimeoutClients(s: Server, fd: int)
    ensures var s' := AliveTimeout(s, fd); |s'.clients| <= |s.clients| && s'.cfg == s.cfg
  {
    var i := FindFd(s.table, fd);
    if i < |s.table| && s.table[i].armed {
      SingleClients(Put(s, i, s.table[i].(armed := false)), i);
      RoundClients(Put(s, i, s.table[i].(armed := false)), i);
    }
  }

  ghost predicate CapHolds(cfg: Config) {
    forall es :: Feasible(Start(cfg), es) ==> |Run(Start(cfg), es).clients| <= cfg.mcts + 1
  }

  /** The open sockets are counted in eight bits, so the accept cap works exactly up to 254. */
  lemma AcceptCapIff(cfg: Config)
    requires 0 <= cfg.mcts <= 255
    ensures CapHolds(cfg) <==> cfg.mcts <= 254
  {
    if cfg.mcts <= 254 {
      forall es | Feasible(Start(cfg), es) ensures |Run(Start(cfg), es).clients| <= cfg.mcts + 1 {
        ClientsCapped(Start(cfg), es);
      }
    } else {
      var s := Apply(Start(cfg), LineChanged(true));
      AcceptsAll(s, 1, 257);
      var es := [LineChanged(true)] + Accepts(1, 257);
      assert es[1..] == Accepts(1, 257);
      assert Feasible(Start(cfg), es) && |Run(Start(cfg), es).clients| == 257;
    }
  }
}
