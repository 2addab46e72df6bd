/** Figure 13 of ISO 13400-2 (2011), condition by condition: what each routing activation request,
    takeover, user answer and new connection does, in terms of the fields and the codes alone. */
module RoutingFigure {
  import opened Wrappers
  import opened Routing
  import opened RoutingInvariants
  import opened RoutingTheorems
  import opened RoutingUnique
  import opened RoutingRound
  import opened RoutingAnswers

  /** The tester's address is permitted: the configured one, or one of the two ranges; a gateway or
      node that hides its network does not check. */
  predicate TesterAllowed(cfg: Config, sa: int) {
    if !cfg.edgeGateway && cfg.egwControl then true
    else if cfg.testerSa != 0 then sa == cfg.testerSa
    else 0x0F00 <= sa <= 0x0F7F || 0x0E00 <= sa <= 0x0EFF
  }

  /** The authentication information of a request: absent in the short form. */
  function Sent(length: int, info: int): int { if length == 11 then info else 0 }

  /** The connection is gone, told why. */
  ghost predicate Refused(s: Server, s': Server, fd: int, sa: int, code: int) {
    FindFd(s'.table, fd) == |s'.table| && s'.out == s.out + [Response(fd, sa, code)]
  }

  /** The connection is registered under the address, and its authentication is judged. */
  ghost predicate Admits(s: Server, s': Server, fd: int, sa: int, authen: int) {
    var k := FindFd(s'.table, fd);
    && k < |s'.table| && s'.table[k].registered && s'.table[k].sa == sa && s'.table[k].authen == authen
    && s.out <= s'.out && |Told(s, s')| == 1
    && Judged(s, authen, Told(s, s')[0], fd, sa, s'.table[k].state)
  }

  // ---------- the request ----------

  ghost predicate Holder(t: seq<Entry>, o: nat, sa: int) {
    o < |t| && t[o].sa == sa && forall j :: 0 <= j < o ==> t[j].sa != sa
  }

  ghost predicate NobodyHolds(t: seq<Entry>, sa: int) {
    forall j :: 0 <= j < |t| ==> t[j].sa != sa
  }

  /** A place is given: nobody is registered, the connection repeats its address, or the address is new
      and a place is free. */
  ghost predicate PlaceGiven(s: Server, i: nat, sa: int)
    requires i < |s.table|
  {
    || (forall j :: 0 <= j < |s.table| ==> !s.table[j].registered)
    || (s.table[i].registered && s.table[i].sa == sa)
    || (!s.table[i].registered && NobodyHolds(s.table, sa) && RegisteredCount(s.table) % 256 != s.cfg.mcts)
  }

  /** The connection does not stay as it is: it is refused for its address or its type, or because it is
      registered under another address, or it is given a place. */
  lemma RefusedOrAdmitted(s: Server, fd: int, length: int, sa: int, kind: int, info: int)
    requires Agree(s) && s.entity.Some? && FindFd(s.table, fd) < |s.table| && (length == 7 || length == 11)
    ensures var s', i := Request(s, fd, length, sa, kind, info), FindFd(s.table, fd);
      if !TesterAllowed(s.cfg, sa) then Refused(s, s', fd, sa, 0x00)
      else if 0x02 <= kind <= 0xDF then Refused(s, s', fd, sa, 0x06)
      else if s.table[i].registered && s.table[i].sa != sa then Refused(s, s', fd, sa, 0x02)
      else PlaceGiven(s, i, sa) ==> Admits(s, s', fd, sa, Sent(length, info))
  {
    hide Decide, Drop;
    var i, authen := FindFd(s.table, fd), Sent(length, info);
    if !TesterAllowed(s.cfg, sa) {
      DroppedConsistent(s, fd, sa, 0x00);
      ToldAll(s, Drop(Respond(s, fd, sa, 0x00), fd), fd, sa, 0x00);
    } else if 0x02 <= kind <= 0xDF {
      DroppedConsistent(s, fd, sa, 0x06);
      ToldAll(s, Drop(Respond(s, fd, sa, 0x06), fd), fd, sa, 0x06);
    } else {
      var p := Put(s, i, s.table[i].(authen := authen));
      PutAgrees(s, i, p.table[i]);
      SameSas(s, p, i, sa);
      DecideAdmits(p, i, sa, authen);
    }
  }

  lemma ToldAll(s: Server, s': Server, fd: int, sa: int, code: int)
    requires Consistent(s, s', fd, sa, Some(code))
    ensures Refused(s, s', fd, sa, code)
  {
    assert s'.out == s.out + Told(s, s');
  }

  /** Noting the authentication information changes none of the conditions. */
  lemma SameSas(s: Server, p: Server, i: nat, sa: int)
    requires i < |s.table| == |p.table| && p == Put(s, i, s.table[i].(authen := p.table[i].authen))
    ensures PlaceGiven(s, i, sa) <==> PlaceGiven(p, i, sa)
    ensures RegisteredCount(p.table) == RegisteredCount(s.table)
    ensures NobodyHolds(s.table, sa) <==> NobodyHolds(p.table, sa)
  {
    CountPut(s.table, i, p.table[i]);
    assert forall j :: 0 <= j < |s.table| ==> p.table[j].sa == s.table[j].sa && p.table[j].registered == s.table[j].registered;
    if NobodyHolds(p.table, sa) {
      forall j | 0 <= j < |s.table| ensures s.table[j].sa != sa {
        assert p.table[j].sa != sa;
      }
    }
    if forall j :: 0 <= j < |p.table| ==> !p.table[j].registered {
      forall j | 0 <= j < |s.table| ensures !s.table[j].registered {
        assert !p.table[j].registered;
      }
    }
  }

  lemma DecideAdmits(s: Server, i: nat, sa: int, authen: int)
    requires Agree(s) && s.entity.Some? && i < |s.table| && s.table[i].authen == authen
    ensures var s', fd := Decide(s, i, sa, authen), s.table[i].fd;
      if s.table[i].registered && s.table[i].sa != sa then Refused(s, s', fd, sa, 0x02)
      else PlaceGiven(s, i, sa) ==> Admits(s, s', fd, sa, authen)
  {
    hide CheckAuth, Drop, Consistent;
    var e := s.table[i];
    FindOwn(s, i);
    assert e.registered ==> AnyRegistered(s.table);
    if e.registered && e.sa != sa {
      DroppedConsistent(s, e.fd, sa, 0x02);
      ToldAll(s, Drop(Respond(s, e.fd, sa, 0x02), e.fd), e.fd, sa, 0x02);
    } else if e.registered {
      CheckAuthTells(s, i, authen);
    } else if PlaceGiven(s, i, sa) {
      var p := Put(s, i, e.(registered := true, sa := sa));
      PutAgrees(s, i, p.table[i]);
      CheckAuthTells(p, i, authen);
    }
  }

  /** The address is taken, or all places are: the request waits, and its holder, or every registered
      connection, is asked whether it is alive. Without the check a second holder is activated. */
  lemma OthersAreAsked(s: Server, fd: int, length: int, sa: int, kind: int, info: int, o: nat)
    requires Agree(s) && s.entity.Some? && FindFd(s.table, fd) < |s.table| && (length == 7 || length == 11)
    requires TesterAllowed(s.cfg, sa) && !(0x02 <= kind <= 0xDF) && !s.table[FindFd(s.table, fd)].registered
    requires AnyRegistered(s.table)
    ensures var s', i := Request(s, fd, length, sa, kind, info), FindFd(s.table, fd);
      && (Holder(s.table, o, sa) && !(!s.cfg.edgeGateway && s.cfg.egwControl) ==>
            && s'.out == s.out + [AliveRequest(s.table[o].fd)]
            && |s'.table| == |s.table| && !s'.table[i].registered && s'.table[i].sa == s.table[i].sa
            && s'.table[o].singleAlive && s'.table[o].armed && s'.table[o].routingFd == fd)
      && (Holder(s.table, o, sa) && !s.cfg.edgeGateway && s.cfg.egwControl ==>
            && s'.out == s.out + [Response(fd, sa, 0x10)]
            && |s'.table| == |s.table| && s'.table[i].registered && s'.table[i].sa == sa
            && s'.table[i].state == RoutingActive)
      && (NobodyHolds(s.table, sa) && RegisteredCount(s.table) % 256 == s.cfg.mcts ==>
            && s'.out == s.out + AliveRequests(s.table)
            && |s'.table| == |s.table| && !s'.table[i].registered && s'.table[i].sa == sa
            && forall j :: 0 <= j < |s.table| && s.table[j].registered ==>
                 s'.table[j] == s.table[j].(allAlive := true, armed := true, routingSa := sa))
  {
    hide Decide, AliveRequests, RegisteredCount, Drop;
    var i, authen := FindFd(s.table, fd), Sent(length, info);
    var p := Put(s, i, s.table[i].(authen := authen));
    PutAgrees(s, i, p.table[i]);
    SameSas(s, p, i, sa);
    SameAlive(s, p, i);
    assert AnyRegistered(p.table) by {
      var j :| 0 <= j < |s.table| && s.table[j].registered;
      assert p.table[j].registered;
    }
    DecideAsks(p, i, sa, authen, o);
  }

  lemma SameAlive(s: Server, p: Server, i: nat)
    requires i < |s.table| == |p.table| && p == Put(s, i, s.table[i].(authen := p.table[i].authen))
    ensures AliveRequests(p.table) == AliveRequests(s.table)
  {
    SameRequests(s.table, p.table);
  }

  lemma {:induction false} SameRequests(t: seq<Entry>, u: seq<Entry>)
    requires |u| == |t| && forall j :: 0 <= j < |t| ==> u[j].fd == t[j].fd && u[j].registered == t[j].registered
    ensures AliveRequests(u) == AliveRequests(t)
  {
    if t != [] {
      SameRequests(t[1..], u[1..]);
    }
  }

  lemma DecideAsks(s: Server, i: nat, sa: int, authen: int, o: nat)
    requires Agree(s) && s.entity.Some? && i < |s.table| && !s.table[i].registered && AnyRegistered(s.table)
    ensures var s', fd := Decide(s, i, sa, authen), s.table[i].fd;
      && (Holder(s.table, o, sa) && !(!s.cfg.edgeGateway && s.cfg.egwControl) ==>
            && s'.out == s.out + [AliveRequest(s.table[o].fd)]
            && s'.table == s.table[o := s.table[o].(routingFd := fd, singleAlive := true, armed := true)])
      && (Holder(s.table, o, sa) && !s.cfg.edgeGateway && s.cfg.egwControl ==>
            && s'.out == s.out + [Response(fd, sa, 0x10)]
            && s'.table == s.table[i := s.table[i].(registered := true, sa := sa, state := RoutingActive)])
      && (NobodyHolds(s.table, sa) && RegisteredCount(s.table) % 256 == s.cfg.mcts ==>
            && s'.out == s.out + AliveRequests(s.table)
            && s'.table == AskAll(s.table[i := s.table[i].(sa := sa)], sa))
  {
    hide CheckAuth;
    var e := s.table[i];
    FindOwn(s, i);
    if Holder(s.table, o, sa) {
      assert FindSa(s.table, sa) == o;
      var h := s.table[o].(routingFd := e.fd, singleAlive := true, armed := true);
      FindFdIs(s.table[o := h], o, h.fd);
      var a := e.(registered := true, sa := sa, state := RoutingActive);
      FindFdIs(s.table[i := a], i, e.fd);
    } else if NobodyHolds(s.table, sa) {
      assert FindSa(s.table, sa) == |s.table|;
      SameRequests(s.table, s.table[i := e.(sa := sa)]);
    }
  }

  /** The alive check asks exactly the registered connections, each once. */
  lemma {:induction false} AskedAreRegistered(t: seq<Entry>)
    ensures |AliveRequests(t)| == RegisteredCount(t)
    ensures forall j :: 0 <= j < |t| && t[j].registered ==> AliveRequest(t[j].fd) in AliveRequests(t)
    ensures forall m :: m in AliveRequests(t) ==> m.AliveRequest?
  {
    if t != [] {
      AskedAreRegistered(t[1..]);
    }
  }

  /** A request of another length is answered with a header refusal and nothing else happens. */
  lemma WrongLengthIsRefused(s: Server, fd: int, length: int, sa: int, kind: int, info: int)
    requires length != 7 && length != 11 && FindFd(s.table, fd) < |s.table|
    ensures Request(s, fd, length, sa, kind, info) == s.(out := s.out + [HeaderNack(fd)])
  {
  }

  // ---------- takeover ----------

  /** The connection w that takes an address over is judged by the information of its own request. */
  lemma TakeOverIsJudged(s: Server, w: nat, sa: int)
    requires Agree(s) && s.entity.Some? && w < |s.table|
    ensures var s' := TakeOver(s, w, sa);
      Agree(s') && |s'.table| == |s.table| && Admits(s, s', s.table[w].fd, sa, s.table[w].authen)
      && forall j :: 0 <= j < |s.table| && j != w ==> s'.table[j] == s.table[j]
  {
    hide CheckAuth;
    var e := s.table[w].(sa := sa, registered := true, state := RoutingActive);
    var p := Put(s, w, e);
    PutAgrees(s, w, e);
    TakeOverTable(s, w, sa);
    CheckAuthTells(p, w, e.authen);
  }

  lemma AdmissionSurvives(s: Server, m: Server, i: nat, gone: int, fd: int, sa: int, authen: int)
    requires Agree(m) && i < |m.table| && m.table[i].fd == gone != fd && Admits(s, m, fd, sa, authen)
    ensures Admits(s, Drop(m, gone), fd, sa, authen)
  {
    Closed(m, i, gone);
    AfterDrop(m, i, fd);
  }

  /** A silent holder: the newcomer is admitted and judged, and only then the holder is closed. */
  lemma SilentHolderYields(s: Server, o: nat, i: nat)
    requires Agree(s) && s.entity.Some? && o < |s.table| && i < |s.table| && o != i
    requires s.table[o].singleAlive && s.table[o].armed && s.table[o].routingFd == s.table[i].fd
    ensures var t := AliveTimeout(s, s.table[o].fd);
      FindFd(t.table, s.table[o].fd) == |t.table| && Admits(s, t, s.table[i].fd, s.table[o].sa, s.table[i].authen)
  {
    hide TakeOver, Drop, Admits;
    var holder, sa := s.table[o].fd, s.table[o].sa;
    FindOwn(s, o);
    var m := Put(s, o, s.table[o].(armed := false));
    PutAgrees(s, o, m.table[o]);
    FindFdIs(m.table, i, s.table[i].fd);
    TakeOverIsJudged(m, i, sa);
    SameAdmission(s, m, TakeOver(m, i, sa), s.table[i].fd, sa, s.table[i].authen);
    Closed(TakeOver(m, i, sa), o, holder);
    AdmissionSurvives(s, TakeOver(m, i, sa), o, holder, s.table[i].fd, sa, s.table[i].authen);
  }

  lemma SameAdmission(s: Server, m: Server, s': Server, fd: int, sa: int, authen: int)
    requires m.out == s.out && m.cfg == s.cfg && m.entity == s.entity && Admits(m, s', fd, sa, authen)
    ensures Admits(s, s', fd, sa, authen)
  {
  }

  /** The first silent socket of an all-socket round: the waiting connection is admitted and judged, and
      the silent one is closed. */
  lemma SilentSocketAdmits(s: Server, q: int, sa: int, rs: seq<Reaction>)
    requires rs != [] && !rs[0].answers && Mid(s, q, sa, rs, false)
    ensures var s' := Apply(s, EventOf(rs[0])); var w := FindFd(s.table, q);
      FindFd(s'.table, rs[0].fd) == |s'.table| && Admits(s, s', q, sa, s.table[w].authen)
  {
    hide Mid, TakeOver, Drop, Admits, Counted;
    SilenceResult(s, q, sa, rs, false);
    FiredFacts(s, q, sa, rs, false);
    var m := Fired(s, rs[0]).(ncts := Counted(Fired(s, rs[0])));
    var i, w := FindFd(s.table, rs[0].fd), FindFd(s.table, q);
    MidFacts(s, q, sa, rs, false);
    TakeOverIsJudged(m, w, sa);
    SameAdmission(s, m, TakeOver(m, w, sa), q, sa, s.table[w].authen);
    Closed(TakeOver(m, w, sa), i, rs[0].fd);
    AdmissionSurvives(s, TakeOver(m, w, sa), i, rs[0].fd, q, sa, s.table[w].authen);
  }

  lemma MidFacts(s: Server, q: int, sa: int, rs: seq<Reaction>, admitted: bool)
    requires rs != [] && Mid(s, q, sa, rs, admitted)
    ensures Agree(s) && s.entity.Some? && rs[0].fd != q
    ensures FindFd(s.table, q) < |s.table| && s.table[FindFd(s.table, q)].fd == q
  {
  }

  // ---------- the user, the listener ----------

  /** The user's answer counts only while it is pending: passed is told 0x11, not needed 0x10, and both
      activate; anything else is told 0x05 and changes nothing. */
  lemma UserDecides(s: Server, sa: int, result: int, i: nat)
    requires Agree(s) && s.entity.Some? && Holder(s.table, i, sa)
    ensures var s', e := UserAnswer(s, sa, result), s.table[i];
      if e.state != PendingConf then s' == s
      else if result == 2 then
        s' == s.(table := s.table[i := e.(state := RoutingActive, registered := true)],
                 out := s.out + [Response(e.fd, sa, 0x11)])
      else if result == 1 then
        s' == s.(table := s.table[i := e.(state := RoutingActive, registered := true)],
                 out := s.out + [Response(e.fd, sa, 0x10)])
      else s' == s.(out := s.out + [Response(e.fd, sa, 0x05)])
  {
    hide Respond;
    assert FindSa(s.table, sa) == i;
    FindOwn(s, i);
    var e := s.table[i].(state := RoutingActive, registered := true);
    FindFdIs(s.table[i := e], i, e.fd);
    RespondTells(Put(s, i, e), e.fd, sa, 0x11);
    RespondTells(Put(s, i, e), e.fd, sa, 0x10);
    RespondTells(s, e.fd, sa, 0x05);
  }

  /** Without an entity, or for an address that nobody holds, the answer is ignored. */
  lemma UserIsIgnored(s: Server, sa: int, result: int)
    requires s.entity.None? || NobodyHolds(s.table, sa)
    ensures UserAnswer(s, sa, result) == s
  {
  }

  /** A new connection is taken exactly while an edge gateway's activation line is active and fewer than
      mcts + 1 sockets are open, as counted in eight bits. */
  lemma AcceptedIff(s: Server, fd: int)
    ensures var s' := Accept(s, fd);
      if (s.cfg.edgeGateway ==> s.cfg.activationLine) && |s.clients| % 256 <= s.cfg.mcts then
        s' == s.(clients := s.clients + [fd],
                 table := s.table + [Entry(fd, 0, 0, false, false, false, 0, 0, Initialized, false)])
      else s' == s
  {
  }

  // ---------- the rest ----------

  /** Closing a listed connection takes exactly it out of both lists; another fd changes nothing. */
  lemma DropTakesOne(s: Server, fd: int)
    requires Agree(s)
    ensures var s' := Drop(s, fd);
      && (fd !in s.clients ==> s' == s)
      && (forall c :: c in s'.clients <==> c in s.clients && c != fd)
      && (forall e :: e in s'.table <==> e in s.table && e.fd != fd)
      && s'.out == s.out && s'.ncts == s.ncts && s'.entity == s.entity && s'.cfg == s.cfg
  {
    var i := FindFd(s.table, fd);
    FindAgree(s.table, fd);
    assert |s.clients| == |s.table|;
    DropTable(s, fd);
    TakesOne(s.clients, i);
    TakesOne(s.table, i);
  }

  lemma TakesOne<T>(s: seq<T>, i: nat)
    ensures var u := Without(s, i);
      && (forall x :: x in u ==> exists j :: 0 <= j < |s| && j != i && s[j] == x)
      && (forall j :: 0 <= j < |s| && j != i ==> s[j] in u)
  {
    var u := Without(s, i);
    if i < |s| {
      assert forall j :: 0 <= j < |u| ==> u[j] == s[if j < i then j else j + 1];
      forall j | 0 <= j < |s| && j != i ensures s[j] in u {
        assert u[if j < i then j else j - 1] == s[j];
      }
    }
  }

  /** An alive check response outside any check only stops a timer; one for an address that nobody holds
      does nothing, and one of a wrong length is refused. */
  lemma StrayAnswer(s: Server, fd: int, length: int, sa: int, o: nat)
    requires FindFd(s.table, fd) < |s.table|
    ensures length != 2 ==> AliveAnswer(s, fd, length, sa) == s.(out := s.out + [HeaderNack(fd)])
    ensures length == 2 && NobodyHolds(s.table, sa) ==> AliveAnswer(s, fd, length, sa) == s
    ensures length == 2 && Holder(s.table, o, sa) && !s.table[o].allAlive && !s.table[o].singleAlive ==>
      AliveAnswer(s, fd, length, sa) == s.(table := s.table[o := s.table[o].(armed := false)])
  {
    if Holder(s.table, o, sa) {
      assert FindSa(s.table, sa) == o;
    }
  }

  /** Nothing but header refusals and alive checks has gone out. */
  ghost predicate NoVerdict(s: Server, s': Server) {
    s.out <= s'.out && forall m :: m in Told(s, s') ==> m.HeaderNack? || m.AliveRequest?
  }

  lemma QuietWithoutEntity(s: Server, fd: int, sa: int, code: int, authen: int)
    requires s.entity.None?
    ensures Drop(Respond(s, fd, sa, code), fd).out == s.out == CheckAuth(s, fd, authen).out
  {
  }

  lemma DecideNoVerdict(s: Server, i: nat, sa: int, authen: int)
    requires s.entity.None? && i < |s.table|
    ensures NoVerdict(s, Decide(s, i, sa, authen))
  {
    hide CheckAuth, Drop, Respond;
    var e := s.table[i];
    var p := Put(s, i, e.(registered := true, sa := sa));
    QuietWithoutEntity(s, e.fd, sa, SA_DIFFERENT, authen);
    QuietWithoutEntity(p, e.fd, sa, SA_DIFFERENT, authen);
    OnlyAliveRequests(s.table[i := e.(sa := sa)]);
    RespondNothing(Put(s, i, e.(state := RoutingActive, registered := true, sa := sa)), e.fd, sa);
  }

  lemma RespondNothing(s: Server, fd: int, sa: int)
    requires s.entity.None?
    ensures Respond(s, fd, sa, ACTIVATED) == s
  {
  }

  /** Without an entity nobody is told a verdict. */
  lemma NoEntityNoVerdict(s: Server, fd: int, length: int, sa: int, kind: int, info: int)
    requires s.entity.None?
    ensures var s' := Request(s, fd, length, sa, kind, info);
      s.out <= s'.out && forall m :: m in Told(s, s') ==> m.HeaderNack? || m.AliveRequest?
  {
    hide Decide, Drop, Respond;
    QuietWithoutEntity(s, fd, sa, UNKNOWN_SA, 0);
    QuietWithoutEntity(s, fd, sa, UNSUPPORTED, 0);
    var i, authen := FindFd(s.table, fd), Sent(length, info);
    if i < |s.table| {
      DecideNoVerdict(Put(s, i, s.table[i].(authen := authen)), i, sa, authen);
    }
  }
}
