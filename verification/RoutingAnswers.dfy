/** What a tester is told about a routing activation request, and what the table says afterwards. */
module RoutingAnswers {
  import opened Wrappers
  import opened Routing
  import opened RoutingInvariants
  import opened RoutingTheorems

  /** The messages that an event adds. */
  function Told(s: Server, s': Server): seq<Msg>
    requires s.out <= s'.out
  {
    s'.out[|s.out|..]
  }

  /** The code with which a well-formed request of connection e is refused for good. */
  function Refusal(cfg: Config, e: Entry, sa: int, kind: int): Option<int> {
    if !KnownSa(cfg, sa) then Some(UNKNOWN_SA)
    else if 0x02 <= kind <= 0xDF then Some(UNSUPPORTED)
    else if e.registered && e.sa != sa then Some(SA_DIFFERENT)
    else None
  }

  /** One message goes out, and it says in which state connection k with address sa now is. */
  ghost predicate SaysState(m: Msg, fd: int, sa: int, state: ConnState) {
    && (m == Response(fd, sa, ACTIVATED) <==> state == RoutingActive)
    && (m == ConfirmRequest(sa) <==> state == PendingConf)
    && (m == Response(fd, sa, MISSING_AUTH) <==> state == PendingAuth)
    && state != Initialized
  }

  /** The verdict on the authentication information: the message that tells it, and the state. */
  ghost predicate Judged(s: Server, authen: int, m: Msg, fd: int, sa: int, state: ConnState) {
    && s.entity.Some?
    && if s.cfg.authenInfo != 0 && authen != s.cfg.authenInfo then
         m == Response(fd, sa, 0x04) && state == PendingAuth
       else if s.entity.value.confirmation then m == ConfirmRequest(sa) && state == PendingConf
       else m == Response(fd, sa, 0x10) && state == RoutingActive
  }

  /** Authentication of connection i adds one message, the verdict, and touches no other entry. */
  ghost predicate TellsVerdict(s: Server, i: nat, authen: int, s': Server)
    requires i < |s.table|
  {
    && s.out <= s'.out && |Told(s, s')| == 1
    && |s'.table| == |s.table| && FindFd(s'.table, s.table[i].fd) == i
    && Judged(s, authen, Told(s, s')[0], s.table[i].fd, s.table[i].sa, s'.table[i].state)
    && s'.table[i] == s.table[i].(state := s'.table[i].state, registered := s'.table[i].registered)
    && (s.table[i].registered ==> s'.table[i].registered)
  }

  lemma CheckAuthTells(s: Server, i: nat, authen: int)
    requires Agree(s) && s.entity.Some? && i < |s.table|
    ensures TellsVerdict(s, i, authen, CheckAuth(s, s.table[i].fd, authen))
  {
    hide Respond;
    FindOwn(s, i);
    var fd := s.table[i].fd;
    var a := Put(s, i, s.table[i].(state := PendingAuth));
    SameFds(s.table, a.table, i, fd);
    RespondTells(a, fd, s.table[i].sa, 0x04);
    if Matches(s.cfg, authen) {
      CheckConfTells(a, i, s.entity.value);
      SameFds(s.table, CheckConf(a, i, s.entity.value).table, i, fd);
    }
  }

  lemma RespondTells(s: Server, fd: int, sa: int, code: int)
    requires s.entity.Some? && FindFd(s.table, fd) < |s.table|
    ensures Respond(s, fd, sa, code) == s.(out := s.out + [Response(fd, sa, code)])
  {
  }

  lemma CheckConfTells(s: Server, i: nat, entity: Entity)
    requires Agree(s) && s.entity == Some(entity) && i < |s.table|
    ensures var s', e := CheckConf(s, i, entity), s.table[i];
      if entity.confirmation then
        s' == Put(s, i, e.(state := PendingConf)).(out := s.out + [ConfirmRequest(e.sa)])
      else
        s' == Put(s, i, e.(state := RoutingActive, registered := true)).(out := s.out + [Response(e.fd, e.sa, 0x10)])
  {
    hide Respond;
    FindOwn(s, i);
    var e := s.table[i].(state := RoutingActive, registered := true);
    SameFds(s.table, s.table[i := e], i, e.fd);
    RespondTells(Put(s, i, e), e.fd, e.sa, 0x10);
  }

  lemma SameFds(t: seq<Entry>, u: seq<Entry>, i: nat, fd: int)
    requires |u| == |t| && (forall j :: 0 <= j < |t| ==> u[j].fd == t[j].fd) && FindFd(t, fd) == i
    ensures FindFd(u, fd) == i
  {
  }

  /** The answer to a request and the state it leads to. */
  ghost predicate Consistent(s: Server, s': Server, fd: int, sa: int, refusal: Option<int>) {
    && s.out <= s'.out
    && var told, k := Told(s, s'), FindFd(s'.table, fd);
       if refusal.Some? then k == |s'.table| && told == [Response(fd, sa, refusal.value)]
       else if k == |s'.table| then false
       else if s'.table[k].state == Initialized then
         forall m :: m in told ==> m.AliveRequest?
       else |told| == 1 && SaysState(told[0], fd, sa, s'.table[k].state)
  }

  lemma DroppedConsistent(s: Server, fd: int, sa: int, code: int)
    requires Agree(s) && s.entity.Some? && FindFd(s.table, fd) < |s.table|
    ensures Consistent(s, Drop(Respond(s, fd, sa, code), fd), fd, sa, Some(code))
  {
    var r := Respond(s, fd, sa, code);
    var i := FindFd(s.table, fd);
    DropTable(r, fd);
    var t := Without(s.table, i);
    forall j | 0 <= j < |t| ensures t[j].fd != fd {
      assert t[j] == s.table[if j < i then j else j + 1];
      if j >= i {
        FindOwn(s, j + 1);
      }
    }
    assert Told(s, Drop(r, fd)) == [Response(fd, sa, code)];
  }

  lemma RegisteredConsistent(s: Server, i: nat, sa: int, authen: int)
    requires Agree(s) && s.entity.Some? && i < |s.table|
    ensures var e := s.table[i];
      Consistent(s, CheckAuth(Put(s, i, e.(registered := true, sa := sa)), e.fd, authen), e.fd, sa, None)
  {
    var e := s.table[i].(registered := true, sa := sa);
    PutAgrees(s, i, e);
    CheckAuthTells(Put(s, i, e), i, authen);
  }

  lemma {:induction false} OnlyAliveRequests(t: seq<Entry>)
    ensures forall m :: m in AliveRequests(t) ==> m.AliveRequest?
  {
    if t != [] {
      OnlyAliveRequests(t[1..]);
    }
  }

  /** A connection that got anywhere is registered. */
  ghost predicate Registering(t: seq<Entry>) {
    forall j :: 0 <= j < |t| ==> t[j].state != Initialized ==> t[j].registered
  }

  lemma DecideConsistent(s: Server, i: nat, sa: int, authen: int)
    requires Agree(s) && Registering(s.table) && Guarded(s.cfg) && s.entity.Some? && i < |s.table|
    ensures Consistent(s, Decide(s, i, sa, authen), s.table[i].fd, sa,
                       if s.table[i].registered && s.table[i].sa != sa then Some(SA_DIFFERENT) else None)
  {
    hide CheckAuth, Drop;
    var e, o := s.table[i], FindSa(s.table, sa);
    FindOwn(s, i);
    assert e.registered ==> AnyRegistered(s.table);
    if e.registered && sa == e.sa {
      CheckAuthTells(s, i, authen);
    } else if e.registered {
      DroppedConsistent(s, e.fd, sa, SA_DIFFERENT);
    } else if !AnyRegistered(s.table) || (o == |s.table| && RegisteredCount(s.table) % 256 != s.cfg.mcts) {
      RegisteredConsistent(s, i, sa, authen);
    } else if o < |s.table| {
      var u := s.table[o := s.table[o].(routingFd := e.fd, singleAlive := true, armed := true)];
      SameFds(s.table, u, i, e.fd);
    } else {
      var u := s.table[i := e.(sa := sa)];
      SameFds(s.table, AskAll(u, sa), i, e.fd);
      OnlyAliveRequests(u);
    }
  }

  /** A well-formed request, while an entity is registered: the connection is gone exactly if the
      request is refused, with the code that says why; it is active, awaits confirmation or lacks authentication exactly
      if it was told 0x10, the user was asked, or it was told 0x04; and it is left as it was only if
      others are asked whether they are alive. */
  lemma AnswerTellsState(s: Server, fd: int, length: int, sa: int, kind: int, info: int)
    requires Agree(s) && AllGranted(s) && Guarded(s.cfg) && s.entity.Some? && FindFd(s.table, fd) < |s.table|
    requires length == 7 || length == 11
    ensures Consistent(s, Request(s, fd, length, sa, kind, info), fd, sa,
                       Refusal(s.cfg, s.table[FindFd(s.table, fd)], sa, kind))
  {
    hide Decide, Drop;
    if !KnownSa(s.cfg, sa) {
      DroppedConsistent(s, fd, sa, UNKNOWN_SA);
    } else if 0x02 <= kind <= 0xDF {
      DroppedConsistent(s, fd, sa, UNSUPPORTED);
    } else {
      var authen, i := if length == 11 then info else 0, FindFd(s.table, fd);
      var p := Put(s, i, s.table[i].(authen := authen));
      PutAgrees(s, i, p.table[i]);
      assert Registering(p.table);
      DecideConsistent(p, i, sa, authen);
    }
  }
}
