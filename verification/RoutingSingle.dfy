/** The alive check of a single socket: who holds the address in the end. */
module RoutingSingle {
  import opened Routing
  import opened RoutingInvariants
  import opened RoutingUnique
  import opened RoutingRound

  /** A request for an address that another connection o holds, with no all-socket check under way
      for o. */
  ghost predicate Contested(s: Server, fd: int, length: int, sa: int, kind: int) {
    var i, o := FindFd(s.table, fd), FindSa(s.table, sa);
    && Agree(s) && Guarded(s.cfg) && Unique(s.table) && s.entity.Some?
    && Reaches(s, fd, length, sa, kind) && AnyRegistered(s.table) && !s.table[i].registered
    && o < |s.table| && o != i && !s.table[o].allAlive
  }

  /** The holder is asked on behalf of the newcomer. */
  function Challenged(s: Server, o: nat, fd: int): Entry
    requires o < |s.table|
  {
    s.table[o].(routingFd := fd, singleAlive := true, armed := true)
  }

  lemma HolderIsAsked(s: Server, fd: int, length: int, sa: int, kind: int, info: int)
    requires Contested(s, fd, length, sa, kind)
    ensures var s1, i, o := Request(s, fd, length, sa, kind, info), FindFd(s.table, fd), FindSa(s.table, sa);
      && Agree(s1) && Unique(s1.table) && s1.cfg == s.cfg && s1.entity == s.entity
      && |s1.table| == |s.table| && s1.table[o] == Challenged(s, o, fd)
      && s1.table[i].fd == fd && s1.table[i].sa == s.table[i].sa
      && s1.out == s.out + [AliveRequest(s.table[o].fd)]
  {
    hide CheckAuth, Drop, Respond, AskAll, AliveRequests, RegisteredCount, Decide;
    var i, o := FindFd(s.table, fd), FindSa(s.table, sa);
    var p := Prepared(s, fd, length, info);
    PutAgrees(s, i, p.table[i]);
    UniqueSame(s.table, p.table);
    SameAny(s.table, p.table);
    FoundAt(s.table, p.table, sa);
    AskHolder(p, i, o, sa, if length == 11 then info else 0);
    PutAgrees(p, o, Challenged(s, o, fd));
    UniqueSame(p.table, p.table[o := Challenged(s, o, fd)]);
    FindFdIs(p.table[o := Challenged(s, o, fd)], o, s.table[o].fd);
  }

  lemma AskHolder(s: Server, i: nat, o: nat, sa: int, authen: int)
    requires i < |s.table| && o == FindSa(s.table, sa) < |s.table| && AnyRegistered(s.table)
    requires !s.table[i].registered && Guarded(s.cfg)
    ensures Decide(s, i, sa, authen) ==
      Send(Put(s, o, Challenged(s, o, s.table[i].fd)), AliveRequest(s.table[o].fd))
  {
    hide CheckAuth, Drop, Respond, AskAll, AliveRequests, RegisteredCount;
  }

  lemma SameAny(t: seq<Entry>, u: seq<Entry>)
    requires |u| == |t| && forall j :: 0 <= j < |t| ==> u[j].registered == t[j].registered
    ensures AnyRegistered(t) <==> AnyRegistered(u)
  {
    if AnyRegistered(t) {
      var j :| 0 <= j < |t| && t[j].registered;
      assert u[j].registered;
    }
    if AnyRegistered(u) {
      var j :| 0 <= j < |u| && u[j].registered;
      assert t[j].registered;
    }
  }

  lemma FoundAt(t: seq<Entry>, u: seq<Entry>, sa: int)
    requires |u| == |t| && forall j :: 0 <= j < |t| ==> u[j].sa == t[j].sa
    ensures FindSa(u, sa) == FindSa(t, sa)
  {
  }

  /** The answer clears the holder's marks, and its rival is refused and closed. */
  lemma HolderAnswers(s: Server, o: nat, sa: int)
    requires Unique(s.table) && o < |s.table| && s.table[o].sa == sa != 0
    requires s.table[o].singleAlive && !s.table[o].allAlive
    ensures var fd := s.table[o].routingFd;
      AliveAnswer(s, s.table[o].fd, 2, sa)
      == Drop(Respond(Put(s, o, s.table[o].(armed := false, singleAlive := false)), fd, sa, SA_ELSEWHERE), fd)
  {
    hide Drop, Respond;
    FindUnique(s.table, o);
    var e := s.table[o].(armed := false, singleAlive := false);
    assert Put(Put(s, o, s.table[o].(armed := false)), o, e) == Put(s, o, e);
  }

  /** The holder answers: it keeps the address, the newcomer is refused with 0x03 and closed. */
  lemma AnswerKeeps(s: Server, o: nat, i: nat, sa: int)
    requires Agree(s) && Unique(s.table) && s.entity.Some? && o < |s.table| && i < |s.table| && o != i
    requires s.table[o].sa == sa != 0 && s.table[o].singleAlive && !s.table[o].allAlive
    requires s.table[o].routingFd == s.table[i].fd
    ensures var a, fd := AliveAnswer(s, s.table[o].fd, 2, sa), s.table[i].fd;
      && FindFd(a.table, fd) == |a.table| && a.out == s.out + [Response(fd, sa, SA_ELSEWHERE)]
      && var h := FindFd(a.table, s.table[o].fd); h < |a.table| && a.table[h].sa == sa
  {
    hide AliveAnswer;
    var fd, holder := s.table[i].fd, s.table[o].fd;
    var e := s.table[o].(armed := false, singleAlive := false);
    var m := Put(s, o, e);
    HolderAnswers(s, o, sa);
    PutAgrees(s, o, e);
    FindFdIs(m.table, i, fd);
    FindFdIs(m.table, o, holder);
    var r := Respond(m, fd, sa, SA_ELSEWHERE);
    Closed(r, i, fd);
    AfterDrop(r, i, holder);
  }

  /** The holder stays silent: it is closed, and the newcomer is registered under the address. */
  lemma SilenceYields(s: Server, o: nat, i: nat, sa: int)
    requires Agree(s) && o < |s.table| && i < |s.table| && o != i
    requires s.table[o].sa == sa && s.table[o].singleAlive && s.table[o].armed
    requires s.table[o].routingFd == s.table[i].fd
    ensures var t, fd := AliveTimeout(s, s.table[o].fd), s.table[i].fd;
      && FindFd(t.table, s.table[o].fd) == |t.table|
      && var k := FindFd(t.table, fd); k < |t.table| && t.table[k].sa == sa && t.table[k].registered
  {
    hide TakeOver, Drop;
    var fd, holder := s.table[i].fd, s.table[o].fd;
    FindOwn(s, o);
    var m := Put(s, o, s.table[o].(armed := false));
    PutAgrees(s, o, m.table[o]);
    FindFdIs(m.table, i, fd);
    TakeOverTable(m, i, sa);
    var r := TakeOver(m, i, sa);
    FindFdIs(r.table, i, fd);
    Closed(r, o, holder);
    AfterDrop(r, o, fd);
  }

  /** A contested address stays with its holder exactly if the holder answers: the newcomer is then
      refused with 0x03 and closed. If the holder stays silent it is closed, and the newcomer is
      registered under the address. */
  lemma SingleCheckDecides(s: Server, fd: int, length: int, sa: int, kind: int, info: int)
    requires Contested(s, fd, length, sa, kind)
    ensures var s1, holder := Request(s, fd, length, sa, kind, info), s.table[FindSa(s.table, sa)].fd;
      && var a := AliveAnswer(s1, holder, 2, sa);
         && FindFd(a.table, fd) == |a.table| && a.out == s1.out + [Response(fd, sa, SA_ELSEWHERE)]
         && var h := FindFd(a.table, holder); h < |a.table| && a.table[h].sa == sa
    ensures var s1, holder := Request(s, fd, length, sa, kind, info), s.table[FindSa(s.table, sa)].fd;
      && var t := AliveTimeout(s1, holder);
         && FindFd(t.table, holder) == |t.table|
         && var k := FindFd(t.table, fd); k < |t.table| && t.table[k].sa == sa && t.table[k].registered
  {
    hide Request, AliveAnswer, AliveTimeout;
    HolderIsAsked(s, fd, length, sa, kind, info);
    var s1, i, o := Request(s, fd, length, sa, kind, info), FindFd(s.table, fd), FindSa(s.table, sa);
    AnswerKeeps(s1, o, i, sa);
    SilenceYields(s1, o, i, sa);
  }
}
