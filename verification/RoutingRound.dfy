/** The all-socket alive check as a round: every registered socket answers or times out. */
module RoutingRound {
  import opened Routing
  import opened RoutingInvariants
  import opened RoutingUnique

  /** How one registered socket reacts: it answers with its tester address, or stays silent. */
  datatype Reaction = Reaction(fd: int, sa: int, answers: bool)

  function EventOf(r: Reaction): Event {
    if r.answers then Answered(r.fd, 2, r.sa) else TimedOut(r.fd)
  }

  function EventsOf(rs: seq<Reaction>): seq<Event> {
    if rs == [] then [] else [EventOf(rs[0])] + EventsOf(rs[1..])
  }

  predicate AnySilent(rs: seq<Reaction>) {
    exists i :: 0 <= i < |rs| && !rs[i].answers
  }

  /** A socket that has been asked and has not reacted yet. */
  ghost predicate Asked(s: Server, r: Reaction, sa: int) {
    var i := FindFd(s.table, r.fd);
    && i < |s.table|
    && s.table[i].allAlive && s.table[i].armed && !s.table[i].singleAlive
    && s.table[i].routingSa == sa && s.table[i].sa == r.sa != 0
  }

  /** In the middle of a round on behalf of connection q with address sa. */
  ghost predicate Mid(s: Server, q: int, sa: int, rs: seq<Reaction>, admitted: bool) {
    && Agree(s) && Guarded(s.cfg) && Unique(s.table) && s.entity.Some? && sa != 0
    && FindFd(s.table, q) < |s.table|
    && s.table[FindFd(s.table, q)].sa == sa
    && s.table[FindFd(s.table, q)].registered == admitted
    && (forall i :: 0 <= i < |rs| ==> Asked(s, rs[i], sa) && rs[i].fd != q)
    && (forall i, j :: 0 <= i < j < |rs| ==> rs[i].fd != rs[j].fd)
    && 0 <= s.ncts && s.cfg.mcts <= 255
    && (if rs == [] then s.ncts == 0 else s.ncts + |rs| == s.cfg.mcts)
  }

  const NO_ROOM := ALL_REGISTERED

  lemma FindUnique(t: seq<Entry>, i: nat)
    requires Unique(t) && i < |t| && t[i].sa != 0
    ensures FindSa(t, t[i].sa) == i
  {
    assert forall o :: 0 <= o < i ==> t[o].sa != t[i].sa;
  }

  lemma FindFdIs(t: seq<Entry>, i: nat, fd: int)
    requires i < |t| && t[i].fd == fd && forall a, b :: 0 <= a < b < |t| ==> t[a].fd != t[b].fd
    ensures FindFd(t, fd) == i
  {
  }

  // ---------- a socket answers ----------

  /** An answer of an asked socket: its marks are cleared and it is counted. */
  function Cleared(s: Server, i: nat): Server
    requires i < |s.table|
  {
    Put(s, i, s.table[i].(armed := false, allAlive := false))
  }

  lemma AnswerResult(s: Server, q: int, sa: int, rs: seq<Reaction>, admitted: bool)
    requires rs != [] && rs[0].answers && Mid(s, q, sa, rs, admitted)
    ensures var i := FindFd(s.table, rs[0].fd);
      i < |s.table| && var m := Cleared(s, i);
      Apply(s, EventOf(rs[0])) ==
        if |rs| > 1 then m.(ncts := s.ncts + 1)
        else if admitted then m.(ncts := 0)
        else Drop(Respond(m.(ncts := 0), q, sa, NO_ROOM), q)
  {
    var r := rs[0];
    assert Asked(s, r, sa);
    var i := FindFd(s.table, r.fd);
    FindUnique(s.table, i);
    var m := Cleared(s, i);
    UniqueSame(s.table, m.table);
    var w := FindFd(s.table, q);
    assert m.table[w].sa == sa && m.table[w].fd == q;
    FindUnique(m.table, w);
    assert s.ncts + 1 == (s.ncts + 1) % 256;
    AnswerApplied(s, i, w, r);
  }

  /** What an answer does when the waiting connection is w. */
  lemma AnswerApplied(s: Server, i: nat, w: nat, r: Reaction)
    requires r.answers && i < |s.table| && w < |s.table| && FindSa(s.table, r.sa) == i && s.table[i].allAlive
    requires FindSa(Cleared(s, i).table, s.table[i].routingSa) == w && w != i
    ensures var m, n := Cleared(s, i), (s.ncts + 1) % 256;
      Apply(s, EventOf(r)) ==
        if n != s.cfg.mcts then m.(ncts := n)
        else if s.table[w].registered then m.(ncts := 0)
        else Drop(Respond(m.(ncts := 0), s.table[w].fd, s.table[i].routingSa, NO_ROOM), s.table[w].fd)
  {
    var s1 := Put(s, i, s.table[i].(armed := false));
    assert Put(s1, i, s1.table[i].(allAlive := false)).table == Cleared(s, i).table;
  }

  lemma KeepsAsked(s: Server, s': Server, r: Reaction, sa: int, i: nat)
    requires Agree(s) && Agree(s') && Asked(s, r, sa) && i < |s.table| && s.table[i].fd != r.fd
    requires |s'.table| == |s.table| && forall j :: 0 <= j < |s.table| && j != i ==> s'.table[j] == s.table[j]
    requires s'.table[i].fd == s.table[i].fd
    ensures Asked(s', r, sa)
  {
    var k := FindFd(s.table, r.fd);
    FindFdIs(s'.table, k, r.fd);
  }

  lemma AnswerContinues(s: Server, q: int, sa: int, rs: seq<Reaction>, admitted: bool)
    requires rs != [] && rs[0].answers && Mid(s, q, sa, rs, admitted) && (|rs| > 1 || admitted)
    ensures var s' := Apply(s, EventOf(rs[0]));
      Mid(s', q, sa, rs[1..], admitted) && s'.out == s.out
  {
    AnswerResult(s, q, sa, rs, admitted);
    assert Asked(s, rs[0], sa);
    var i := FindFd(s.table, rs[0].fd);
    var s' := Apply(s, EventOf(rs[0]));
    PutAgrees(s, i, Cleared(s, i).table[i]);
    UniqueSame(s.table, s'.table);
    var w := FindFd(s.table, q);
    FindFdIs(s'.table, w, q);
    forall j | 0 <= j < |rs[1..]| ensures Asked(s', rs[1..][j], sa) && rs[1..][j].fd != q {
      assert Asked(s, rs[j + 1], sa);
      KeepsAsked(s, s', rs[j + 1], sa, i);
    }
  }

  lemma AnswerRefuses(s: Server, q: int, sa: int, rs: seq<Reaction>)
    requires |rs| == 1 && rs[0].answers && Mid(s, q, sa, rs, false)
    ensures var s' := Apply(s, EventOf(rs[0]));
      && FindFd(s'.table, q) == |s'.table| && s'.ncts == 0
      && s'.out == s.out + [Response(q, sa, NO_ROOM)]
  {
    AnswerResult(s, q, sa, rs, false);
    assert Asked(s, rs[0], sa);
    var i, w := FindFd(s.table, rs[0].fd), FindFd(s.table, q);
    var m := Cleared(s, i).(ncts := 0);
    PutAgrees(s, i, m.table[i]);
    FindFdIs(m.table, w, q);
    Closed(Respond(m, q, sa, NO_ROOM), w, q);
  }

  // ---------- a socket stays silent ----------

  /** The state right after the timer of a silent socket has fired. */
  function Fired(s: Server, r: Reaction): Server
    requires FindFd(s.table, r.fd) < |s.table|
  {
    var i := FindFd(s.table, r.fd);
    Put(s, i, s.table[i].(armed := false))
  }

  lemma FiredFacts(s: Server, q: int, sa: int, rs: seq<Reaction>, admitted: bool)
    requires rs != [] && Mid(s, q, sa, rs, admitted)
    ensures var i, w := FindFd(s.table, rs[0].fd), FindFd(s.table, q);
      && i < |s.table| && w < |s.table| && i != w && Asked(s, rs[0], sa)
      && var m := Fired(s, rs[0]);
         && FindSa(m.table, sa) == w && m.table[w].registered == admitted
         && m.table[i].routingSa == sa && m.table[i].fd == rs[0].fd
         && Agree(m) && Unique(m.table)
  {
    assert Asked(s, rs[0], sa);
    var w, m := FindFd(s.table, q), Fired(s, rs[0]);
    var i := FindFd(s.table, rs[0].fd);
    UniqueSame(s.table, m.table);
    FindUnique(m.table, w);
    PutAgrees(s, i, m.table[i]);
  }

  /** A silent socket: it is counted, the waiting one is admitted if it was not yet, and the
      silent one is closed. */
  lemma SilenceResult(s: Server, q: int, sa: int, rs: seq<Reaction>, admitted: bool)
    requires rs != [] && !rs[0].answers && Mid(s, q, sa, rs, admitted)
    ensures FindFd(s.table, rs[0].fd) < |s.table| && FindFd(s.table, q) < |s.table|
    ensures Fired(s, rs[0]).table[FindFd(s.table, q)].registered == admitted
    ensures Counted(Fired(s, rs[0])) == if |rs| == 1 then 0 else s.ncts + 1
    ensures Apply(s, EventOf(rs[0])) ==
      Closing(Fired(s, rs[0]).(ncts := Counted(Fired(s, rs[0]))), FindFd(s.table, q), sa, rs[0].fd)
  {
    FiredFacts(s, q, sa, rs, admitted);
    CountedIs(Fired(s, rs[0]), |rs|);
    SilenceApplied(s, FindFd(s.table, q), sa, rs[0]);
  }

  lemma SilenceApplied(s: Server, w: nat, sa: int, r: Reaction)
    requires !r.answers && Asked(s, r, sa) && w < |s.table|
    requires FindSa(Fired(s, r).table, sa) == w
    ensures Apply(s, EventOf(r)) == Closing(Fired(s, r).(ncts := Counted(Fired(s, r))), w, sa, r.fd)
  {
  }

  lemma CountedIs(m: Server, left: nat)
    requires 0 <= m.ncts && left > 0 && m.ncts + left == m.cfg.mcts <= 255
    ensures Counted(m) == if left == 1 then 0 else m.ncts + 1
  {
    assert (m.ncts + 1) % 256 == m.ncts + 1;
  }

  lemma CheckConfQuiet(s: Server, i: nat, entity: Entity, q: int, sa: int)
    requires i < |s.table|
    ensures var s' := CheckConf(s, i, entity);
      && s.out <= s'.out && Response(q, sa, NO_ROOM) !in s'.out[|s.out|..]
      && s'.ncts == s.ncts && s'.entity == s.entity && s'.cfg == s.cfg
  {
  }

  lemma TakeOverQuiet(s: Server, w: nat, sa: int, q: int)
    requires Agree(s) && w < |s.table|
    ensures var s' := TakeOver(s, w, sa);
      && s.out <= s'.out && Response(q, sa, NO_ROOM) !in s'.out[|s.out|..]
      && s'.ncts == s.ncts && s'.entity == s.entity && s'.cfg == s.cfg
  {
    var e := s.table[w].(sa := sa, registered := true, state := RoutingActive);
    var p := Put(s, w, e);
    PutAgrees(s, w, e);
    FindOwn(p, w);
    if s.entity.Some? && Matches(s.cfg, e.authen) {
      CheckConfQuiet(Put(p, w, e.(state := PendingAuth)), w, s.entity.value, q, sa);
    }
  }

  /** The state in which the silent socket is about to be closed. */
  lemma Admission(s: Server, q: int, sa: int, rs: seq<Reaction>, admitted: bool) returns (m: Server)
    requires rs != [] && !rs[0].answers && Mid(s, q, sa, rs, admitted)
    ensures Apply(s, EventOf(rs[0])) == Drop(m, rs[0].fd)
    ensures Agree(m) && Unique(m.table) && |m.table| == |s.table| && m.cfg == s.cfg && m.entity == s.entity
    ensures var i, w := FindFd(s.table, rs[0].fd), FindFd(s.table, q);
      && i < |s.table| && w < |s.table| && i != w
      && m.table[w].fd == q && m.table[w].sa == sa && m.table[w].registered && m.table[i].fd == rs[0].fd
      && forall j :: 0 <= j < |s.table| && j != i && j != w ==> m.table[j] == s.table[j]
    ensures m.ncts == if |rs| == 1 then 0 else s.ncts + 1
    ensures s.out <= m.out && Response(q, sa, NO_ROOM) !in m.out[|s.out|..]
  {
    SilenceResult(s, q, sa, rs, admitted);
    FiredFacts(s, q, sa, rs, admitted);
    var w := FindFd(s.table, q);
    m := Fired(s, rs[0]).(ncts := Counted(Fired(s, rs[0])));
    if !admitted {
      TakeOverTable(m, w, sa);
      TakeOverQuiet(m, w, sa, q);
      UniqueSame(m.table, TakeOver(m, w, sa).table);
      m := TakeOver(m, w, sa);
    }
  }

  lemma AfterDrop(m: Server, i: nat, fd: int)
    requires Agree(m) && i < |m.table| && fd != m.table[i].fd && FindFd(m.table, fd) < |m.table|
    ensures var t := Without(m.table, i);
      FindFd(t, fd) < |t| && t[FindFd(t, fd)] == m.table[FindFd(m.table, fd)]
  {
    var t, k := Without(m.table, i), FindFd(m.table, fd);
    var l := if k < i then k else k - 1;
    assert t[l] == m.table[k];
    forall a, b | 0 <= a < b < |t| ensures t[a].fd != t[b].fd {
      assert t[a] == m.table[if a < i then a else a + 1] && t[b] == m.table[if b < i then b else b + 1];
    }
    FindFdIs(t, l, fd);
  }

  /** The sockets that have not reacted yet survive the closing of a silent one. */
  lemma OthersStayAsked(s: Server, m: Server, i: nat, w: nat, r: Reaction, sa: int)
    requires Agree(s) && Agree(m) && |m.table| == |s.table| && i < |s.table| && w < |s.table|
    requires m.table[i].fd == s.table[i].fd && m.table[w].fd == s.table[w].fd
    requires forall j :: 0 <= j < |s.table| && j != i && j != w ==> m.table[j] == s.table[j]
    requires Asked(s, r, sa) && r.fd != s.table[i].fd && r.fd != s.table[w].fd
    ensures var t := Without(m.table, i);
      && FindFd(t, r.fd) < |t| && t[FindFd(t, r.fd)] == s.table[FindFd(s.table, r.fd)]
  {
    var k := FindFd(s.table, r.fd);
    FindFdIs(m.table, k, r.fd);
    AfterDrop(m, i, r.fd);
  }

  lemma Closed(m: Server, i: nat, fd: int)
    requires Agree(m) && i < |m.table| && m.table[i].fd == fd
    ensures Drop(m, fd).table == Without(m.table, i) && Agree(Drop(m, fd))
    ensures Drop(m, fd) == m.(clients := Drop(m, fd).clients, table := Without(m.table, i))
    ensures var t := Without(m.table, i); FindFd(t, fd) == |t|
  {
    DropTable(m, fd);
    FindOwn(m, i);
    var t := Without(m.table, i);
    forall j | 0 <= j < |t| ensures t[j].fd != fd {
      assert t[j] == m.table[if j < i then j else j + 1];
    }
  }

  lemma SilenceContinues(s: Server, q: int, sa: int, rs: seq<Reaction>, admitted: bool)
    requires rs != [] && !rs[0].answers && Mid(s, q, sa, rs, admitted)
    ensures var s' := Apply(s, EventOf(rs[0]));
      && Mid(s', q, sa, rs[1..], true)
      && s.out <= s'.out && Response(q, sa, NO_ROOM) !in s'.out[|s.out|..]
  {
    var m := Admission(s, q, sa, rs, admitted);
    var i, w := FindFd(s.table, rs[0].fd), FindFd(s.table, q);
    var s' := Apply(s, EventOf(rs[0]));
    Closed(m, i, rs[0].fd);
    UniqueWithout(m.table, i);
    FindFdIs(m.table, w, q);
    AfterDrop(m, i, q);
    forall j | 0 <= j < |rs[1..]| ensures Asked(s', rs[1..][j], sa) && rs[1..][j].fd != q {
      assert Asked(s, rs[j + 1], sa);
      OthersStayAsked(s, m, i, w, rs[j + 1], sa);
    }
  }

  // ---------- the round ----------

  /** Whatever the order of answers and timeouts: if somebody stayed silent, or the waiting socket
      had been admitted already, it ends up registered and is never refused; if all answered, it is
      refused with 0x01 and closed. The counter is back at zero in both cases. */
  ghost predicate Outcome(s: Server, q: int, sa: int, admitted: bool, s': Server) {
    && s'.ncts == 0
    && s.out <= s'.out
    && var i := FindFd(s'.table, q);
       if admitted then
         i < |s'.table| && s'.table[i].sa == sa && s'.table[i].registered
         && Response(q, sa, NO_ROOM) !in s'.out[|s.out|..]
       else
         i == |s'.table| && s'.out[|s.out|..] == [Response(q, sa, NO_ROOM)]
  }

  lemma {:induction false} RoundEnds(s: Server, q: int, sa: int, rs: seq<Reaction>, admitted: bool)
    requires Mid(s, q, sa, rs, admitted) && (rs == [] ==> admitted)
    ensures Outcome(s, q, sa, admitted || AnySilent(rs), Run(s, EventsOf(rs)))
    decreases |rs|
  {
    if rs == [] {
    } else {
      var s' := Apply(s, EventOf(rs[0]));
      var es := EventsOf(rs);
      assert es[1..] == EventsOf(rs[1..]);
      assert AnySilent(rs) <==> !rs[0].answers || AnySilent(rs[1..]) by {
        if AnySilent(rs[1..]) {
          var i :| 0 <= i < |rs[1..]| && !rs[1..][i].answers;
          assert !rs[i + 1].answers;
        }
        if i :| 0 <= i < |rs| && !rs[i].answers {
          if i > 0 {
            assert !rs[1..][i - 1].answers;
          }
        }
      }
      var f := Run(s', EventsOf(rs[1..]));
      if !rs[0].answers {
        SilenceContinues(s, q, sa, rs, admitted);
        RoundEnds(s', q, sa, rs[1..], true);
        OutcomeTrans(s, s', f, q, sa);
      } else if |rs| > 1 || admitted {
        AnswerContinues(s, q, sa, rs, admitted);
        RoundEnds(s', q, sa, rs[1..], admitted);
      } else {
        AnswerRefuses(s, q, sa, rs);
        assert rs[1..] == [] && !AnySilent([]);
        assert s'.out[|s.out|..] == [Response(q, sa, NO_ROOM)];
      }
    }
  }

  lemma OutcomeTrans(s: Server, s': Server, f: Server, q: int, sa: int)
    requires s.out <= s'.out && Response(q, sa, NO_ROOM) !in s'.out[|s.out|..]
    requires Outcome(s', q, sa, true, f)
    ensures Outcome(s, q, sa, true, f)
  {
    assert f.out[|s.out|..] == s'.out[|s.out|..] + f.out[|s'.out|..];
  }

  // ---------- how a round begins ----------

  function RegisteredFds(t: seq<Entry>): seq<int> {
    if t == [] then [] else (if t[0].registered then [t[0].fd] else []) + RegisteredFds(t[1..])
  }

  function FdsOf(rs: seq<Reaction>): seq<int> {
    seq(|rs|, i requires 0 <= i < |rs| => rs[i].fd)
  }

  lemma {:induction false} RegisteredFdsAre(t: seq<Entry>)
    ensures |RegisteredFds(t)| == RegisteredCount(t)
    ensures forall fd :: fd in RegisteredFds(t) <==> exists i :: 0 <= i < |t| && t[i].registered && t[i].fd == fd
    ensures (forall i, j :: 0 <= i < j < |t| ==> t[i].fd != t[j].fd) ==>
              forall fd :: multiset(RegisteredFds(t))[fd] <= 1
  {
    if t != [] {
      RegisteredFdsAre(t[1..]);
      var a, b := if t[0].registered then [t[0].fd] else [], RegisteredFds(t[1..]);
      forall fd
        ensures fd in RegisteredFds(t) <==> exists i :: 0 <= i < |t| && t[i].registered && t[i].fd == fd
      {
        if i :| 0 <= i < |t| && t[i].registered && t[i].fd == fd {
          if i > 0 {
            assert t[1..][i - 1].registered && t[1..][i - 1].fd == fd;
          }
        }
        if fd in b {
          var i :| 0 <= i < |t[1..]| && t[1..][i].registered && t[1..][i].fd == fd;
          assert t[i + 1].registered && t[i + 1].fd == fd;
        }
      }
      if forall i, j :: 0 <= i < j < |t| ==> t[i].fd != t[j].fd {
        assert multiset(RegisteredFds(t)) == multiset(a) + multiset(b);
        assert t[0].fd !in b;
      }
    }
  }

  lemma BagDistinct(q: seq<int>, i: nat, j: nat)
    requires i < j < |q| && q[i] == q[j]
    ensures multiset(q)[q[i]] >= 2
  {
    assert q == q[..j] + ([q[j]] + q[j + 1..]);
    assert q[i] in q[..j];
    assert multiset(q) == multiset(q[..j]) + multiset([q[j]] + q[j + 1..]);
    assert q[j] in [q[j]] + q[j + 1..];
  }

  /** The reactions cover the registered sockets, each once, each under its own address. */
  ghost predicate Covers(t: seq<Entry>, rs: seq<Reaction>) {
    && multiset(FdsOf(rs)) == multiset(RegisteredFds(t))
    && forall i :: 0 <= i < |rs| ==>
         FindFd(t, rs[i].fd) < |t| && t[FindFd(t, rs[i].fd)].sa == rs[i].sa
  }

  /** A request that finds all places taken and starts a round: the requester is not registered,
      its address is new, and no count or single check is left over. */
  ghost predicate StartsRound(s: Server, fd: int, length: int, sa: int, kind: int) {
    var i := FindFd(s.table, fd);
    && Agree(s) && Guarded(s.cfg) && Unique(s.table) && s.entity.Some? && s.ncts == 0
    && Reaches(s, fd, length, sa, kind) && !s.table[i].registered
    && FindSa(s.table, sa) == |s.table|
    && 1 <= s.cfg.mcts <= 255 && RegisteredCount(s.table) == s.cfg.mcts
    && forall j :: 0 <= j < |s.table| && s.table[j].registered ==> s.table[j].sa != 0 && !s.table[j].singleAlive
  }

  lemma RoundTable(s: Server, fd: int, length: int, sa: int, kind: int, info: int)
    requires StartsRound(s, fd, length, sa, kind)
    ensures var s', i := Request(s, fd, length, sa, kind, info), FindFd(s.table, fd);
      && Agree(s') && Unique(s'.table)
      && |s'.table| == |s.table| && s'.ncts == 0 && s'.entity == s.entity && s'.cfg == s.cfg
      && s'.table[i].fd == fd && s'.table[i].sa == sa && !s'.table[i].registered
      && forall k :: 0 <= k < |s.table| && s.table[k].registered ==>
           s'.table[k] == s.table[k].(allAlive := true, routingSa := sa, armed := true)
  {
    var i := FindFd(s.table, fd);
    var p := Prepared(s, fd, length, info);
    CountPut(s.table, i, p.table[i]);
    CountBound(s.table);
    CountBound(p.table);
    SameSas(s.table, p.table, sa);
    RequestCases(s, fd, length, sa, kind, info);
    RequestUnique(s, fd, length, sa, kind, info);
    assert Request(s, fd, length, sa, kind, info) == Decide(p, i, sa, if length == 11 then info else 0);
  }

  lemma CoversCount(s: Server, rs: seq<Reaction>)
    requires Agree(s) && Covers(s.table, rs)
    ensures |rs| == RegisteredCount(s.table)
    ensures forall a, b :: 0 <= a < b < |rs| ==> rs[a].fd != rs[b].fd
  {
    RegisteredFdsAre(s.table);
    assert |FdsOf(rs)| == |multiset(FdsOf(rs))| == |multiset(RegisteredFds(s.table))|;
    forall a, b | 0 <= a < b < |rs| ensures rs[a].fd != rs[b].fd {
      assert multiset(FdsOf(rs))[rs[a].fd] <= 1;
      if rs[a].fd == rs[b].fd {
        BagDistinct(FdsOf(rs), a, b);
      }
    }
  }

  lemma RoundBegins(s: Server, fd: int, length: int, sa: int, kind: int, info: int, rs: seq<Reaction>)
    requires StartsRound(s, fd, length, sa, kind) && Covers(s.table, rs)
    ensures Mid(Request(s, fd, length, sa, kind, info), fd, sa, rs, false) && rs != []
  {
    var i := FindFd(s.table, fd);
    var s' := Request(s, fd, length, sa, kind, info);
    RoundTable(s, fd, length, sa, kind, info);
    FindFdIs(s'.table, i, fd);
    CoversCount(s, rs);
    forall j | 0 <= j < |rs| ensures Asked(s', rs[j], sa) && rs[j].fd != fd {
      RoundAsks(s, fd, rs, j, sa, s');
    }
  }

  lemma SameSas(t: seq<Entry>, u: seq<Entry>, sa: int)
    requires |u| == |t| && (forall i :: 0 <= i < |t| ==> u[i].sa == t[i].sa) && FindSa(t, sa) == |t|
    ensures FindSa(u, sa) == |u|
  {
  }

  lemma RoundAsks(s: Server, fd: int, rs: seq<Reaction>, j: nat, sa: int, s': Server)
    requires Agree(s) && Agree(s') && Covers(s.table, rs) && j < |rs|
    requires FindFd(s.table, fd) < |s.table| && !s.table[FindFd(s.table, fd)].registered
    requires forall k :: 0 <= k < |s.table| && s.table[k].registered ==> s.table[k].sa != 0 && !s.table[k].singleAlive
    requires |s'.table| == |s.table|
    requires forall k :: 0 <= k < |s.table| && s.table[k].registered ==>
      s'.table[k] == s.table[k].(allAlive := true, routingSa := sa, armed := true)
    ensures Asked(s', rs[j], sa) && rs[j].fd != fd
  {
    var r := rs[j];
    assert FdsOf(rs)[j] == r.fd && r.fd in multiset(FdsOf(rs));
    assert r.fd in RegisteredFds(s.table);
    RegisteredFdsAre(s.table);
    var k :| 0 <= k < |s.table| && s.table[k].registered && s.table[k].fd == r.fd;
    FindFdIs(s.table, k, r.fd);
    FindFdIs(s'.table, k, r.fd);
  }

  /** The all-socket round, from the request to the last reaction, for every order of reactions:
      the requester is refused with 0x01 and closed exactly when every registered socket answers,
      it is registered exactly when at least one times out, and the counter returns to zero. */
  lemma AllSocketRound(s: Server, fd: int, length: int, sa: int, kind: int, info: int, rs: seq<Reaction>)
    requires StartsRound(s, fd, length, sa, kind) && Covers(s.table, rs)
    ensures var a := Request(s, fd, length, sa, kind, info);
      Outcome(a, fd, sa, AnySilent(rs), Run(a, EventsOf(rs)))
  {
    RoundBegins(s, fd, length, sa, kind, info, rs);
    RoundEnds(Request(s, fd, length, sa, kind, info), fd, sa, rs, false);
  }
}
