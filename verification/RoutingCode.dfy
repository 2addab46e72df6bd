/** The handlers as the server runs them: list loops, 8-bit counters and entry updates in place.
    Each is proved to do to the whole state what its specification in Routing says. */
module RoutingCode {
  import opened Wrappers
  import opened Routing

  class Manager {
    var cfg: Config
    var entity: Option<Entity>
    var clients: seq<int>
    var table: seq<Entry>
    var aliveCheckNcts: int
    var out: seq<Msg>

    constructor (config: Config)
      ensures State() == Start(config)
    {
      cfg, entity, clients, table, aliveCheckNcts, out := config, None, [], [], 0, [];
    }

    ghost function State(): Server
      reads this
    {
      Server(cfg, entity, clients, table, aliveCheckNcts, out)
    }

    // ---------- lookups ----------

    method FindByFd(fd: int) returns (i: nat)
      ensures i == FindFd(table, fd)
    {
      i := 0;
      while i < |table| && table[i].fd != fd
        invariant i <= |table| && FindFd(table, fd) == i + FindFd(table[i..], fd)
      {
        i := i + 1;
      }
    }

    method FindByLogicAddress(sa: int) returns (i: nat)
      ensures i == FindSa(table, sa)
    {
      i := 0;
      while i < |table| && table[i].sa != sa
        invariant i <= |table| && FindSa(table, sa) == i + FindSa(table[i..], sa)
      {
        i := i + 1;
      }
    }

    /** The registered sockets, counted in eight bits. */
    method RegistFdCount() returns (count: int)
      ensures count == RegisteredCount(table) % 256
    {
      count := 0;
      var i := 0;
      while i < |table|
        invariant i <= |table| && 0 <= count <= 255
        invariant RegisteredCount(table) % 256 == (count + RegisteredCount(table[i..])) % 256
      {
        if table[i].registered {
          count := (count + 1) % 256;
        }
        assert table[i..][1..] == table[i + 1..];
        i := i + 1;
      }
    }

    method HasRegistered() returns (found: bool)
      ensures found == AnyRegistered(table)
    {
      found := false;
      var i := 0;
      while i < |table| && !found
        invariant i <= |table| && (found ==> AnyRegistered(table))
        invariant !found ==> forall j :: 0 <= j < i ==> !table[j].registered
      {
        found := table[i].registered;
        i := i + 1;
      }
    }

    // ---------- actions ----------

    method Write(m: Msg)
      requires m.Response? || m.AliveRequest? || m.HeaderNack?
      modifies this`out
      ensures State() == Send(old(State()), m)
    {
      var i := FindByFd(m.fd);
      if i < |table| {
        out := out + [m];
      }
    }

    method PackRoutingActivationRes(fd: int, sa: int, code: int)
      modifies this`out
      ensures State() == Respond(old(State()), fd, sa, code)
    {
      if entity.Some? {
        Write(Response(fd, sa, code));
      }
    }

    /** Only a listed client is closed; its table entry goes with it. */
    method ServerDisconnect(fd: int)
      modifies this
      ensures State() == Drop(old(State()), fd)
    {
      var c := 0;
      while c < |clients| && clients[c] != fd
        invariant c <= |clients| && FindInt(clients, fd) == c + FindInt(clients[c..], fd)
      {
        c := c + 1;
      }
      if c < |clients| {
        clients := clients[..c] + clients[c + 1..];
        var i := FindByFd(fd);
        if i < |table| {
          table := table[..i] + table[i + 1..];
        }
      }
    }

    method CheckConfirmation(i: nat, e: Entity)
      requires i < |table| && entity == Some(e)
      modifies this
      ensures State() == CheckConf(old(State()), i, e)
    {
      table := table[i := table[i].(state := PendingConf)];
      if e.confirmation {
        out := out + [ConfirmRequest(table[i].sa)];
      } else {
        ghost var e' := table[i].(state := RoutingActive, registered := true);
        assert table[i := e'] == old(table)[i := e'];
        table := table[i := table[i].(state := RoutingActive, registered := true)];
        PackRoutingActivationRes(table[i].fd, table[i].sa, ACTIVATED);
      }
    }

    method CheckAuthentication(fd: int, authen: int)
      modifies this
      ensures State() == CheckAuth(old(State()), fd, authen)
    {
      var i := FindByFd(fd);
      if i == |table| {
        return;
      }
      table := table[i := table[i].(state := PendingAuth)];
      match entity {
        case None =>
        case Some(e) =>
          if authen == cfg.authenInfo || 0 == cfg.authenInfo {
            CheckConfirmation(i, e);
          } else {
            PackRoutingActivationRes(fd, table[i].sa, MISSING_AUTH);
          }
      }
    }

    // ---------- the request of Figure 13 ----------

    method UnpackRoutingActivationReq(fd: int, length: int, sa: int, kind: int, info: int)
      modifies this
      ensures State() == Request(old(State()), fd, length, sa, kind, info)
    {
      if length != 7 && length != 11 {
        Write(HeaderNack(fd));
        return;
      }
      if cfg.edgeGateway || !cfg.egwControl {
        if !KnownSa(cfg, sa) {
          PackRoutingActivationRes(fd, sa, UNKNOWN_SA);
          ServerDisconnect(fd);
          return;
        }
      }
      if 0x02 <= kind <= 0xDF {
        PackRoutingActivationRes(fd, sa, UNSUPPORTED);
        ServerDisconnect(fd);
        return;
      }
      var authen := if length == 11 then info else 0;
      var i := FindByFd(fd);
      if i == |table| {
        return;
      }
      table := table[i := table[i].(authen := authen)];
      DecideActivation(i, sa, authen);
    }

    method DecideActivation(i: nat, sa: int, authen: int)
      requires i < |table|
      modifies this
      ensures State() == Decide(old(State()), i, sa, authen)
    {
      var fd := table[i].fd;
      var any := HasRegistered();
      if !any {
        Register(i, sa, authen);
      } else if table[i].registered {
        if sa == table[i].sa {
          CheckAuthentication(fd, authen);
        } else {
          PackRoutingActivationRes(fd, sa, SA_DIFFERENT);
          ServerDisconnect(fd);
        }
      } else {
        var o := FindByLogicAddress(sa);
        if o < |table| {
          AddressIsHeld(i, o, sa);
        } else {
          var count := RegistFdCount();
          if count == cfg.mcts {
            table := table[i := table[i].(sa := sa)];
            CheckAllAlive(sa);
          } else {
            Register(i, sa, authen);
          }
        }
      }
    }

    method Register(i: nat, sa: int, authen: int)
      requires i < |table|
      modifies this
      ensures State() == CheckAuth(Put(old(State()), i, old(table[i]).(registered := true, sa := sa)),
                                   old(table[i].fd), authen)
    {
      var fd := table[i].fd;
      table := table[i := table[i].(registered := true, sa := sa)];
      CheckAuthentication(fd, authen);
    }

    /** Another connection o holds the address that connection i asks for. */
    method AddressIsHeld(i: nat, o: nat, sa: int)
      requires i < |table| && o < |table|
      modifies this
      ensures State() ==
        if Guarded(cfg) then
          Send(Put(old(State()), o, old(table[o]).(routingFd := old(table[i].fd), singleAlive := true, armed := true)),
               AliveRequest(old(table[o].fd)))
        else
          Respond(Put(old(State()), i, old(table[i]).(state := RoutingActive, registered := true, sa := sa)),
                  old(table[i].fd), sa, ACTIVATED)
    {
      if cfg.edgeGateway || !cfg.egwControl {
        table := table[o := table[o].(routingFd := table[i].fd, singleAlive := true, armed := true)];
        Write(AliveRequest(table[o].fd));
      } else {
        table := table[i := table[i].(state := RoutingActive, registered := true, sa := sa)];
        PackRoutingActivationRes(table[i].fd, sa, ACTIVATED);
      }
    }

    /** Ask and mark every registered connection, one after the other. */
    method CheckAllAlive(sa: int)
      modifies this`table, this`out
      ensures State() == old(State()).(table := AskAll(old(table), sa), out := old(out) + AliveRequests(old(table)))
    {
      ghost var t := table;
      var j := 0;
      while j < |table|
        invariant j <= |table| == |t|
        invariant forall i :: 0 <= i < j ==> table[i] == AskAll(t, sa)[i]
        invariant forall i :: j <= i < |t| ==> table[i] == t[i]
        invariant out + AliveRequests(t[j..]) == old(out) + AliveRequests(t)
      {
        ghost var rest := t[j..];
        assert rest[0] == t[j] && rest[1..] == t[j + 1..];
        if table[j].registered {
          Write(AliveRequest(table[j].fd));
          table := table[j := table[j].(allAlive := true, routingSa := sa, armed := true)];
        }
        j := j + 1;
      }
      assert table == AskAll(t, sa);
    }

    // ---------- alive check ----------

    method UnpackAliveCheckRes(fd: int, length: int, sa: int)
      modifies this
      ensures State() == AliveAnswer(old(State()), fd, length, sa)
    {
      if length != 2 {
        Write(HeaderNack(fd));
        return;
      }
      var i := FindByLogicAddress(sa);
      if i == |table| {
        return;
      }
      StopTimer(i);
      if table[i].allAlive {
        AnsweredForAll(i);
      } else if table[i].singleAlive {
        AnsweredForOne(i, sa);
      }
    }

    method StopTimer(i: nat)
      requires i < |table|
      modifies this`table
      ensures State() == Put(old(State()), i, old(table[i]).(armed := false))
    {
      table := table[i := table[i].(armed := false)];
    }

    /** The answer is counted in eight bits; the last one refuses a socket that still waits. */
    method AnsweredForAll(i: nat)
      requires i < |table| && table[i].allAlive && !table[i].armed
      modifies this
      ensures State() == CountAnswer(old(State()), i)
    {
      table := table[i := table[i].(allAlive := false)];
      aliveCheckNcts := (aliveCheckNcts + 1) % 256;
      if aliveCheckNcts == cfg.mcts {
        aliveCheckNcts := 0;
        var routingSa := table[i].routingSa;
        var w := FindByLogicAddress(routingSa);
        if w < |table| && !table[w].registered {
          var waiting := table[w].fd;
          PackRoutingActivationRes(waiting, routingSa, ALL_REGISTERED);
          ServerDisconnect(waiting);
        }
      }
    }

    method AnsweredForOne(i: nat, sa: int)
      requires i < |table|
      modifies this
      ensures State() == RefuseRival(old(State()), i, sa)
    {
      var routingFd := table[i].routingFd;
      table := table[i := table[i].(singleAlive := false)];
      PackRoutingActivationRes(routingFd, sa, SA_ELSEWHERE);
      ServerDisconnect(routingFd);
    }

    method TakeAddressOver(w: nat, sa: int)
      requires w < |table|
      modifies this
      ensures State() == TakeOver(old(State()), w, sa)
    {
      table := table[w := table[w].(sa := sa, registered := true, state := RoutingActive)];
      CheckAuthentication(table[w].fd, table[w].authen);
    }

    /** The timer of connection `owner` fired; the silent connection is closed in the end. */
    method AliveCheckTimerCallback(owner: int)
      modifies this
      ensures State() == AliveTimeout(old(State()), owner)
    {
      var i := FindByFd(owner);
      if i == |table| || !table[i].armed {
        return;
      }
      StopTimer(i);
      if table[i].singleAlive {
        SilentHolder(i);
      } else {
        SilentSocket(i);
      }
    }

    method SilentHolder(i: nat)
      requires i < |table|
      modifies this
      ensures State() == SingleExpired(old(State()), i)
    {
      var e := table[i];
      var w := FindByFd(e.routingFd);
      if w < |table| {
        TakeAddressOver(w, e.sa);
      }
      ServerDisconnect(e.fd);
    }

    method SilentSocket(i: nat)
      requires i < |table|
      modifies this
      ensures State() == RoundExpired(old(State()), i)
    {
      var e := table[i];
      aliveCheckNcts := (aliveCheckNcts + 1) % 256;
      if aliveCheckNcts == cfg.mcts {
        aliveCheckNcts := 0;
      }
      var w := FindByLogicAddress(e.routingSa);
      if w < |table| && !table[w].registered {
        TakeAddressOver(w, e.routingSa);
      }
      ServerDisconnect(e.fd);
    }

    // ---------- the user, the listener ----------

    method UserConfResult(sa: int, result: int)
      modifies this
      ensures State() == UserAnswer(old(State()), sa, result)
    {
      var i := FindByLogicAddress(sa);
      if entity.None? || i == |table| || table[i].state != PendingConf {
        return;
      }
      if result == 2 {
        table := table[i := table[i].(state := RoutingActive, registered := true)];
        PackRoutingActivationRes(table[i].fd, sa, CONFIRMED);
      } else if result == 1 {
        table := table[i := table[i].(state := RoutingActive, registered := true)];
        PackRoutingActivationRes(table[i].fd, sa, ACTIVATED);
      } else {
        PackRoutingActivationRes(table[i].fd, sa, REJECTED);
      }
    }

    method ListLength() returns (n: int)
      ensures n == |clients| % 256
    {
      n := 0;
      var i := 0;
      while i < |clients|
        invariant i <= |clients| && n == i % 256
      {
        n := (n + 1) % 256;
        i := i + 1;
      }
    }

    method TcpSocketData(fd: int)
      modifies this
      ensures State() == Accept(old(State()), fd)
    {
      if cfg.edgeGateway && !cfg.activationLine {
        return;
      }
      var open := ListLength();
      if open >= cfg.mcts + 1 {
        return;
      }
      clients := clients + [fd];
      table := table + [NewEntry(fd)];
    }
  }
}
