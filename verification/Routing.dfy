/** The server's TCP connection table and the routing activation handler of Figure 13 of
    ISO 13400-2 (2011): what each incoming event does to the table
    (libdoipstack/ne_doip_server_manager.c, libdoipstack/ne_doip_server.c). */
module Routing {
  import opened Wrappers

  datatype ConnState = Initialized | PendingAuth | PendingConf | RoutingActive

  /** A TCP connection. `armed` says that its alive check timer runs. */
  datatype Entry = Entry(
    fd: int,
    sa: int,               // tester address, 0 while unknown
    routingSa: int,        // tester address on whose behalf an all-socket check runs
    registered: bool,
    allAlive: bool,        // asked by an all-socket alive check
    singleAlive: bool,     // asked on behalf of routingFd
    routingFd: int,
    authen: int,
    state: ConnState,
    armed: bool)

  datatype Config = Config(
    edgeGateway: bool, egwControl: bool, testerSa: int, mcts: int, authenInfo: int, activationLine: bool)

  datatype Entity = Entity(address: int, confirmation: bool)

  datatype Msg =
    | HeaderNack(fd: int)
    | Response(fd: int, sa: int, code: int)
    | AliveRequest(fd: int)
    | ConfirmRequest(sa: int)

  const UNKNOWN_SA := 0x00
  const ALL_REGISTERED := 0x01
  const SA_DIFFERENT := 0x02
  const SA_ELSEWHERE := 0x03
  const MISSING_AUTH := 0x04
  const REJECTED := 0x05
  const UNSUPPORTED := 0x06
  const ACTIVATED := 0x10
  const CONFIRMED := 0x11

  datatype Server = Server(
    cfg: Config, entity: Option<Entity>, clients: seq<int>, table: seq<Entry>, ncts: int, out: seq<Msg>)

  /** Edge gateways, and all entities while the nodes are visible, check the tester address. */
  predicate Guarded(cfg: Config) {
    cfg.edgeGateway || !cfg.egwControl
  }

  // ---------- lookups ----------

  function FindFd(t: seq<Entry>, fd: int): (i: nat)
    ensures i <= |t|
    ensures forall j :: 0 <= j < i ==> t[j].fd != fd
    ensures i < |t| ==> t[i].fd == fd
  {
    if t == [] || t[0].fd == fd then 0 else 1 + FindFd(t[1..], fd)
  }

  function FindSa(t: seq<Entry>, sa: int): (i: nat)
    ensures i <= |t|
    ensures forall j :: 0 <= j < i ==> t[j].sa != sa
    ensures i < |t| ==> t[i].sa == sa
  {
    if t == [] || t[0].sa == sa then 0 else 1 + FindSa(t[1..], sa)
  }

  predicate AnyRegistered(t: seq<Entry>) {
    exists i :: 0 <= i < |t| && t[i].registered
  }

  function RegisteredCount(t: seq<Entry>): nat {
    if t == [] then 0 else (if t[0].registered then 1 else 0) + RegisteredCount(t[1..])
  }

  function FindInt(s: seq<int>, x: int): (i: nat)
    ensures i <= |s|
    ensures forall j :: 0 <= j < i ==> s[j] != x
    ensures i < |s| ==> s[i] == x
  {
    if s == [] || s[0] == x then 0 else 1 + FindInt(s[1..], x)
  }

  function Fds(t: seq<Entry>): seq<int> {
    seq(|t|, i requires 0 <= i < |t| => t[i].fd)
  }

  function Without<T>(s: seq<T>, i: nat): seq<T> {
    if i < |s| then s[..i] + s[i + 1..] else s
  }

  // ---------- actions ----------

  /** A message goes out only on a connection that is in the table. */
  function Send(s: Server, m: Msg): Server
    requires m.Response? || m.AliveRequest? || m.HeaderNack?
  {
    if FindFd(s.table, m.fd) < |s.table| then s.(out := s.out + [m]) else s
  }

  /** A response needs a registered entity to speak for. */
  function Respond(s: Server, fd: int, sa: int, code: int): Server {
    if s.entity.Some? then Send(s, Response(fd, sa, code)) else s
  }

  /** Close a connection: the client and its table entry go together. */
  function Drop(s: Server, fd: int): Server {
    if FindInt(s.clients, fd) < |s.clients| then
      s.(clients := Without(s.clients, FindInt(s.clients, fd)),
         table := Without(s.table, FindFd(s.table, fd)))
    else s
  }

  function Put(s: Server, i: nat, e: Entry): Server
    requires i < |s.table|
  {
    s.(table := s.table[i := e])
  }

  predicate Matches(cfg: Config, authen: int) {
    authen == cfg.authenInfo || cfg.authenInfo == 0
  }

  /** Authentication, then confirmation, of the connection fd. */
  function CheckAuth(s: Server, fd: int, authen: int): Server {
    var i := FindFd(s.table, fd);
    if i == |s.table| then s
    else
      var e := s.table[i].(state := PendingAuth);
      if s.entity.None? then Put(s, i, e)
      else if Matches(s.cfg, authen) then CheckConf(Put(s, i, e), i, s.entity.value)
      else Respond(Put(s, i, e), fd, e.sa, MISSING_AUTH)
  }

  function CheckConf(s: Server, i: nat, entity: Entity): Server
    requires i < |s.table|
  {
    var e := s.table[i].(state := PendingConf);
    if entity.confirmation then
      var s' := Put(s, i, e); s'.(out := s'.out + [ConfirmRequest(e.sa)])
    else
      Respond(Put(s, i, e.(state := RoutingActive, registered := true)),
              e.fd, e.sa, ACTIVATED)
  }

  predicate KnownSa(cfg: Config, sa: int) {
    if cfg.testerSa != 0 then sa == cfg.testerSa
    else 0x0F00 <= sa <= 0x0F7F || 0x0E00 <= sa <= 0x0EFF
  }

  /** Ask every registered connection whether it is alive, on behalf of sa. */
  function AskAll(t: seq<Entry>, sa: int): seq<Entry> {
    seq(|t|, i requires 0 <= i < |t| =>
      if t[i].registered then t[i].(allAlive := true, routingSa := sa, armed := true) else t[i])
  }

  function AliveRequests(t: seq<Entry>): seq<Msg> {
    if t == [] then [] else (if t[0].registered then [AliveRequest(t[0].fd)] else []) + AliveRequests(t[1..])
  }

  /** The decision of Figure 13 for a well-formed request of connection i. */
  function Decide(s: Server, i: nat, sa: int, authen: int): Server
    requires i < |s.table|
  {
    var e := s.table[i];
    if !AnyRegistered(s.table) then
      CheckAuth(Put(s, i, e.(registered := true, sa := sa)), e.fd, authen)
    else if e.registered then
      if sa == e.sa then CheckAuth(s, e.fd, authen)
      else Drop(Respond(s, e.fd, sa, SA_DIFFERENT), e.fd)
    else
      var o := FindSa(s.table, sa);
      if o < |s.table| then
        if Guarded(s.cfg) then
          Send(Put(s, o, s.table[o].(routingFd := e.fd, singleAlive := true, armed := true)),
               AliveRequest(s.table[o].fd))
        else
          Respond(Put(s, i, e.(state := RoutingActive, registered := true, sa := sa)), e.fd, sa, ACTIVATED)
      else if RegisteredCount(s.table) % 256 == s.cfg.mcts then
        var s' := Put(s, i, e.(sa := sa));
        s'.(table := AskAll(s'.table, sa), out := s'.out + AliveRequests(s'.table))
      else
        CheckAuth(Put(s, i, e.(registered := true, sa := sa)), e.fd, authen)
  }

  /** A routing activation request: payload length, tester address, type, authentication info. */
  function Request(s: Server, fd: int, length: int, sa: int, kind: int, info: int): Server {
    if length != 7 && length != 11 then Send(s, HeaderNack(fd))
    else if Guarded(s.cfg) && !KnownSa(s.cfg, sa) then Drop(Respond(s, fd, sa, UNKNOWN_SA), fd)
    else if 0x02 <= kind <= 0xDF then Drop(Respond(s, fd, sa, UNSUPPORTED), fd)
    else
      var authen := if length == 11 then info else 0;
      var i := FindFd(s.table, fd);
      if i == |s.table| then s
      else Decide(Put(s, i, s.table[i].(authen := authen)), i, sa, authen)
  }

  /** An alive check response names the tester address it speaks for. */
  function AliveAnswer(s: Server, fd: int, length: int, sa: int): Server {
    if length != 2 then Send(s, HeaderNack(fd))
    else
      var i := FindSa(s.table, sa);
      if i == |s.table| then s
      else
        var s1 := Put(s, i, s.table[i].(armed := false));
        if s1.table[i].allAlive then CountAnswer(s1, i)
        else if s1.table[i].singleAlive then RefuseRival(s1, i, sa)
        else s1
  }

  /** An answer in an all-socket check: the last one refuses a socket that still waits. */
  function CountAnswer(s: Server, i: nat): Server
    requires i < |s.table|
  {
    var e := s.table[i];
    var s1 := Put(s, i, e.(allAlive := false));
    var n := (s.ncts + 1) % 256;
    if n == s.cfg.mcts then
      var w := FindSa(s1.table, e.routingSa);
      if w < |s1.table| && !s1.table[w].registered then
        Drop(Respond(s1.(ncts := 0), s1.table[w].fd, e.routingSa, ALL_REGISTERED), s1.table[w].fd)
      else s1.(ncts := 0)
    else s1.(ncts := n)
  }

  /** The holder of an address answered a single check: its rival is refused. */
  function RefuseRival(s: Server, i: nat, sa: int): Server
    requires i < |s.table|
  {
    var e := s.table[i];
    Drop(Respond(Put(s, i, e.(singleAlive := false)), e.routingFd, sa, SA_ELSEWHERE), e.routingFd)
  }

  /** Give the tester address sa to connection w and authenticate it. */
  function TakeOver(s: Server, w: nat, sa: int): Server
    requires w < |s.table|
  {
    var e := s.table[w];
    CheckAuth(Put(s, w, e.(sa := sa, registered := true, state := RoutingActive)), e.fd, e.authen)
  }

  /** A single alive check got no answer: the new connection takes the address over. */
  function SingleExpired(s: Server, i: nat): Server
    requires i < |s.table|
  {
    var e := s.table[i];
    var w := FindFd(s.table, e.routingFd);
    Drop(if w < |s.table| then TakeOver(s, w, e.sa) else s, e.fd)
  }

  /** Close fd, after connection w, if there is one that is not registered, was given sa. */
  function Closing(s: Server, w: nat, sa: int, fd: int): Server {
    Drop(if w < |s.table| && !s.table[w].registered then TakeOver(s, w, sa) else s, fd)
  }

  /** The count of sockets that reacted in the current round, in eight bits. */
  function Counted(s: Server): int {
    var n := (s.ncts + 1) % 256;
    if n == s.cfg.mcts then 0 else n
  }

  /** One of all sockets asked gave no answer: the waiting connection takes its place. */
  function RoundExpired(s: Server, i: nat): Server
    requires i < |s.table|
  {
    var e := s.table[i];
    Closing(s.(ncts := Counted(s)), FindSa(s.table, e.routingSa), e.routingSa, e.fd)
  }

  /** The alive check of connection fd timed out. */
  function AliveTimeout(s: Server, fd: int): Server {
    var i := FindFd(s.table, fd);
    if i == |s.table| || !s.table[i].armed then s
    else
      var s1 := Put(s, i, s.table[i].(armed := false));
      if s1.table[i].singleAlive then SingleExpired(s1, i) else RoundExpired(s1, i)
  }

  /** The user's answer: 1 no confirmation needed, 2 passed, anything else rejected. */
  function UserAnswer(s: Server, sa: int, result: int): Server {
    var i := FindSa(s.table, sa);
    if s.entity.None? || i == |s.table| || s.table[i].state != PendingConf then s
    else
      var e := s.table[i].(state := RoutingActive, registered := true);
      if result == 2 then Respond(Put(s, i, e), e.fd, sa, CONFIRMED)
      else if result == 1 then Respond(Put(s, i, e), e.fd, sa, ACTIVATED)
      else Respond(s, e.fd, sa, REJECTED)
  }

  function NewEntry(fd: int): Entry {
    Entry(fd, 0, 0, false, false, false, 0, 0, Initialized, false)
  }

  /** A new connection; the open sockets are counted in eight bits. */
  function Accept(s: Server, fd: int): Server {
    if s.cfg.edgeGateway && !s.cfg.activationLine then s
    else if |s.clients| % 256 >= s.cfg.mcts + 1 then s
    else s.(clients := s.clients + [fd], table := s.table + [NewEntry(fd)])
  }

  datatype Event =
    | Accepted(fd: int)
    | Requested(fd: int, length: int, sa: int, kind: int, info: int)
    | Answered(fd: int, length: int, sa: int)
    | TimedOut(fd: int)
    | UserAnswered(sa: int, result: int)
    | Disconnected(fd: int)
    | EntityChanged(entity: Option<Entity>)
    | LineChanged(active: bool)

  function Apply(s: Server, e: Event): Server {
    match e
    case Accepted(fd) => Accept(s, fd)
    case Requested(fd, length, sa, kind, info) => Request(s, fd, length, sa, kind, info)
    case Answered(fd, length, sa) => AliveAnswer(s, fd, length, sa)
    case TimedOut(fd) => AliveTimeout(s, fd)
    case UserAnswered(sa, result) => UserAnswer(s, sa, result)
    case Disconnected(fd) => Drop(s, fd)
    case EntityChanged(entity) => s.(entity := entity)
    case LineChanged(active) => s.(cfg := s.cfg.(activationLine := active))
  }

  /** The operating system gives a new connection an fd that is not open. */
  predicate Possible(s: Server, e: Event) {
    e.Accepted? ==> e.fd !in s.clients && FindFd(s.table, e.fd) == |s.table|
  }

  function Start(cfg: Config): Server {
    Server(cfg, None, [], [], 0, [])
  }

  function Run(s: Server, es: seq<Event>): Server
    decreases es
  {
    if es == [] then s else Run(Apply(s, es[0]), es[1..])
  }

  ghost predicate Feasible(s: Server, es: seq<Event>)
    decreases es
  {
    es != [] ==> Possible(s, es[0]) && Feasible(Apply(s, es[0]), es[1..])
  }
}
