/** The select registry: a list of events, two bit sets that must agree with it, and what a
    dispatch reports (libdoipstack/ne_doip_select.c). */
module SelectSpec {

  const FD_SET_SIZE := 1024

  /** What is asked for, or ready, on a descriptor; `internal` marks the wake-up socket. */
  datatype Event = Event(fd: int, internal: bool, read: bool, write: bool, data: int)

  datatype Registry = Registry(events: seq<Event>, readFds: set<int>, writeFds: set<int>, maxFd: int)

  function Find(q: seq<Event>, fd: int): (i: nat)
    ensures i <= |q|
    ensures forall j :: 0 <= j < i ==> q[j].fd != fd
    ensures i < |q| ==> q[i].fd == fd
  {
    if q == [] || q[0].fd == fd then 0 else 1 + Find(q[1..], fd)
  }

  predicate Listed(r: Registry, fd: int) { Find(r.events, fd) < |r.events| }

  function Max(a: int, b: int): int { if a < b then b else a }

  function Add(r: Registry, fd: int, e: Event): Registry {
    if Listed(r, fd) then r
    else
      Registry(r.events + [e.(fd := fd)],
               if e.read then r.readFds + {fd} else r.readFds,
               if e.write then r.writeFds + {fd} else r.writeFds,
               Max(r.maxFd, fd))
  }

  function Del(r: Registry, fd: int): Registry {
    if !Listed(r, fd) then r
    else
      var i := Find(r.events, fd);
      r.(events := r.events[..i] + r.events[i + 1..],
         readFds := if r.events[i].read then r.readFds - {fd} else r.readFds,
         writeFds := if r.events[i].write then r.writeFds - {fd} else r.writeFds)
  }

  /** A modification deletes and adds again; nothing happens to an fd that is not listed. */
  function Mod(r: Registry, fd: int, e: Event): Registry {
    if Listed(r, fd) then Add(Del(r, fd), fd, e) else r
  }

  datatype Op = AddOp(fd: int, e: Event) | DelOp(fd: int) | ModOp(fd: int, e: Event)

  function Apply(r: Registry, o: Op): Registry {
    match o
    case AddOp(fd, e) => Add(r, fd, e)
    case DelOp(fd) => Del(r, fd)
    case ModOp(fd, e) => Mod(r, fd, e)
  }

  function Run(r: Registry, os: seq<Op>): Registry
    decreases os
  {
    if os == [] then r else Run(Apply(r, os[0]), os[1..])
  }

  const EMPTY := Registry([], {}, {}, 0)

  // ---------- bits and list agree ----------

  ghost predicate Asks(q: seq<Event>, fd: int, write: bool) {
    exists i :: 0 <= i < |q| && q[i].fd == fd && if write then q[i].write else q[i].read
  }

  ghost predicate OnePerFd(q: seq<Event>) {
    forall i, j :: 0 <= i < j < |q| ==> q[i].fd != q[j].fd
  }

  ghost predicate Below(q: seq<Event>, bound: int) {
    forall i :: 0 <= i < |q| ==> q[i].fd <= bound
  }

  /** At most one event per fd; a bit is set exactly when that event asks for it; max_fd bounds
      them all. */
  ghost predicate Agree(r: Registry) {
    && OnePerFd(r.events)
    && (forall fd :: fd in r.readFds <==> Asks(r.events, fd, false))
    && (forall fd :: fd in r.writeFds <==> Asks(r.events, fd, true))
    && 0 <= r.maxFd && Below(r.events, r.maxFd)
  }

  lemma AsksAppend(q: seq<Event>, e: Event)
    ensures forall fd, write :: Asks(q + [e], fd, write) <==>
              Asks(q, fd, write) || (e.fd == fd && if write then e.write else e.read)
  {
    var u := q + [e];
    assert u[|q|] == e && forall i :: 0 <= i < |q| ==> u[i] == q[i];
  }

  lemma AsksWithout(q: seq<Event>, k: nat)
    requires k < |q| && OnePerFd(q)
    ensures forall fd, write :: Asks(q[..k] + q[k + 1..], fd, write) <==> Asks(q, fd, write) && fd != q[k].fd
  {
    var u := q[..k] + q[k + 1..];
    forall fd, write | Asks(q, fd, write) && fd != q[k].fd ensures Asks(u, fd, write) {
      var i :| 0 <= i < |q| && q[i].fd == fd && if write then q[i].write else q[i].read;
      assert u[if i < k then i else i - 1] == q[i];
    }
    forall fd, write | Asks(u, fd, write) ensures Asks(q, fd, write) && fd != q[k].fd {
      var i :| 0 <= i < |u| && u[i].fd == fd && if write then u[i].write else u[i].read;
      assert q[if i < k then i else i + 1] == u[i];
    }
  }

  lemma AddAgrees(r: Registry, fd: int, e: Event)
    requires Agree(r)
    ensures Agree(Add(r, fd, e))
  {
    if !Listed(r, fd) {
      AsksAppend(r.events, e.(fd := fd));
    }
  }

  lemma DelAgrees(r: Registry, fd: int)
    requires Agree(r)
    ensures Agree(Del(r, fd)) && !Listed(Del(r, fd), fd)
  {
    if Listed(r, fd) {
      var k := Find(r.events, fd);
      AsksWithout(r.events, k);
      OneAsks(r.events, k);
      WithoutIsOnePerFd(r.events, k, r.maxFd);
    }
  }

  lemma WithoutIsOnePerFd(q: seq<Event>, k: nat, bound: int)
    requires k < |q| && OnePerFd(q) && Below(q, bound)
    ensures var u := q[..k] + q[k + 1..];
      OnePerFd(u) && Below(u, bound) && Find(u, q[k].fd) == |u|
  {
    var u := q[..k] + q[k + 1..];
    assert forall i :: 0 <= i < |u| ==> u[i] == q[if i < k then i else i + 1];
  }

  /** With one event per fd, an fd asks for exactly what that event asks for. */
  lemma OneAsks(q: seq<Event>, k: nat)
    requires k < |q| && OnePerFd(q)
    ensures Asks(q, q[k].fd, false) <==> q[k].read
    ensures Asks(q, q[k].fd, true) <==> q[k].write
  {
  }

  lemma ApplyAgrees(r: Registry, o: Op)
    requires Agree(r)
    ensures Agree(Apply(r, o)) && r.maxFd <= Apply(r, o).maxFd
  {
    match o
    case AddOp(fd, e) => AddAgrees(r, fd, e);
    case DelOp(fd) => DelAgrees(r, fd);
    case ModOp(fd, e) =>
      DelAgrees(r, fd);
      AddAgrees(Del(r, fd), fd, e);
  }

  lemma {:induction false} RunKeeps(r: Registry, os: seq<Op>)
    requires Agree(r)
    ensures Agree(Run(r, os)) && r.maxFd <= Run(r, os).maxFd
    decreases os
  {
    if os != [] {
      ApplyAgrees(r, os[0]);
      RunKeeps(Apply(r, os[0]), os[1..]);
    }
  }

  /** After any sequence of operations the bit sets agree with the list. */
  lemma RegistryAgrees(os: seq<Op>)
    ensures Agree(Run(EMPTY, os))
  {
    RunKeeps(EMPTY, os);
  }

  /** A modification makes exactly the new event the one of its fd and leaves all others. */
  lemma ModReplaces(r: Registry, fd: int, e: Event, other: int)
    requires Agree(r) && Listed(r, fd)
    ensures var m := Mod(r, fd, e);
      && (fd in m.readFds <==> e.read) && (fd in m.writeFds <==> e.write)
      && (other != fd ==> (other in m.readFds <==> other in r.readFds) && (other in m.writeFds <==> other in r.writeFds))
  {
  }

  // ---------- what the list holds ----------

  /** An addition lists exactly the event it was given, with all its fields, under the fd; it does nothing
      if the fd is listed. */
  lemma AddLists(r: Registry, fd: int, e: Event)
    ensures var r' := Add(r, fd, e);
      if exists x :: x in r.events && x.fd == fd then r' == r
      else forall x :: x in r'.events <==> x in r.events || x == e.(fd := fd)
  {
    if Listed(r, fd) {
      assert r.events[Find(r.events, fd)] in r.events;
    }
  }

  /** A deletion takes the event of the fd off the list and no other. */
  lemma DelUnlists(r: Registry, fd: int)
    requires Agree(r)
    ensures forall x :: x in Del(r, fd).events <==> x in r.events && x.fd != fd
  {
    var i := Find(r.events, fd);
    if i < |r.events| {
      var u := r.events[..i] + r.events[i + 1..];
      assert forall j :: 0 <= j < |u| ==> u[j] == r.events[if j < i then j else j + 1];
      forall x | x in r.events && x.fd != fd ensures x in u {
        var j :| 0 <= j < |r.events| && r.events[j] == x;
        assert u[if j < i then j else j - 1] == x;
      }
    }
  }

  /** A modification lists the new event in place of the old one. */
  lemma ModRelists(r: Registry, fd: int, e: Event)
    requires Agree(r) && Listed(r, fd)
    ensures forall x :: x in Mod(r, fd, e).events <==> (x in r.events && x.fd != fd) || x == e.(fd := fd)
  {
    DelUnlists(r, fd);
    AddLists(Del(r, fd), fd, e);
  }

  // ---------- what a dispatch reports ----------

  /** What is reported for one descriptor that is below length. */
  function Report(q: seq<Event>, readFds: set<int>, writeFds: set<int>, fd: int): seq<Event> {
    var i := Find(q, fd);
    if i < |q| && !q[i].internal then [q[i].(read := fd in readFds, write := fd in writeFds)] else []
  }

  /** Descriptors from `from` on, in order, up to the first ready one that is not below length. */
  function Reports(q: seq<Event>, readFds: set<int>, writeFds: set<int>, length: int, nfds: int, from: int): seq<Event>
    decreases nfds - from
  {
    if from >= nfds then []
    else if from !in readFds && from !in writeFds then Reports(q, readFds, writeFds, length, nfds, from + 1)
    else if from >= length then []
    else Report(q, readFds, writeFds, from) + Reports(q, readFds, writeFds, length, nfds, from + 1)
  }

  /** What must be reported: ready, below both limits, listed and not internal. */
  predicate Reportable(q: seq<Event>, readFds: set<int>, writeFds: set<int>, length: int, nfds: int, fd: int) {
    && (fd in readFds || fd in writeFds) && fd < length && fd < nfds
    && Find(q, fd) < |q| && !q[Find(q, fd)].internal
  }

  ghost predicate Increasing(s: seq<Event>) {
    forall k, l :: 0 <= k < l < |s| ==> s[k].fd < s[l].fd
  }

  /** The event listed for a reportable descriptor, with the flags that are ready. */
  predicate Honest(q: seq<Event>, readFds: set<int>, writeFds: set<int>, length: int, nfds: int, e: Event) {
    && Reportable(q, readFds, writeFds, length, nfds, e.fd)
    && e == q[Find(q, e.fd)].(read := e.fd in readFds, write := e.fd in writeFds)
  }

  /** A dispatch reports in strictly increasing order, each with the event listed for it and the
      flags that are ready. */
  lemma {:induction false} ReportsInOrder(q: seq<Event>, readFds: set<int>, writeFds: set<int>, length: int, nfds: int, from: int)
    ensures var s := Reports(q, readFds, writeFds, length, nfds, from);
      && (forall e :: e in s ==> from <= e.fd && Honest(q, readFds, writeFds, length, nfds, e))
      && Increasing(s)
    decreases nfds - from
  {
    if from < nfds {
      ReportsInOrder(q, readFds, writeFds, length, nfds, from + 1);
      var h, t := Report(q, readFds, writeFds, from), Reports(q, readFds, writeFds, length, nfds, from + 1);
      if h != [] {
        IncreasingCons(h[0], t);
      }
    }
  }

  lemma IncreasingCons(e: Event, t: seq<Event>)
    requires Increasing(t) && forall x :: x in t ==> e.fd < x.fd
    ensures Increasing([e] + t)
  {
    var s := [e] + t;
    forall k, l | 0 <= k < l < |s| ensures s[k].fd < s[l].fd {
      assert s[l] == t[l - 1] && s[l] in t && (k > 0 ==> s[k] == t[k - 1]);
    }
  }

  /** And it misses none. */
  lemma {:induction false} ReportsAll(q: seq<Event>, readFds: set<int>, writeFds: set<int>, length: int, nfds: int, from: int, fd: int)
    requires from <= fd && Reportable(q, readFds, writeFds, length, nfds, fd)
    ensures Reported(Reports(q, readFds, writeFds, length, nfds, from), fd)
    decreases nfds - from
  {
    var s := Reports(q, readFds, writeFds, length, nfds, from);
    var t := Reports(q, readFds, writeFds, length, nfds, from + 1);
    if from == fd {
      assert s[0].fd == fd;
    } else {
      ReportsAll(q, readFds, writeFds, length, nfds, from + 1, fd);
      var k :| 0 <= k < |t| && t[k].fd == fd;
      assert s[k + |s| - |t|] == t[k];
    }
  }

  ghost predicate Reported(s: seq<Event>, fd: int) {
    exists k :: 0 <= k < |s| && s[k].fd == fd
  }

  /** The list may change while select waits: whatever operations happen meanwhile, an fd is
      reported exactly when it was asked for, is ready, below length, and still listed as an
      ordinary event. */
  lemma DispatchReportsIff(before: Registry, os: seq<Op>, readFds: set<int>, writeFds: set<int>, length: int, fd: int)
    requires Agree(before) && readFds <= before.readFds && writeFds <= before.writeFds
    requires forall x :: x in readFds || x in writeFds ==> 0 <= x
    ensures var after := Run(before, os);
      var s := Reports(after.events, readFds, writeFds, length, before.maxFd + 1, 0);
      Reported(s, fd) <==>
        && (fd in readFds || fd in writeFds) && fd < length
        && Listed(after, fd) && !after.events[Find(after.events, fd)].internal
  {
    var q, nfds := Run(before, os).events, before.maxFd + 1;
    ReportsInOrder(q, readFds, writeFds, length, nfds, 0);
    if fd in readFds {
      assert Asks(before.events, fd, false);
    }
    if fd in writeFds {
      assert Asks(before.events, fd, true);
    }
    var s := Reports(q, readFds, writeFds, length, nfds, 0);
    if k :| 0 <= k < |s| && s[k].fd == fd {
      assert s[k] in s;
    }
    if Reportable(q, readFds, writeFds, length, nfds, fd) {
      ReportsAll(q, readFds, writeFds, length, nfds, 0, fd);
    }
  }
}
