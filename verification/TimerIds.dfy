/** Timer ids over any sequence of starts, stops, restarts and firings, where a callback runs
    between taking its timer off the list and putting it back. */
module TimerIds {
  import opened TimerSpec

  const MAX_ID := 255

  /** A timer whose callback runs; `stopped` says that its id was given back meanwhile. */
  datatype Firing = Idle | Running(timer: Timer, stopped: bool)

  datatype Manager = Manager(table: set<int>, q: seq<Timer>, firing: Firing)

  // ---------- the operations ----------

  /** The first id from `from` on that is not marked, 0 if there is none. */
  function FirstFree(table: set<int>, from: int): (id: int)
    requires 1 <= from
    ensures id != 0 ==> from <= id <= MAX_ID && id !in table && forall j :: from <= j < id ==> j in table
    ensures id == 0 <==> forall j :: from <= j <= MAX_ID ==> j in table
    decreases MAX_ID + 1 - from
  {
    if from > MAX_ID then 0 else if from !in table then from else FirstFree(table, from + 1)
  }

  function NextId(table: set<int>): int { FirstFree(table, 1) }

  function FindId(q: seq<Timer>, id: int): (i: nat)
    ensures i <= |q|
    ensures forall j :: 0 <= j < i ==> q[j].id != id
    ensures i < |q| ==> q[i].id == id
  {
    if q == [] || q[0].id == id then 0 else 1 + FindId(q[1..], id)
  }

  function Without(q: seq<Timer>, i: nat): seq<Timer> {
    if i < |q| then q[..i] + q[i + 1..] else q
  }

  /** The id a start returns: 0 for a negative period or when no id is free. */
  function StartId(m: Manager, period: int): int {
    if period < 0 then 0 else NextId(m.table)
  }

  function Start(m: Manager, iterate: int, period: int, now: Time): Manager {
    var id := StartId(m, period);
    if period < 0 || id == 0 then m
    else m.(table := m.table + {id}, q := Insert(m.q, Timer(id, Plus(now, period), period, iterate)))
  }

  function Stop(m: Manager, id: int): Manager {
    if id == 0 then m
    else
      m.(table := m.table - {id},
         q := Without(m.q, FindId(m.q, id)),
         firing := if m.firing.Running? && m.firing.timer.id == id then m.firing.(stopped := true) else m.firing)
  }

  function Restart(m: Manager, iterate: int, period: int, id: int, now: Time): Manager {
    var i := FindId(m.q, id);
    if period < 0 || id == 0 || i == |m.q| then m
    else m.(q := Insert(Without(m.q, i), Timer(id, Plus(now, period), period, iterate)))
  }

  /** Take the due head off the list and run its callback. */
  function Begin(m: Manager, now: Time): Manager {
    if m.firing.Idle? && Fires(m.q, now) then m.(q := m.q[1..], firing := Running(m.q[0], false)) else m
  }

  /** The callback returned: a repeating timer goes back with its next deadline. */
  function End(m: Manager): Manager {
    match m.firing
    case Idle => m
    case Running(t, _) =>
      if Again(t) && 0 <= t.period then m.(q := Insert(m.q, Next(t)), firing := Idle) else m.(firing := Idle)
  }

  datatype Event =
    | Started(iterate: int, period: int, now: Time)
    | Stopped(id: int)
    | Restarted(iterate: int, period: int, id: int, now: Time)
    | Begun(now: Time)
    | FlagSet(iterate: int)
    | Ended

  function Apply(m: Manager, e: Event): Manager {
    match e
    case Started(iterate, period, now) => Start(m, iterate, period, now)
    case Stopped(id) => Stop(m, id)
    case Restarted(iterate, period, id, now) => Restart(m, iterate, period, id, now)
    case Begun(now) => Begin(m, now)
    case FlagSet(iterate) =>
      if m.firing.Running? then m.(firing := m.firing.(timer := m.firing.timer.(iterate := iterate))) else m
    case Ended => End(m)
  }

  function Run(m: Manager, es: seq<Event>): Manager
    decreases es
  {
    if es == [] then m else Run(Apply(m, es[0]), es[1..])
  }

  // ---------- the invariant ----------

  ghost predicate Distinct(q: seq<Timer>) {
    forall i, j :: 0 <= i < j < |q| ==> q[i].id != q[j].id
  }

  ghost predicate Holds(q: seq<Timer>, id: int) {
    exists i :: 0 <= i < |q| && q[i].id == id
  }

  /** Live timers have distinct, marked ids; a stopped one whose callback still runs keeps no mark
      of its own. */
  ghost predicate Ids(m: Manager) {
    && (forall x :: x in m.table ==> 1 <= x <= MAX_ID)
    && (forall i :: 0 <= i < |m.q| ==> m.q[i].id in m.table)
    && Distinct(m.q)
    && match m.firing
       case Idle => true
       case Running(t, stopped) =>
         && Proper(t.deadline) && 0 <= t.period
         && if stopped then t.id in m.table ==> Holds(m.q, t.id)
            else t.id in m.table && !Holds(m.q, t.id)
  }

  ghost predicate InOrder(m: Manager) { Sorted(m.q) && Normal(m.q) }

  /** Clock readings are normal times. */
  predicate Timely(e: Event) {
    match e
    case Started(_, _, now) => Proper(now)
    case Restarted(_, _, _, now) => Proper(now)
    case _ => true
  }

  /** A callback that stops its own repeating timer also clears its repeat flag. */
  predicate Tidy(m: Manager, e: Event) {
    e.Ended? && m.firing.Running? ==> !(m.firing.stopped && Again(m.firing.timer))
  }

  lemma ConsIds(t: Timer, q: seq<Timer>)
    ensures forall x :: Holds([t] + q, x) <==> x == t.id || Holds(q, x)
    ensures Distinct([t] + q) <==> Distinct(q) && !Holds(q, t.id)
  {
    var u := [t] + q;
    assert u[0] == t && forall j :: 0 <= j < |q| ==> u[j + 1] == q[j];
    forall x | Holds(q, x) ensures Holds(u, x) {
      var j :| 0 <= j < |q| && q[j].id == x;
      assert u[j + 1].id == x;
    }
    if Distinct(u) {
      forall i, j | 0 <= i < j < |q| ensures q[i].id != q[j].id {
        assert u[i + 1].id != u[j + 1].id;
      }
      forall j | 0 <= j < |q| ensures q[j].id != t.id {
        assert u[0].id != u[j + 1].id;
      }
    }
  }

  lemma {:induction false} InsertIds(q: seq<Timer>, t: Timer)
    ensures |Insert(q, t)| == |q| + 1
    ensures forall x :: Holds(Insert(q, t), x) <==> x == t.id || Holds(q, x)
    ensures Distinct(Insert(q, t)) <==> Distinct(q) && !Holds(q, t.id)
  {
    if q == [] || At(q[0]) > At(t) {
      ConsIds(t, q);
    } else {
      InsertIds(q[1..], t);
      ConsIds(q[0], Insert(q[1..], t));
      assert [q[0]] + q[1..] == q;
      ConsIds(q[0], q[1..]);
    }
  }

  lemma WithoutIds(q: seq<Timer>, i: nat)
    requires Distinct(q) && i < |q|
    ensures Distinct(Without(q, i)) && forall x :: Holds(Without(q, i), x) <==> Holds(q, x) && x != q[i].id
  {
    var u := Without(q, i);
    assert forall j :: 0 <= j < |u| ==> u[j] == q[if j < i then j else j + 1];
    forall x | Holds(q, x) && x != q[i].id ensures Holds(u, x) {
      var j :| 0 <= j < |q| && q[j].id == x;
      assert u[if j < i then j else j - 1].id == x;
    }
    forall x | Holds(u, x) ensures Holds(q, x) && x != q[i].id {
      var j :| 0 <= j < |u| && u[j].id == x;
      assert q[if j < i then j else j + 1].id == x;
    }
  }

  /** The three clauses about the list, in terms of the ids it holds. */
  lemma IdsOf(m: Manager)
    ensures (forall i :: 0 <= i < |m.q| ==> m.q[i].id in m.table) <==> forall x :: Holds(m.q, x) ==> x in m.table
  {
    if forall x :: Holds(m.q, x) ==> x in m.table {
      forall i | 0 <= i < |m.q| ensures m.q[i].id in m.table {
        assert Holds(m.q, m.q[i].id);
      }
    }
  }

  lemma StartIds(m: Manager, iterate: int, period: int, now: Time)
    requires Ids(m)
    ensures Ids(Start(m, iterate, period, now))
  {
    var id, m' := StartId(m, period), Start(m, iterate, period, now);
    if period >= 0 && id != 0 {
      InsertIds(m.q, Timer(id, Plus(now, period), period, iterate));
      IdsOf(m);
      IdsOf(m');
    }
  }

  lemma FindHolds(q: seq<Timer>, id: int)
    ensures FindId(q, id) < |q| <==> Holds(q, id)
  {
  }

  lemma StopIds(m: Manager, id: int)
    requires Ids(m)
    ensures Ids(Stop(m, id))
  {
    var i, m' := FindId(m.q, id), Stop(m, id);
    if id != 0 {
      FindHolds(m.q, id);
      if i < |m.q| {
        WithoutIds(m.q, i);
      }
      IdsOf(m);
      IdsOf(m');
    }
  }

  lemma RestartIds(m: Manager, iterate: int, period: int, id: int, now: Time)
    requires Ids(m)
    ensures Ids(Restart(m, iterate, period, id, now))
  {
    var i, m' := FindId(m.q, id), Restart(m, iterate, period, id, now);
    if period >= 0 && id != 0 && i < |m.q| {
      FindHolds(m.q, id);
      WithoutIds(m.q, i);
      InsertIds(Without(m.q, i), Timer(id, Plus(now, period), period, iterate));
      IdsOf(m);
      IdsOf(m');
    }
  }

  lemma BeginIds(m: Manager, now: Time)
    requires Ids(m) && InOrder(m)
    ensures Ids(Begin(m, now))
  {
    var m' := Begin(m, now);
    if m' != m {
      WithoutIds(m.q, 0);
      assert Without(m.q, 0) == m.q[1..];
      IdsOf(m);
      IdsOf(m');
    }
  }

  /** Putting the timer back keeps the ids in order exactly when it was not stopped while it was
      set to repeat. */
  lemma EndKeepsIdsIff(m: Manager)
    requires Ids(m)
    ensures Ids(End(m)) <==> Tidy(m, Ended)
  {
    var m' := End(m);
    if m.firing.Running? && Again(m.firing.timer) {
      var t := m.firing.timer;
      InsertIds(m.q, Next(t));
      IdsOf(m);
      IdsOf(m');
      assert Holds(m'.q, t.id);
    }
  }

  lemma ApplyIds(m: Manager, e: Event)
    requires Ids(m) && InOrder(m) && Tidy(m, e)
    ensures Ids(Apply(m, e))
  {
    match e
    case Started(iterate, period, now) => StartIds(m, iterate, period, now);
    case Stopped(id) => StopIds(m, id);
    case Restarted(iterate, period, id, now) => RestartIds(m, iterate, period, id, now);
    case Begun(now) => BeginIds(m, now);
    case FlagSet(iterate) =>
    case Ended => EndKeepsIdsIff(m);
  }

  // ---------- the order ----------

  lemma WithoutInOrder(q: seq<Timer>, i: nat)
    requires Sorted(q) && Normal(q)
    ensures Sorted(Without(q, i)) && Normal(Without(q, i))
  {
    var u := Without(q, i);
    if i < |q| {
      assert forall j :: 0 <= j < |u| ==> u[j] == q[if j < i then j else j + 1];
    }
  }

  lemma InsertInOrder(q: seq<Timer>, t: Timer)
    requires Sorted(q) && Normal(q) && Proper(t.deadline) && 0 <= t.period
    ensures Sorted(Insert(q, t)) && Normal(Insert(q, t))
  {
    InsertSortedStable(q, t);
    InsertNormal(q, t);
  }

  /** Every operation keeps the list sorted by deadline. */
  lemma ApplyInOrder(m: Manager, e: Event)
    requires Ids(m) && InOrder(m) && Timely(e)
    ensures InOrder(Apply(m, e))
  {
    match e
    case Started(iterate, period, now) =>
      if period >= 0 {
        PlusIsExact(now, period);
        InsertInOrder(m.q, Timer(StartId(m, period), Plus(now, period), period, iterate));
      }
    case Stopped(id) => WithoutInOrder(m.q, FindId(m.q, id));
    case Restarted(iterate, period, id, now) =>
      if period >= 0 {
        PlusIsExact(now, period);
        WithoutInOrder(m.q, FindId(m.q, id));
        InsertInOrder(Without(m.q, FindId(m.q, id)), Timer(id, Plus(now, period), period, iterate));
      }
    case Begun(now) =>
    case FlagSet(iterate) =>
    case Ended =>
      if m.firing.Running? {
        PlusIsExact(m.firing.timer.deadline, m.firing.timer.period);
        InsertInOrder(m.q, Next(m.firing.timer));
      }
  }

  // ---------- runs ----------

  const EMPTY := Manager({}, [], Idle)

  ghost predicate Orderly(m: Manager, es: seq<Event>)
    decreases es
  {
    es != [] ==> Timely(es[0]) && Tidy(m, es[0]) && Orderly(Apply(m, es[0]), es[1..])
  }

  lemma {:induction false} RunKeeps(m: Manager, es: seq<Event>)
    requires Ids(m) && InOrder(m) && Orderly(m, es)
    ensures Ids(Run(m, es)) && InOrder(Run(m, es))
    decreases es
  {
    if es != [] {
      ApplyIds(m, es[0]);
      ApplyInOrder(m, es[0]);
      RunKeeps(Apply(m, es[0]), es[1..]);
    }
  }

  /** The invariant holds now and after every event. */
  ghost predicate IdsThroughout(m: Manager, es: seq<Event>)
    decreases es
  {
    Ids(m) && (es != [] ==> IdsThroughout(Apply(m, es[0]), es[1..]))
  }

  ghost predicate AllTimely(es: seq<Event>) {
    forall i :: 0 <= i < |es| ==> Timely(es[i])
  }

  lemma {:induction false} IdsThroughoutIffOrderly(m: Manager, es: seq<Event>)
    requires Ids(m) && InOrder(m) && AllTimely(es)
    ensures IdsThroughout(m, es) <==> Orderly(m, es)
    decreases es
  {
    if es != [] {
      var m' := Apply(m, es[0]);
      assert AllTimely(es[1..]);
      ApplyInOrder(m, es[0]);
      if Tidy(m, es[0]) {
        ApplyIds(m, es[0]);
        IdsThroughoutIffOrderly(m', es[1..]);
      } else {
        EndKeepsIdsIff(m);
      }
    }
  }

  /** In every run, if callbacks that stop their own timer clear its repeat flag: live timers have
      distinct ids in 1..255, all marked; a start returns an id that no live timer has; and it
      returns 0 only for a negative period or when all ids are marked. */
  lemma IdsAreDistinctAndFresh(es: seq<Event>, period: int)
    requires Orderly(EMPTY, es)
    ensures var m := Run(EMPTY, es); var id := StartId(m, period);
      && Ids(m) && InOrder(m)
      && (id != 0 ==> 1 <= id <= MAX_ID && id !in m.table && !Holds(m.q, id)
                      && (m.firing.Running? && !m.firing.stopped ==> m.firing.timer.id != id))
      && (id == 0 <==> period < 0 || forall x :: 1 <= x <= MAX_ID ==> x in m.table)
  {
    RunKeeps(EMPTY, es);
    IdsOf(Run(EMPTY, es));
  }

  /** The flag is needed: a repeating timer whose callback stops it and starts another one comes
      back under the id the other one was given. */
  lemma StoppedRepeatDuplicates(now: Time, period: nat)
    requires Proper(now)
    ensures var es := [Started(1, 0, now), Begun(now), Stopped(1), Started(1, period, now), Ended];
      !Distinct(Run(EMPTY, es).q)
  {
    PlusIsExact(now, 0);
    var t, u := Timer(1, Plus(now, 0), 0, 1), Timer(1, Plus(now, period), period, 1);
    var m1, m2 := Manager({1}, [t], Idle), Manager({1}, [], Running(t, false));
    var m3, m4 := Manager({}, [], Running(t, true)), Manager({1}, [u], Running(t, true));
    var m5 := Manager({1}, Insert([u], Next(t)), Idle);
    assert FirstFree({}, 1) == 1;
    assert Apply(EMPTY, Started(1, 0, now)) == m1;
    assert Apply(m1, Begun(now)) == m2;
    assert {1} - {1} == {};
    assert Apply(m2, Stopped(1)) == m3;
    assert Apply(m3, Started(1, period, now)) == m4;
    assert Apply(m4, Ended) == m5;
    InsertIds([u], Next(t));
    assert [u][0].id == 1;
    FiveSteps(now, period, m1, m2, m3, m4, m5);
  }

  lemma FiveSteps(now: Time, period: nat, m1: Manager, m2: Manager, m3: Manager, m4: Manager, m5: Manager)
    requires Apply(EMPTY, Started(1, 0, now)) == m1 && Apply(m1, Begun(now)) == m2
    requires Apply(m2, Stopped(1)) == m3 && Apply(m3, Started(1, period, now)) == m4 && Apply(m4, Ended) == m5
    ensures Run(EMPTY, [Started(1, 0, now), Begun(now), Stopped(1), Started(1, period, now), Ended]) == m5
  {
    var d := [Ended];
    var c := [Started(1, period, now)] + d;
    var b := [Stopped(1)] + c;
    var a := [Begun(now)] + b;
    assert d[1..] == [] && c[1..] == d && b[1..] == c && a[1..] == b;
    assert Run(m4, d) == m5;
    assert Run(m3, c) == m5;
    assert Run(m2, b) == m5;
    assert Run(m1, a) == m5;
    assert ([Started(1, 0, now)] + a)[1..] == a;
    assert [Started(1, 0, now)] + a == [Started(1, 0, now), Begun(now), Stopped(1), Started(1, period, now), Ended];
  }
}
