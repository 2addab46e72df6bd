/** What each timer operation does to the list and the table, timer by timer. */
module TimerEffects {
  import opened TimerSpec
  import opened TimerIds

  /** A start lists one new timer, due a period from now, under the id it returns, marks that id, and
      leaves everything else as it was; for id 0 nothing happens. */
  lemma StartLists(m: Manager, iterate: int, period: int, now: Time)
    ensures var m', id := Start(m, iterate, period, now), StartId(m, period);
      if id == 0 then m' == m
      else
        && 0 <= period && m'.table == m.table + {id} && m'.firing == m.firing
        && multiset(m'.q) == multiset(m.q) + multiset{Timer(id, Plus(now, period), period, iterate)}
  {
    if period >= 0 {
      InsertHas(m.q, Timer(StartId(m, period), Plus(now, period), period, iterate));
    }
  }

  /** A stop gives the id back and takes its timer off the list, if it is on it; all others stay. */
  lemma StopUnlists(m: Manager, id: int)
    requires Distinct(m.q) && id != 0
    ensures var m' := Stop(m, id);
      && m'.table == m.table - {id}
      && (forall t :: t in m'.q <==> t in m.q && t.id != id)
      && (m.firing.Running? && m.firing.timer.id == id ==> m'.firing == m.firing.(stopped := true))
      && (!(m.firing.Running? && m.firing.timer.id == id) ==> m'.firing == m.firing)
  {
    RemovedByPlace(m.q, id);
  }

  lemma RemovedByPlace(q: seq<Timer>, id: int)
    requires Distinct(q)
    ensures forall t :: t in Without(q, FindId(q, id)) <==> t in q && t.id != id
  {
    var i := FindId(q, id);
    forall t ensures t in Without(q, i) <==> t in q && t.id != id {
      if i < |q| {
        LeftAndRight(q, i, t);
      }
    }
  }

  lemma LeftAndRight(q: seq<Timer>, i: nat, t: Timer)
    requires Distinct(q) && i < |q|
    ensures t in Without(q, i) <==> t in q && t.id != q[i].id
  {
    assert q == q[..i] + [q[i]] + q[i + 1..];
    assert t in q <==> t in q[..i] || t == q[i] || t in q[i + 1..];
    if t in q[..i] {
      var j :| 0 <= j < i && q[j] == t;
    }
    if t in q[i + 1..] {
      var j :| i < j < |q| && q[j] == t;
    }
  }

  /** A restart gives the listed timer its new period, flag and deadline, a period from now; it does
      nothing for a negative period, for id 0 or for a timer that is not listed. */
  lemma RestartReplaces(m: Manager, iterate: int, period: int, id: int, now: Time)
    requires Distinct(m.q)
    ensures var m' := Restart(m, iterate, period, id, now);
      if period < 0 || id == 0 || !Holds(m.q, id) then m' == m
      else
        && m'.table == m.table && m'.firing == m.firing && |m'.q| == |m.q|
        && forall t :: t in m'.q <==> (t in m.q && t.id != id) || t == Timer(id, Plus(now, period), period, iterate)
  {
    var i := FindId(m.q, id);
    FindHolds(m.q, id);
    if period >= 0 && i < |m.q| {
      RemovedByPlace(m.q, id);
      InsertHas(Without(m.q, i), Timer(id, Plus(now, period), period, iterate));
      InsertIds(Without(m.q, i), Timer(id, Plus(now, period), period, iterate));
    }
  }

  /** A firing begins exactly when none is under way and the earliest timer is due; it takes that timer
      off the list. */
  lemma FiringTakesHead(m: Manager, now: Time)
    requires Sorted(m.q)
    ensures var m' := Begin(m, now);
      if m.firing.Idle? && exists t :: t in m.q && At(t) <= Ms(now) then
        && m.q != [] && m'.q == m.q[1..] && m'.firing == Running(m.q[0], false) && m'.table == m.table
        && forall t :: t in m.q ==> At(m.q[0]) <= At(t)
      else m' == m
  {
    if m.q != [] {
      assert m.q[0] in m.q;
    }
  }

  /** When the callback returns, a timer that is still set to repeat is listed again, a period after its
      deadline; otherwise it is gone. */
  lemma FiringEnds(m: Manager)
    requires m.firing.Running? && 0 <= m.firing.timer.period
    ensures var m', t := End(m), m.firing.timer;
      && m'.table == m.table && m'.firing.Idle?
      && multiset(m'.q) == multiset(m.q) +
           if t.iterate > 0 then multiset{t.(deadline := Plus(t.deadline, t.period))} else multiset{}
  {
    InsertHas(m.q, Next(m.firing.timer));
  }
}
