/** The timer manager as it runs: an id table, a list and a drain loop changed in place. */
module TimerCode {
  import opened TimerSpec
  import opened TimerDrain
  import Ids = TimerIds

  /** Whether the drain makes a repeating timer the new head, which signals the thread. */
  ghost function Signals(q: seq<Timer>, now: Time): bool
    requires Sorted(q) && Normal(q) && Ends(q, now)
    decreases Total(q, now)
  {
    Fires(q, now) &&
    (FireKeeps(q);
     FireCounts(q, now);
     (Again(q[0]) && Place(q[1..], At(Next(q[0]))) == 0) || Signals(Fire(q), now))
  }

  lemma InsertFacts(q: seq<Timer>, t: Timer)
    requires Sorted(q) && Normal(q) && Proper(t.deadline) && 0 <= t.period
    ensures var k := Place(q, At(t)); Insert(q, t) == q[..k] + [t] + q[k..]
    ensures Sorted(Insert(q, t)) && Normal(Insert(q, t))
    ensures Place(q, At(t)) == 0 <==> forall j :: 0 <= j < |q| ==> At(t) < At(q[j])
  {
    InsertAtPlace(q, t);
    InsertSortedStable(q, t);
    InsertNormal(q, t);
  }

  class TimerManager {
    var timers: seq<Timer>
    const table: array<bool>
    var signal: bool

    constructor ()
      ensures Valid() && State() == Ids.EMPTY && !signal && fresh(table)
    {
      timers, signal := [], false;
      table := new bool[Ids.MAX_ID + 1](_ => false);
    }

    ghost predicate Valid()
      reads this, table
    {
      table.Length == Ids.MAX_ID + 1 && !table[0] && Sorted(timers) && Normal(timers)
    }

    ghost function Marked(): set<int>
      reads table
    {
      set i | 0 <= i < table.Length && table[i]
    }

    /** The manager while no callback runs. */
    ghost function State(): Ids.Manager
      reads this, table
    {
      Ids.Manager(Marked(), timers, Ids.Idle)
    }

    method NextId() returns (id: int)
      requires Valid()
      ensures id == Ids.NextId(Marked())
    {
      id := 0;
      for i := 0 to Ids.MAX_ID
        invariant id == i && forall j :: 1 <= j <= i ==> table[j]
      {
        id := id + 1;
        if id != 0 && !table[id] {
          assert id !in Marked() && forall j :: 1 <= j < id ==> j in Marked();
          return;
        }
      }
      assert forall j :: 1 <= j <= Ids.MAX_ID ==> j in Marked();
      id := 0;
    }

    /** The timer goes to its place; the thread is signalled exactly when it is the earliest. */
    method AddRequest(t: Timer)
      requires Valid() && Proper(t.deadline) && 0 <= t.period
      modifies this`timers, this`signal
      ensures Valid() && timers == Insert(old(timers), t)
      ensures signal == (old(signal) || forall j :: 0 <= j < |old(timers)| ==> At(t) < At(old(timers)[j]))
    {
      var pos := 0;
      while pos < |timers| && Sub(timers[pos].deadline, t.deadline) <= 0
        invariant pos <= |timers| && Place(timers, At(t)) == pos + Place(timers[pos..], At(t))
      {
        pos := pos + 1;
      }
      InsertFacts(timers, t);
      timers := timers[..pos] + [t] + timers[pos..];
      if pos == 0 {
        signal := true;
      }
    }

    method Start(iterate: int, period: int, now: Time) returns (id: int)
      requires Valid() && Proper(now)
      modifies this, table
      ensures Valid()
      ensures id == Ids.StartId(old(State()), period)
      ensures State() == Ids.Start(old(State()), iterate, period, now)
      ensures signal == (old(signal) || (id != 0 &&
                forall j :: 0 <= j < |old(timers)| ==> Ms(now) + period < At(old(timers)[j])))
    {
      if period < 0 {
        return 0;
      }
      id := NextId();
      if id != 0 {
        table[id] := true;
        assert Marked() == old(Marked()) + {id};
        PlusIsExact(now, period);
        AddRequest(Timer(id, Plus(now, period), period, iterate));
      }
    }

    method FindTimer(id: int) returns (i: nat)
      ensures i == Ids.FindId(timers, id)
    {
      i := 0;
      while i < |timers| && timers[i].id != id
        invariant i <= |timers| && Ids.FindId(timers, id) == i + Ids.FindId(timers[i..], id)
      {
        i := i + 1;
      }
    }

    method Remove(i: nat)
      requires Valid() && i < |timers|
      modifies this`timers
      ensures Valid() && timers == Ids.Without(old(timers), i)
    {
      Ids.WithoutInOrder(timers, i);
      timers := timers[..i] + timers[i + 1..];
    }

    method Stop(id: int)
      requires Valid() && 0 <= id <= Ids.MAX_ID
      modifies this`timers, table
      ensures Valid() && State() == Ids.Stop(old(State()), id)
    {
      if id == 0 {
        return;
      }
      table[id] := false;
      assert Marked() == old(Marked()) - {id};
      var i := FindTimer(id);
      if i < |timers| {
        Remove(i);
      }
    }

    /** The timer moves to its new place; the thread is signalled exactly when it becomes the earliest. */
    method Restart(iterate: int, period: int, id: int, now: Time)
      requires Valid() && Proper(now)
      modifies this`timers, this`signal
      ensures Valid() && State() == Ids.Restart(old(State()), iterate, period, id, now)
      ensures signal == (old(signal) ||
                (period >= 0 && id != 0 && Ids.FindId(old(timers), id) < |old(timers)| &&
                 forall t :: t in Ids.Without(old(timers), Ids.FindId(old(timers), id)) ==> Ms(now) + period < At(t)))
    {
      if period < 0 || id == 0 {
        return;
      }
      var i := FindTimer(id);
      if i < |timers| {
        Remove(i);
        PlusIsExact(now, period);
        AddRequest(Timer(id, Plus(now, period), period, iterate));
      }
    }

    /** Take the head off the list, run its callback and put it back if it repeats. */
    method FireHead(now: Time) returns (t: Timer)
      requires Valid() && Fires(timers, now)
      modifies this`timers, this`signal
      ensures Valid() && t == old(timers)[0] && timers == Fire(old(timers))
      ensures signal == (old(signal) || (Again(t) && Place(old(timers)[1..], At(Next(t))) == 0))
    {
      FireKeeps(timers);
      t := timers[0];
      timers := timers[1..];
      if t.iterate > 0 {
        PlusIsExact(t.deadline, t.period);
        InsertSortedStable(timers, Next(t));
        AddRequest(t.(deadline := Plus(t.deadline, t.period)));
      }
    }

    /** One waking of the thread: fire what is due and say how long to sleep. The list is counted
        in eight bits, which at most 255 timers never overflow. */
    method DrainDue(now: Time) returns (fired: seq<Timer>, sleep: int)
      requires Valid() && Ends(timers, now) && |timers| <= 255
      modifies this`timers, this`signal
      ensures Valid()
      ensures fired == Drain(old(timers), now).fired && timers == Drain(old(timers), now).left
      ensures sleep == Sleep(timers, now)
      ensures signal == (old(signal) || Signals(old(timers), now))
    {
      fired, sleep := [], INFINITE;
      while |timers| % 256 != 0
        invariant Valid() && Ends(timers, now) && |timers| <= 255
        invariant Resumes(old(timers), fired, timers, now)
        invariant signal || Signals(timers, now) <==> old(signal) || Signals(old(timers), now)
        decreases Total(timers, now)
      {
        if Sub(now, timers[0].deadline) < 0 {
          sleep := Sub(timers[0].deadline, now) % 0x1_0000_0000;
          return;
        }
        ResumeFire(old(timers), fired, timers, now);
        var t := FireHead(now);
        fired := fired + [t];
        sleep := INFINITE;
      }
      sleep := INFINITE;
    }
  }

  /** After firing `fired`, the list q is what remains to be drained of the list q0. */
  ghost predicate Resumes(q0: seq<Timer>, fired: seq<Timer>, q: seq<Timer>, now: Time)
    requires Sorted(q0) && Normal(q0) && Ends(q0, now)
    requires Sorted(q) && Normal(q) && Ends(q, now)
  {
    fired + Drain(q, now).fired == Drain(q0, now).fired && Drain(q, now).left == Drain(q0, now).left
  }

  lemma FireLength(q: seq<Timer>)
    requires q != [] && 0 <= q[0].period
    ensures |Fire(q)| <= |q|
  {
    Ids.InsertIds(q[1..], Next(q[0]));
  }

  lemma ResumeFire(q0: seq<Timer>, fired: seq<Timer>, q: seq<Timer>, now: Time)
    requires Sorted(q0) && Normal(q0) && Ends(q0, now)
    requires Sorted(q) && Normal(q) && Ends(q, now)
    requires Resumes(q0, fired, q, now) && Fires(q, now)
    ensures var u := Fire(q);
      && Sorted(u) && Normal(u) && Ends(u, now) && |u| <= |q| && Total(u, now) < Total(q, now)
      && Resumes(q0, fired + [q[0]], u, now)
  {
    FireKeeps(q);
    FireCounts(q, now);
    FireLength(q);
    assert fired + ([q[0]] + Drain(Fire(q), now).fired) == fired + [q[0]] + Drain(Fire(q), now).fired;
  }
}
