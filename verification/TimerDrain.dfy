/** The drain loop: every due timer fires, again and again if it repeats, until only later
    deadlines are left. */
module TimerDrain {
  import opened TimerSpec

  /** The drain comes to an end only if no due timer repeats without a period. */
  ghost predicate Ends(q: seq<Timer>, now: Time) {
    forall i :: 0 <= i < |q| && Due(q[i], now) && Again(q[i]) ==> q[i].period > 0
  }

  // ---------- how often a timer fires ----------

  function Firings(t: Timer, now: Time): nat
    requires Due(t, now) && Again(t) ==> t.period > 0
  {
    if !Due(t, now) then 0 else if Again(t) then Sub(now, t.deadline) / t.period + 1 else 1
  }

  lemma Multiple(d: int, p: int)
    requires 0 < p
    ensures d >= 1 ==> d * p >= p
    ensures d <= -1 ==> d * p <= -p
  {
  }

  lemma DivLess(a: int, p: int)
    requires 0 < p
    ensures (a - p) / p == a / p - 1
  {
    var x, y := (a - p) / p, a / p;
    assert a - p == x * p + (a - p) % p && a == y * p + a % p;
    assert (y - 1 - x) * p == y * p - p - x * p;
    Multiple(y - 1 - x, p);
  }

  lemma FiringsAdvance(t: Timer, now: Time)
    requires Due(t, now) && Again(t) && t.period > 0 && Proper(t.deadline)
    ensures Firings(Next(t), now) == Firings(t, now) - 1
  {
    PlusIsExact(t.deadline, t.period);
    var a := Sub(now, t.deadline);
    DivLess(a, t.period);
    if a < t.period {
      assert a / t.period == 0;
    }
  }

  /** All firings together: the measure of the loop. */
  ghost function Total(q: seq<Timer>, now: Time): nat
    requires Ends(q, now)
  {
    if q == [] then 0 else Firings(q[0], now) + Total(q[1..], now)
  }

  lemma {:induction false} InsertEnds(q: seq<Timer>, t: Timer, now: Time)
    requires Ends(q, now) && (Due(t, now) && Again(t) ==> t.period > 0)
    ensures Ends(Insert(q, t), now) && Total(Insert(q, t), now) == Total(q, now) + Firings(t, now)
  {
    if q == [] || At(q[0]) > At(t) {
      assert ([t] + q)[1..] == q;
    } else {
      InsertEnds(q[1..], t, now);
      var u := Insert(q[1..], t);
      assert ([q[0]] + u)[1..] == u;
    }
  }

  /** Each turn of the loop takes exactly one firing off the measure. */
  lemma FireCounts(q: seq<Timer>, now: Time)
    requires Fires(q, now) && Ends(q, now) && Normal(q)
    ensures Ends(Fire(q), now) && Total(Fire(q), now) == Total(q, now) - 1
  {
    if Again(q[0]) {
      FiringsAdvance(q[0], now);
      InsertEnds(q[1..], Next(q[0]), now);
    }
  }

  // ---------- the drain ----------

  datatype Drained = Drained(fired: seq<Timer>, left: seq<Timer>)

  ghost function Drain(q: seq<Timer>, now: Time): Drained
    requires Sorted(q) && Normal(q) && Ends(q, now)
    decreases Total(q, now)
  {
    if !Fires(q, now) then Drained([], q)
    else
      FireKeeps(q);
      FireCounts(q, now);
      var d := Drain(Fire(q), now);
      Drained([q[0]] + d.fired, d.left)
  }

  /** The drain fires in nondecreasing deadline order and never early, as many times as its
      measure says, and leaves a sorted list of later deadlines. */
  lemma {:induction false} DrainInOrder(q: seq<Timer>, now: Time, from: int)
    requires Sorted(q) && Normal(q) && Ends(q, now) && forall i :: 0 <= i < |q| ==> from <= At(q[i])
    ensures var d := Drain(q, now);
      && Sorted(d.fired) && Sorted(d.left) && |d.fired| == Total(q, now)
      && (forall i :: 0 <= i < |d.fired| ==> from <= At(d.fired[i]) <= Ms(now))
      && (forall i :: 0 <= i < |d.left| ==> At(d.left[i]) > Ms(now))
    decreases Total(q, now)
  {
    if Fires(q, now) {
      FireKeeps(q);
      FireCounts(q, now);
      DrainInOrder(Fire(q), now, At(q[0]));
    } else {
      NoneDue(q, now);
    }
  }

  lemma {:induction false} NoneDue(q: seq<Timer>, now: Time)
    requires Sorted(q) && !Fires(q, now) && Ends(q, now)
    ensures Total(q, now) == 0 && forall i :: 0 <= i < |q| ==> At(q[i]) > Ms(now)
  {
    if q != [] {
      NoneDue(q[1..], now);
    }
  }

  // ---------- each timer on its own ----------

  /** The entries with a given id, in order. */
  function Of(q: seq<Timer>, id: int): seq<Timer> {
    if q == [] then [] else (if q[0].id == id then [q[0]] else []) + Of(q[1..], id)
  }

  lemma {:induction false} OfInsert(q: seq<Timer>, t: Timer, id: int)
    ensures t.id != id ==> Of(Insert(q, t), id) == Of(q, id)
    ensures t.id == id && Of(q, id) == [] ==> Of(Insert(q, t), id) == [t]
  {
    if q == [] || At(q[0]) > At(t) {
      assert ([t] + q)[1..] == q;
    } else {
      OfInsert(q[1..], t, id);
      var u := Insert(q[1..], t);
      assert ([q[0]] + u)[1..] == u;
    }
  }

  /** What one timer does on its own: fire at its deadline and at every later multiple of its
      period that has come. */
  ghost function Ticks(t: Timer, now: Time): seq<Timer>
    requires Proper(t.deadline) && (Due(t, now) && Again(t) ==> t.period > 0)
    decreases Firings(t, now)
  {
    if !Due(t, now) then []
    else if Again(t) then
      FiringsAdvance(t, now);
      PlusIsExact(t.deadline, t.period);
      [t] + Ticks(Next(t), now)
    else [t]
  }

  /** What is left of it. */
  ghost function Rest(t: Timer, now: Time): seq<Timer>
    requires Due(t, now) && Again(t) ==> t.period > 0
  {
    if !Due(t, now) then [t]
    else if Again(t) then [t.(deadline := Plus(t.deadline, Firings(t, now) * t.period))]
    else []
  }

  /** The k-th firing is k periods after the first, to the nanosecond. */
  lemma {:induction false} TicksAre(t: Timer, now: Time)
    requires Proper(t.deadline) && (Due(t, now) && Again(t) ==> t.period > 0)
    ensures |Ticks(t, now)| == Firings(t, now)
    ensures Due(t, now) && Again(t) ==>
      forall k :: 0 <= k < Firings(t, now) ==>
        0 <= k * t.period && Ticks(t, now)[k] == t.(deadline := Plus(t.deadline, k * t.period))
    decreases Firings(t, now)
  {
    if Due(t, now) && Again(t) {
      var p, u := t.period, Next(t);
      FiringsAdvance(t, now);
      PlusIsExact(t.deadline, p);
      TicksAre(u, now);
      forall k | 0 <= k < Firings(t, now)
        ensures 0 <= k * p && Ticks(t, now)[k] == t.(deadline := Plus(t.deadline, k * p))
      {
        if k == 0 {
          PlusTwice(t.deadline, 0, 0);
          assert 0 * p == 0 && Plus(t.deadline, 0) == t.deadline;
        } else {
          assert Due(u, now);
          MulPred(k, p);
          PlusTwice(t.deadline, p, (k - 1) * p);
          assert Ticks(t, now)[k] == Ticks(u, now)[k - 1];
        }
      }
    }
  }

  lemma MulPred(k: int, p: int)
    requires 1 <= k && 0 < p
    ensures k * p == (k - 1) * p + p && 0 <= (k - 1) * p
  {
  }

  lemma RestAdvance(t: Timer, now: Time)
    requires Proper(t.deadline) && Due(t, now) && Again(t) && t.period > 0
    ensures Rest(t, now) == Rest(Next(t), now)
  {
    var n, p, u := Firings(t, now), t.period, Next(t);
    FiringsAdvance(t, now);
    MulPred(n, p);
    if Due(u, now) {
      PlusTwice(t.deadline, p, (n - 1) * p);
    } else {
      assert n == 1 && n * p == p;
    }
  }

  /** With distinct ids, the drain does to each timer what that timer does on its own. */
  lemma {:induction false} DrainEachExactly(q: seq<Timer>, now: Time, id: int)
    requires Sorted(q) && Normal(q) && Ends(q, now) && |Of(q, id)| <= 1
    ensures var d := Drain(q, now);
      if Of(q, id) == [] then Of(d.fired, id) == [] && Of(d.left, id) == []
      else
        var t := Of(q, id)[0];
        && Proper(t.deadline) && (Due(t, now) && Again(t) ==> t.period > 0)
        && Of(d.fired, id) == Ticks(t, now) && Of(d.left, id) == Rest(t, now)
    decreases Total(q, now)
  {
    if Fires(q, now) {
      FireKeeps(q);
      FireCounts(q, now);
      var u := Fire(q);
      var d := Drain(u, now);
      FireEach(q, now, id);
      DrainEachExactly(u, now, id);
      assert ([q[0]] + d.fired)[1..] == d.fired;
      assert Of([q[0]] + d.fired, id) == (if q[0].id == id then [q[0]] else []) + Of(d.fired, id);
    } else {
      NoneDue(q, now);
      OfMember(q, id);
    }
  }

  /** One firing, seen by the timer with the given id. */
  lemma FireEach(q: seq<Timer>, now: Time, id: int)
    requires Fires(q, now) && Normal(q) && Ends(q, now) && |Of(q, id)| <= 1
    ensures q[0].id != id ==> Of(Fire(q), id) == Of(q, id)
    ensures q[0].id == id ==>
      && Of(q, id) == [q[0]]
      && Of(Fire(q), id) == (if Again(q[0]) then [Next(q[0])] else [])
      && Ticks(q[0], now) == [q[0]] + (if Again(q[0]) then Ticks(Next(q[0]), now) else [])
      && Rest(q[0], now) == if Again(q[0]) then Rest(Next(q[0]), now) else []
  {
    var t := q[0];
    if t.id == id {
      assert Of(q, id) == [t] + Of(q[1..], id) && Of(q[1..], id) == [];
    }
    if Again(t) {
      OfInsert(q[1..], Next(t), id);
      PlusIsExact(t.deadline, t.period);
      FiringsAdvance(t, now);
      RestAdvance(t, now);
    }
  }

  lemma {:induction false} OfMember(q: seq<Timer>, id: int)
    ensures forall x :: x in Of(q, id) ==> x in q && x.id == id
  {
    if q != [] {
      OfMember(q[1..], id);
    }
  }

  // ---------- how long to sleep ----------

  const INFINITE := 0xFFFF_FFFF

  /** The sleeping time in milliseconds, in 32 bits. */
  function Sleep(left: seq<Timer>, now: Time): int {
    if left == [] then INFINITE else Sub(left[0].deadline, now) % 0x1_0000_0000
  }

  /** Periods are C ints, so no deadline lies further ahead than this. */
  ghost predicate WithinReach(q: seq<Timer>, now: Time) {
    forall i :: 0 <= i < |q| ==> At(q[i]) <= Ms(now) + 0x7FFF_FFFF && q[i].period <= 0x7FFF_FFFF
  }

  lemma FireWithinReach(q: seq<Timer>, now: Time)
    requires Fires(q, now) && Normal(q) && WithinReach(q, now)
    ensures WithinReach(Fire(q), now)
  {
    var t, u := q[0], Fire(q);
    PlusIsExact(t.deadline, t.period);
    InsertHas(q[1..], Next(t));
    forall i | 0 <= i < |u| ensures At(u[i]) <= Ms(now) + 0x7FFF_FFFF && u[i].period <= 0x7FFF_FFFF {
      assert u[i] in u;
      if !(Again(t) && u[i] == Next(t)) {
        var j :| 0 <= j < |q[1..]| && q[1..][j] == u[i];
        assert q[j + 1] == u[i];
      }
    }
  }

  lemma {:induction false} DrainWithinReach(q: seq<Timer>, now: Time)
    requires Sorted(q) && Normal(q) && Ends(q, now) && WithinReach(q, now)
    ensures WithinReach(Drain(q, now).left, now)
    decreases Total(q, now)
  {
    if Fires(q, now) {
      FireKeeps(q);
      FireCounts(q, now);
      FireWithinReach(q, now);
      DrainWithinReach(Fire(q), now);
    }
  }

  lemma SleepIsExact(left: seq<Timer>, now: Time)
    requires Sorted(left) && WithinReach(left, now) && forall i :: 0 <= i < |left| ==> At(left[i]) > Ms(now)
    ensures var s := Sleep(left, now);
      && (s == INFINITE <==> left == [])
      && s > 0
      && (left != [] ==> Ms(now) + s == At(left[0]) && forall i :: 0 <= i < |left| ==> Ms(now) + s <= At(left[i]))
  {
    if left != [] {
      var d := Sub(left[0].deadline, now);
      assert 0 < d <= 0x7FFF_FFFF && d % 0x1_0000_0000 == d;
    }
  }

  /** After the drain the thread sleeps exactly until the earliest deadline that is left, and
      without end exactly when no timer is left. */
  lemma SleepsUntilEarliest(q: seq<Timer>, now: Time)
    requires Sorted(q) && Normal(q) && Ends(q, now) && WithinReach(q, now)
    ensures var left := Drain(q, now).left; var s := Sleep(left, now);
      && (s == INFINITE <==> left == [])
      && s > 0
      && (left != [] ==> Ms(now) + s == At(left[0]) && forall i :: 0 <= i < |left| ==> Ms(now) + s <= At(left[i]))
  {
    DrainWithinReach(q, now);
    DrainInOrder(q, now, if q == [] then 0 else At(q[0]));
    SleepIsExact(Drain(q, now).left, now);
  }

  // ---------- when the loop ends ----------

  /** The list after n turns of the loop, or as it was when nothing was due any more. */
  function Turns(q: seq<Timer>, now: Time, n: nat): seq<Timer>
    decreases n
  {
    if n == 0 || !Fires(q, now) || q[0].period < 0 then q else Turns(Fire(q), now, n - 1)
  }

  ghost predicate Stops(q: seq<Timer>, now: Time) {
    exists n: nat :: !Fires(Turns(q, now, n), now)
  }

  lemma {:induction false} EndsStops(q: seq<Timer>, now: Time)
    requires Sorted(q) && Normal(q) && Ends(q, now)
    ensures !Fires(Turns(q, now, Total(q, now)), now)
    decreases Total(q, now)
  {
    if Fires(q, now) {
      FireKeeps(q);
      FireCounts(q, now);
      EndsStops(Fire(q), now);
    }
  }

  lemma EndlessStays(q: seq<Timer>, now: Time)
    requires Sorted(q) && Normal(q) && !Ends(q, now)
    ensures Fires(q, now) && q[0].period >= 0
    ensures Sorted(Fire(q)) && Normal(Fire(q)) && !Ends(Fire(q), now)
  {
    FireKeeps(q);
    var i :| 0 <= i < |q| && Due(q[i], now) && Again(q[i]) && q[i].period <= 0;
    var t, u := q[i], Fire(q);
    if i == 0 {
      PlusIsExact(t.deadline, 0);
      InsertHas(q[1..], Next(t));
      assert Next(t) in u && Due(Next(t), now);
    } else {
      InsertHas(q[1..], Next(q[0]));
      assert q[1..][i - 1] == t;
      assert t in u;
    }
  }

  lemma {:induction false} EndlessFires(q: seq<Timer>, now: Time, n: nat)
    requires Sorted(q) && Normal(q) && !Ends(q, now)
    ensures Fires(Turns(q, now, n), now)
    decreases n
  {
    EndlessStays(q, now);
    if n > 0 {
      EndlessFires(Fire(q), now, n - 1);
      TurnOnce(q, now, n);
    }
  }

  lemma TurnOnce(q: seq<Timer>, now: Time, n: nat)
    requires n > 0 && Fires(q, now) && q[0].period >= 0
    ensures Turns(q, now, n) == Turns(Fire(q), now, n - 1)
  {
  }

  /** The loop ends exactly when every due timer that repeats has a positive period: one with
      period zero fires for ever. */
  lemma DrainEndsIff(q: seq<Timer>, now: Time)
    requires Sorted(q) && Normal(q)
    ensures Stops(q, now) <==> Ends(q, now)
  {
    if Ends(q, now) {
      EndsStops(q, now);
    } else {
      forall n: nat ensures Fires(Turns(q, now, n), now) {
        EndlessFires(q, now, n);
      }
    }
  }
}
