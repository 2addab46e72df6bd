/** Deadlines, the list sorted by deadline and one firing of its head
    (libdoipstack/ne_doip_timer.c, libdoipstack/ne_doip_util.c). */
module TimerSpec {

  // ---------- points in time ----------

  datatype Time = Time(sec: int, nsec: int)

  predicate Proper(t: Time) {
    0 <= t.sec && 0 <= t.nsec < 1_000_000_000
  }

  function Ns(t: Time): int { t.sec * 1_000_000_000 + t.nsec }

  /** Whole milliseconds: deadlines are compared at this precision. */
  function Ms(t: Time): int { t.sec * 1000 + t.nsec / 1_000_000 }

  function Sub(a: Time, b: Time): int { Ms(a) - Ms(b) }

  function Plus(t: Time, msec: nat): Time {
    var sec := t.sec + msec / 1000;
    var nsec := t.nsec + msec % 1000 * 1_000_000;
    if nsec >= 1_000_000_000 then Time(sec + 1, nsec - 1_000_000_000) else Time(sec, nsec)
  }

  /** The addition is exact, to the nanosecond, and keeps the time normal. */
  lemma PlusIsExact(t: Time, msec: nat)
    requires Proper(t)
    ensures Proper(Plus(t, msec))
    ensures Ns(Plus(t, msec)) == Ns(t) + msec * 1_000_000
    ensures Ms(Plus(t, msec)) == Ms(t) + msec
  {
  }

  lemma NsInjective(a: Time, b: Time)
    requires Proper(a) && Proper(b) && Ns(a) == Ns(b)
    ensures a == b
  {
  }

  lemma PlusTwice(t: Time, a: nat, b: nat)
    requires Proper(t)
    ensures Plus(Plus(t, a), b) == Plus(t, a + b)
  {
    PlusIsExact(t, a);
    PlusIsExact(Plus(t, a), b);
    PlusIsExact(t, a + b);
    NsInjective(Plus(Plus(t, a), b), Plus(t, a + b));
  }

  // ---------- the sorted list ----------

  datatype Timer = Timer(id: int, deadline: Time, period: int, iterate: int)

  function At(t: Timer): int { Ms(t.deadline) }

  ghost predicate Sorted(q: seq<Timer>) {
    forall i, j :: 0 <= i < j < |q| ==> At(q[i]) <= At(q[j])
  }

  ghost predicate Normal(q: seq<Timer>) {
    forall i :: 0 <= i < |q| ==> Proper(q[i].deadline) && 0 <= q[i].period
  }

  /** A new timer goes before the first one that is strictly later. */
  function Place(q: seq<Timer>, at: int): (k: nat)
    ensures k <= |q|
    ensures forall j :: 0 <= j < k ==> At(q[j]) <= at
    ensures k < |q| ==> At(q[k]) > at
  {
    if q == [] || At(q[0]) > at then 0 else 1 + Place(q[1..], at)
  }

  function Insert(q: seq<Timer>, t: Timer): seq<Timer> {
    if q == [] || At(q[0]) > At(t) then [t] + q else [q[0]] + Insert(q[1..], t)
  }

  lemma {:induction false} InsertAtPlace(q: seq<Timer>, t: Timer)
    ensures var k := Place(q, At(t)); Insert(q, t) == q[..k] + [t] + q[k..]
  {
    if q != [] && At(q[0]) <= At(t) {
      InsertAtPlace(q[1..], t);
      var k := Place(q[1..], At(t));
      assert [q[0]] + q[1..][..k] == q[..k + 1] && q[1..][k..] == q[k + 1..];
    }
  }

  /** Insertion keeps the list sorted and stable: what stands behind the new timer is strictly
      later. It becomes the head exactly when it is strictly earlier than all others. */
  lemma {:induction false} InsertSortedStable(q: seq<Timer>, t: Timer)
    requires Sorted(q)
    ensures Sorted(Insert(q, t))
    ensures forall j :: Place(q, At(t)) <= j < |q| ==> At(q[j]) > At(t)
    ensures Place(q, At(t)) == 0 <==> forall j :: 0 <= j < |q| ==> At(t) < At(q[j])
  {
    if q != [] && At(q[0]) <= At(t) {
      InsertSortedStable(q[1..], t);
      InsertHas(q[1..], t);
      SortedCons(q[0], Insert(q[1..], t));
      forall j | Place(q, At(t)) <= j < |q| ensures At(q[j]) > At(t) {
        assert q[j] == q[1..][j - 1];
      }
    } else {
      SortedCons(t, q);
    }
  }

  lemma SortedCons(t: Timer, q: seq<Timer>)
    requires Sorted(q) && forall x :: x in q ==> At(t) <= At(x)
    ensures Sorted([t] + q)
  {
    var u := [t] + q;
    forall i, j | 0 <= i < j < |u| ensures At(u[i]) <= At(u[j]) {
      assert u[j] == q[j - 1] && (i > 0 ==> u[i] == q[i - 1]);
      assert u[j] in q;
    }
  }

  lemma {:induction false} InsertHas(q: seq<Timer>, t: Timer)
    ensures multiset(Insert(q, t)) == multiset(q) + multiset{t}
    ensures forall x :: x in Insert(q, t) <==> x == t || x in q
  {
    if q != [] {
      assert q == [q[0]] + q[1..];
      if At(q[0]) <= At(t) {
        InsertHas(q[1..], t);
      }
    }
  }

  // ---------- firing ----------

  predicate Due(t: Timer, now: Time) { Sub(now, t.deadline) >= 0 }

  predicate Again(t: Timer) { t.iterate > 0 }

  /** A repeating timer is set from its deadline, not from the clock. */
  function Next(t: Timer): Timer
    requires 0 <= t.period
  {
    t.(deadline := Plus(t.deadline, t.period))
  }

  predicate Fires(q: seq<Timer>, now: Time) { q != [] && Due(q[0], now) }

  /** The list after its head fired. */
  function Fire(q: seq<Timer>): seq<Timer>
    requires q != [] && 0 <= q[0].period
  {
    if Again(q[0]) then Insert(q[1..], Next(q[0])) else q[1..]
  }

  lemma FireKeeps(q: seq<Timer>)
    requires q != [] && Sorted(q) && Normal(q)
    ensures Sorted(Fire(q)) && Normal(Fire(q))
    ensures forall x :: x in Fire(q) ==> At(x) >= At(q[0])
  {
    if Again(q[0]) {
      PlusIsExact(q[0].deadline, q[0].period);
      InsertSortedStable(q[1..], Next(q[0]));
      InsertHas(q[1..], Next(q[0]));
      InsertNormal(q[1..], Next(q[0]));
    }
  }

  lemma InsertNormal(q: seq<Timer>, t: Timer)
    requires Normal(q) && Proper(t.deadline) && 0 <= t.period
    ensures Normal(Insert(q, t))
  {
    InsertHas(q, t);
    var u := Insert(q, t);
    forall i | 0 <= i < |u| ensures Proper(u[i].deadline) && 0 <= u[i].period {
      assert u[i] in u;
      if u[i] != t {
        var j :| 0 <= j < |q| && q[j] == u[i];
      }
    }
  }
}
