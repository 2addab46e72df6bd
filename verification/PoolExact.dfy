/** Exactly which pools keep their promises: those whose waits have no time limit never strand a
    task, and tasks keep their order exactly within a group. */
module PoolExact {
  import opened PoolCore
  import opened PoolSystem
  import opened PoolInvariants
  import opened PoolTheorems
  import opened PoolLimits

  lemma NextIsPool(s: System, s': System)
    requires Next(s, s')
    ensures s'.maxThreads == s.maxThreads && s'.timed == s.timed
    ensures !s.timed ==> s'.expiries == s.expiries
  {
    hide Push, Look, Wake, LeaveExpired, Complete, FreeCheck, Free, Notified;
  }

  lemma {:induction false} RunIsPool(tr: seq<System>, k: nat)
    requires Run(tr) && k < |tr|
    ensures tr[k].maxThreads == tr[0].maxThreads && tr[k].timed == tr[0].timed
    ensures !tr[0].timed ==> tr[k].expiries == 0
  {
    if k > 0 {
      RunIsPool(tr, k - 1);
      NextIsPool(tr[k - 1], tr[k]);
    }
  }

  /** A pool of up to n threads, with or without a time limit on its waits. */
  ghost predicate RunOf(tr: seq<System>, n: nat, timed: bool) {
    Run(tr) && tr[0].maxThreads == n && tr[0].timed == timed
  }

  /** For every maximum of threads and without refused threads: a run that ends with a queued task,
      a running pool and no thread exists exactly if waits are timed. */
  lemma StrandsIffTimed(n: nat, timed: bool)
    requires n > 0
    ensures (exists tr :: RunOf(tr, n, timed) && Stranded(Last(tr))) <==> timed
  {
    if timed {
      var tr := ExpiryStrandsTask(n);
      RunIsPool(tr, |tr| - 1);
      assert RunOf(tr, n, timed) && Stranded(Last(tr));
    } else {
      forall tr | RunOf(tr, n, timed) ensures !Stranded(Last(tr)) {
        NeverStranded(tr);
      }
    }
  }

  lemma NeverStranded(tr: seq<System>)
    requires Run(tr) && !tr[0].timed
    ensures !Stranded(Last(tr))
  {
    var k, s := |tr| - 1, Last(tr);
    RunIsPool(tr, k);
    RunKeeps(tr, k);
    if s.sh.running && s.failures == 0 && s.sh.queue != [] {
      WorkIsNeverStranded(tr, k);
      ActiveIsLive(s);
    }
  }

  lemma ActiveIsLive(s: System)
    requires exists i :: 0 <= i < |s.workers| && IsActive(s.workers[i])
    ensures Cnt(s.workers, IsLive) > 0
  {
    CntWitness(s.workers, IsLive);
    var i :| 0 <= i < |s.workers| && IsActive(s.workers[i]);
    assert IsLive(s.workers[i]);
  }

  /** The same for a graceful stop: a run without refused threads whose caller waits for a queued
      task that no thread is left to run exists exactly if waits are timed. */
  lemma DrainHangsIffTimed(n: nat, timed: bool)
    requires n > 0
    ensures (exists tr :: RunOf(tr, n, timed) && DrainStuck(Last(tr))) <==> timed
  {
    if timed {
      var tr := ExpiryHangsDrain(n);
      RunIsPool(tr, |tr| - 1);
      assert RunOf(tr, n, timed) && DrainStuck(Last(tr));
    } else {
      forall tr | RunOf(tr, n, timed) ensures !DrainStuck(Last(tr)) {
        RunIsPool(tr, |tr| - 1);
        if DrainStuck(Last(tr)) {
          DrainIsNeverStuck(tr, |tr| - 1);
          ActiveIsLive(Last(tr));
        }
      }
    }
  }

  // ---------- order ----------

  /** In every run the tasks of group g finish in the order in which they were accepted. */
  ghost predicate KeepsOrder(g: int) {
    forall tr :: Run(tr) ==> Sub(Last(tr).finished, g) <= Sub(Last(tr).accepted, g)
  }

  /** Order is kept exactly in the groups: tasks of id 0 overtake each other. */
  lemma OrderKeptIffGrouped(g: int)
    ensures KeepsOrder(g) <==> g != 0
  {
    if g != 0 {
      forall tr | Run(tr) ensures Sub(Last(tr).finished, g) <= Sub(Last(tr).accepted, g) {
        GroupsAreSerial(tr, |tr| - 1, g);
      }
    } else {
      var tr := ZeroIdOvertakes();
      assert [T1, T2][1..] == [T2] && [T2][1..] == [];
      assert Sub([T2], 0) == [T2] && Sub([T1, T2], 0) == [T1, T2];
      assert [T2][0] != [T1, T2][0];
    }
  }
}
