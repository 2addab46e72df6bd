/** The select registry as it runs: bit arrays and list changed in place. */
module SelectCode {
  import opened SelectSpec

  ghost function Bits(a: array<bool>): set<int>
    reads a
  {
    set i | 0 <= i < a.Length && a[i]
  }

  ghost predicate InRange(q: seq<Event>) {
    forall i :: 0 <= i < |q| ==> 0 <= q[i].fd < FD_SET_SIZE
  }

  lemma WithoutInRange(q: seq<Event>, k: nat)
    requires InRange(q) && k < |q|
    ensures InRange(q[..k] + q[k + 1..])
  {
  }

  method SetBit(a: array<bool>, fd: int, bit: bool)
    requires 0 <= fd < a.Length
    modifies a
    ensures Bits(a) == if bit then old(Bits(a)) + {fd} else old(Bits(a)) - {fd}
  {
    a[fd] := bit;
  }

  class Select {
    var events: seq<Event>
    const readSet: array<bool>
    const writeSet: array<bool>
    var maxFd: int
    var notifications: nat

    constructor ()
      ensures Valid() && State() == EMPTY && fresh(readSet) && fresh(writeSet)
    {
      events, maxFd, notifications := [], 0, 0;
      readSet := new bool[FD_SET_SIZE](_ => false);
      writeSet := new bool[FD_SET_SIZE](_ => false);
    }

    ghost predicate Valid()
      reads this, readSet, writeSet
    {
      && readSet.Length == FD_SET_SIZE && writeSet.Length == FD_SET_SIZE && readSet != writeSet
      && Agree(State())
      && 0 <= maxFd < FD_SET_SIZE
      && InRange(events)
    }

    ghost function State(): Registry
      reads this, readSet, writeSet
    {
      Registry(events, Bits(readSet), Bits(writeSet), maxFd)
    }

    method FindEvent(fd: int) returns (i: nat)
      requires Valid()
      ensures i == Find(events, fd)
    {
      i := 0;
      if fd < 0 {
        return |events|;
      }
      while i < |events| && events[i].fd != fd
        invariant i <= |events| && Find(events, fd) == i + Find(events[i..], fd)
      {
        i := i + 1;
      }
    }

    method AddEvent(fd: int, e: Event) returns (ret: int)
      requires Valid() && 0 <= fd < FD_SET_SIZE
      modifies this, readSet, writeSet
      ensures Valid() && State() == Add(old(State()), fd, e)
      ensures ret == if Listed(old(State()), fd) then -1 else 0
      ensures notifications == old(notifications) + if ret == 0 then 1 else 0
    {
      AddAgrees(State(), fd, e);
      var i := FindEvent(fd);
      if i < |events| {
        return -1;
      }
      ret := 0;
      events := events + [e.(fd := fd)];
      maxFd := if maxFd < fd then fd else maxFd;
      notifications := notifications + 1;
      if e.read {
        SetBit(readSet, fd, true);
      }
      if e.write {
        SetBit(writeSet, fd, true);
      }
    }

    method DelEvent(fd: int) returns (ret: int)
      requires Valid() && 0 <= fd < FD_SET_SIZE
      modifies this, readSet, writeSet
      ensures Valid() && State() == Del(old(State()), fd)
      ensures ret == if Listed(old(State()), fd) then 0 else -1
      ensures notifications == old(notifications) + if ret == 0 then 1 else 0
    {
      DelAgrees(State(), fd);
      var i := FindEvent(fd);
      if i == |events| {
        return -1;
      }
      ret := 0;
      var e := events[i];
      WithoutInRange(events, i);
      events := events[..i] + events[i + 1..];
      notifications := notifications + 1;
      if e.read {
        SetBit(readSet, fd, false);
      }
      if e.write {
        SetBit(writeSet, fd, false);
      }
    }

    method ModEvent(fd: int, e: Event) returns (ret: int)
      requires Valid() && 0 <= fd < FD_SET_SIZE
      modifies this, readSet, writeSet
      ensures Valid() && State() == Mod(old(State()), fd, e)
      ensures ret == if Listed(old(State()), fd) then 0 else -1
    {
      DelAgrees(State(), fd);
      ret := DelEvent(fd);
      if ret == 0 {
        ret := AddEvent(fd, e);
      }
    }

    /** Scan the descriptors that select left set and fill the caller's array. */
    method Collect(readOut: array<bool>, writeOut: array<bool>, nfds: int, length: int, out: array<Event>)
      returns (count: nat)
      requires Valid() && readOut.Length == FD_SET_SIZE && writeOut.Length == FD_SET_SIZE
      requires 0 <= nfds <= FD_SET_SIZE && length <= out.Length
      modifies out
      ensures count <= out.Length
      ensures out[..count] == Reports(events, Bits(readOut), Bits(writeOut), length, nfds, 0)
    {
      hide Agree, Valid;
      ghost var r, w := Bits(readOut), Bits(writeOut);
      count := 0;
      var i := 0;
      while i < nfds
        invariant 0 <= i <= nfds && count <= i && count <= out.Length
        invariant Valid()
        invariant Bits(readOut) == r && Bits(writeOut) == w
        invariant out[..count] + Reports(events, r, w, length, nfds, i) == Reports(events, r, w, length, nfds, 0)
      {
        if readOut[i] || writeOut[i] {
          if i >= length {
            break;
          }
          var k := FindEvent(i);
          if k < |events| && !events[k].internal {
            out[count] := events[k].(read := readOut[i], write := writeOut[i]);
            count := count + 1;
          }
        }
        i := i + 1;
      }
      assert out[..count] + [] == out[..count];
    }
  }
}
