/** Bytes and the integers written in them (libdoipstack/ne_doip_util.c, ne_doip_def.h). */
module Wire {

  type Byte = b: int | 0 <= b < 256

  /** Two bytes, most significant first. */
  function BE16(x: int): (s: seq<Byte>)
    requires 0 <= x < 0x1_0000
    ensures |s| == 2
  {
    [x / 256, x % 256]
  }

  function FromBE16(s: seq<Byte>): int
    requires |s| == 2
  {
    var high: int, low: int := s[0], s[1];
    high * 256 + low
  }

  /** Four bytes, least significant first, as the processor stores a uint32. */
  function LE32(x: int): (s: seq<Byte>)
    requires 0 <= x < 0x1_0000_0000
    ensures |s| == 4
  {
    [x % 256, x / 0x100 % 256, x / 0x1_0000 % 256, x / 0x100_0000]
  }

  function FromLE32(s: seq<Byte>): (x: int)
    requires |s| == 4
    ensures 0 <= x < 0x1_0000_0000
  {
    var a: int, b: int, c: int, d: int := s[0], s[1], s[2], s[3];
    a + b * 0x100 + c * 0x1_0000 + d * 0x100_0000
  }

  function Reverse4(s: seq<Byte>): (r: seq<Byte>)
    requires |s| == 4
    ensures |r| == 4
  {
    [s[3], s[2], s[1], s[0]]
  }

  /** Four bytes, most significant first: the stored form with its bytes swapped. */
  function BE32(x: int): (s: seq<Byte>)
    requires 0 <= x < 0x1_0000_0000
    ensures |s| == 4
  {
    Reverse4(LE32(x))
  }

  function FromBE32(s: seq<Byte>): (x: int)
    requires |s| == 4
    ensures 0 <= x < 0x1_0000_0000
  {
    FromLE32(Reverse4(s))
  }

  lemma BE16RoundTrip(x: int)
    requires 0 <= x < 0x1_0000
    ensures FromBE16(BE16(x)) == x
  {
  }

  lemma LE32RoundTrip(x: int)
    requires 0 <= x < 0x1_0000_0000
    ensures FromLE32(LE32(x)) == x
  {
    var a, b := x / 0x100, x / 0x1_0000;
    assert b == a / 256 && x / 0x100_0000 == b / 256;
  }

  lemma BE32RoundTrip(x: int)
    requires 0 <= x < 0x1_0000_0000
    ensures FromBE32(BE32(x)) == x
  {
    LE32RoundTrip(x);
    assert Reverse4(Reverse4(LE32(x))) == LE32(x);
  }

  /** The byte order: network order puts the most significant byte first, the processor's order last. */
  lemma ByteOrder(x: int)
    requires 0 <= x < 0x1_0000_0000
    ensures BE32(x) == [x / 0x100_0000, x / 0x1_0000 % 256, x / 0x100 % 256, x % 256]
    ensures LE32(x) == [x % 256, x / 0x100 % 256, x / 0x1_0000 % 256, x / 0x100_0000]
    ensures x < 0x1_0000 ==> BE16(x) == [x / 0x100, x % 0x100]
  {
  }

  // ---------- streams ----------

  function Concat(parts: seq<seq<Byte>>): seq<Byte> {
    if parts == [] then [] else parts[0] + Concat(parts[1..])
  }

  lemma {:induction false} ConcatAppend(a: seq<seq<Byte>>, b: seq<seq<Byte>>)
    ensures Concat(a + b) == Concat(a) + Concat(b)
  {
    if a == [] {
      assert a + b == b;
    } else {
      assert (a + b)[1..] == a[1..] + b;
      ConcatAppend(a[1..], b);
    }
  }
}

/** A place in a stream of messages that each follow a header of h bytes. */
module Places {
  import opened Wire

  /** What is still to come: the rest of a message and the messages after it. */
  datatype Place = Place(rest: seq<Byte>, ms: seq<seq<Byte>>)

  /** The place n bytes after the start of the messages ms. */
  function Within(h: nat, n: nat, ms: seq<seq<Byte>>): Place
    decreases |ms|
  {
    if n == 0 || ms == [] then Place([], ms)
    else if n >= h + |ms[0]| then Within(h, n - h - |ms[0]|, ms[1..])
    else Place(if n >= h then ms[0][n - h..] else ms[0], ms[1..])
  }

  function Advance(h: nat, at: Place, n: nat): Place {
    if n <= |at.rest| then Place(at.rest[n..], at.ms) else Within(h, n - |at.rest|, at.ms)
  }
}
