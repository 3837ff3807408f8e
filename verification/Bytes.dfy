/** Byte strings, little-endian integers, and "these elements sit at this position". */
module Bytes {

  type byte = n: int | 0 <= n < 256

  const TWO_TO_32: nat := 0x1_0000_0000

  /** What an unsigned 32-bit counter holds. */
  function Wrap32(n: nat): nat {
    n % TWO_TO_32
  }

  lemma Wrap32Add(a: nat, b: nat)
    ensures Wrap32(Wrap32(a) + b) == Wrap32(a + b)
    ensures Wrap32(0) == 0
  {
  }

  /** The elements of t occupy s from position p on. */
  predicate Holds<T(==)>(s: seq<T>, p: nat, t: seq<T>) {
    p + |t| <= |s| && s[p..p + |t|] == t
  }

  lemma HoldsConcat<T>(s: seq<T>, p: nat, a: seq<T>, b: seq<T>)
    ensures Holds(s, p, a + b) <==> Holds(s, p, a) && Holds(s, p + |a|, b)
  {
    if p + |a| + |b| <= |s| {
      var t := s[p..p + |a + b|];
      assert t[..|a|] == s[p..p + |a|];
      assert t[|a|..] == s[p + |a|..p + |a| + |b|];
      assert (a + b)[..|a|] == a && (a + b)[|a|..] == b;
      assert t == t[..|a|] + t[|a|..];
    }
  }

  lemma HoldsAt<T>(s: seq<T>, p: nat, t: seq<T>, i: nat)
    requires Holds(s, p, t)
    requires i < |t|
    ensures s[p + i] == t[i]
  {
    assert s[p..p + |t|][i] == t[i];
  }

  lemma HoldsInFront<T>(s: seq<T>, more: seq<T>, p: nat, t: seq<T>)
    requires Holds(s, p, t)
    ensures Holds(s + more, p, t) && Holds(s + more, 0, s + more)
  {
    assert (s + more)[p..p + |t|] == s[p..p + |t|];
  }

  function U32(n: nat): (b: seq<byte>)
    requires n < TWO_TO_32
    ensures |b| == 4
  {
    [n % 0x100, n / 0x100 % 0x100, n / 0x1_0000 % 0x100, n / 0x100_0000]
  }

  function ReadU32(s: seq<byte>, p: nat): (n: nat)
    requires p + 4 <= |s|
    ensures n < TWO_TO_32
  {
    s[p] as int + 0x100 * s[p + 1] as int + 0x1_0000 * s[p + 2] as int + 0x100_0000 * s[p + 3] as int
  }

  lemma U32Digits(n: nat)
    requires n < TWO_TO_32
    ensures n ==
      n % 0x100 + 0x100 * (n / 0x100 % 0x100) + 0x1_0000 * (n / 0x1_0000 % 0x100) + 0x100_0000 * (n / 0x100_0000)
  {
    var a := n / 0x100;
    assert n == n % 0x100 + 0x100 * a;
    var b := a / 0x100;
    assert a == a % 0x100 + 0x100 * b;
    assert b == n / 0x1_0000;
    var c := b / 0x100;
    assert b == b % 0x100 + 0x100 * c;
    assert c == n / 0x100_0000;
  }

  /** Reading back an encoded 32-bit number, wherever it sits. */
  lemma U32RoundTrip(s: seq<byte>, p: nat, n: nat)
    requires n < TWO_TO_32
    requires Holds(s, p, U32(n))
    ensures ReadU32(s, p) == n
  {
    forall i | 0 <= i < 4
      ensures s[p + i] == U32(n)[i]
    {
      HoldsAt(s, p, U32(n), i);
    }
    U32Digits(n);
    assert s[p + 0] == n % 0x100;
  }

  function U64(n: nat): (b: seq<byte>)
    requires n < TWO_TO_32 * TWO_TO_32
    ensures |b| == 8
  {
    U32(n % TWO_TO_32) + U32(n / TWO_TO_32)
  }

  function ReadU64(s: seq<byte>, p: nat): nat
    requires p + 8 <= |s|
  {
    ReadU32(s, p) + TWO_TO_32 * ReadU32(s, p + 4)
  }

  /** The first byte is the lowest. */
  lemma LittleEndian()
    ensures ReadU32([0x01, 0x02, 0x03, 0x04], 0) == 0x0403_0201
    ensures ReadU64([0x01, 0x02, 0x03, 0x04, 0x05, 0x06, 0x07, 0x08], 0) == 0x0807_0605_0403_0201
  {
  }

  lemma U64RoundTrip(s: seq<byte>, p: nat, n: nat)
    requires n < TWO_TO_32 * TWO_TO_32
    requires Holds(s, p, U64(n))
    ensures ReadU64(s, p) == n
  {
    HoldsConcat(s, p, U32(n % TWO_TO_32), U32(n / TWO_TO_32));
    U32RoundTrip(s, p, n % TWO_TO_32);
    U32RoundTrip(s, p + 4, n / TWO_TO_32);
  }
}
