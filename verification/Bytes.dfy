/** Bytes, big-endian integers and unsigned varints. */
module Bytes {
  import opened Common

  newtype Byte = x: int | 0 <= x < 256

  /** `v` as `n` big-endian bytes, high bytes cut off. */
  function BigEndian(v: nat, n: nat): (b: seq<Byte>)
    ensures |b| == n
  {
    if n == 0 then [] else BigEndian(v / 256, n - 1) + [(v % 256) as Byte]
  }

  function FromBigEndian(b: seq<Byte>): nat {
    if |b| == 0 then 0 else 256 * FromBigEndian(b[..|b| - 1]) + b[|b| - 1] as int
  }

  function Pow256(n: nat): (p: nat)
    ensures p > 0
  {
    if n == 0 then 1 else 256 * Pow256(n - 1)
  }

  lemma Pow256Of8()
    ensures Pow256(8) == TWO_TO_64
  {
    assert Pow256(4) == TWO_TO_32;
  }

  lemma {:induction false} FromBigEndianBound(b: seq<Byte>)
    ensures FromBigEndian(b) < Pow256(|b|)
    decreases |b|
  {
    if |b| > 0 { FromBigEndianBound(b[..|b| - 1]); }
  }

  lemma {:induction false} BigEndianRoundTrip(v: nat, n: nat)
    requires v < Pow256(n)
    ensures FromBigEndian(BigEndian(v, n)) == v
  {
    if n > 0 {
      BigEndianRoundTrip(v / 256, n - 1);
      assert BigEndian(v, n)[..n - 1] == BigEndian(v / 256, n - 1);
    }
  }

  /** Only the value modulo 256^n matters. */
  lemma {:induction false} BigEndianCuts(v: nat, w: nat, n: nat)
    requires v % Pow256(n) == w % Pow256(n)
    ensures BigEndian(v, n) == BigEndian(w, n)
  {
    if n > 0 {
      CutLow(v, Pow256(n - 1));
      CutLow(w, Pow256(n - 1));
      BigEndianCuts(v / 256, w / 256, n - 1);
    }
  }

  /** The low byte and the rest of a remainder. */
  lemma CutLow(v: nat, m: nat)
    requires m > 0
    ensures v % (256 * m) == 256 * ((v / 256) % m) + v % 256
  {
    var q, r := v / 256 / m, v / 256 % m;
    assert v / 256 == q * m + r;
    assert v == 256 * m * q + (256 * r + v % 256);
    assert 0 <= 256 * r + v % 256 < 256 * m;
    Remainder(v, 256 * m, q, 256 * r + v % 256);
  }

  lemma Remainder(v: int, d: int, q: int, r: int)
    requires d > 0 && 0 <= r < d && v == d * q + r
    ensures v % d == r
  {
    var p := v / d - q;
    assert d * p == r - v % d;
    Multiple(d, p);
  }

  lemma Multiple(d: int, p: int)
    requires d > 0
    ensures p >= 1 ==> d * p >= d
    ensures p <= -1 ==> d * p <= -d
  {
  }

  lemma BigEndian16RoundTrip(v: nat)
    requires v < 65536
    ensures FromBigEndian(BigEndian(v, 2)) == v
  {
    assert Pow256(1) == 256;
    BigEndianRoundTrip(v, 2);
  }

  /** Seven bits a byte, low bits first, the top bit set on all but the last. */
  function PutUvarint(v: nat): (b: seq<Byte>)
    ensures |b| >= 1
  {
    if v < 128 then [v as Byte] else [(v % 128 + 128) as Byte] + PutUvarint(v / 128)
  }

  datatype Varint = Value(v: nat, used: nat) | Bad

  /** Reads from byte `i` of a varint on: it may have ten bytes, the tenth at most 1,
      so that the value fits 64 bits. */
  function ReadUvarint(b: seq<Byte>, i: nat): (r: Varint)
    ensures r.Value? ==> 0 < r.used <= |b|
  {
    if |b| == 0 || i == 10 then Bad
    else if b[0] < 128 then (if i == 9 && b[0] > 1 then Bad else Value(b[0] as int, 1))
    else
      match ReadUvarint(b[1..], i + 1)
      case Bad => Bad
      case Value(v, used) => Value((b[0] as int - 128) + 128 * v, used + 1)
  }

  /** One more than the greatest value bytes `i` to 9 can carry. */
  function Capacity(i: nat): nat
    decreases 10 - i
  {
    if i >= 10 then 0 else if i == 9 then 2 else 128 * Capacity(i + 1)
  }

  lemma {:induction false} UvarintRoundTrip(v: nat, rest: seq<Byte>, i: nat)
    requires v < Capacity(i)
    ensures ReadUvarint(PutUvarint(v) + rest, i) == Value(v, |PutUvarint(v)|)
    decreases v
  {
    var b := PutUvarint(v) + rest;
    if v >= 128 {
      assert b[1..] == PutUvarint(v / 128) + rest;
      UvarintRoundTrip(v / 128, rest, i + 1);
    }
  }

  lemma CapacityIs64Bits()
    ensures Capacity(0) == 0x1_0000_0000_0000_0000
  {
    assert Capacity(7) == 128 * 128 * 2;
    assert Capacity(5) == 128 * 128 * Capacity(7);
    assert Capacity(3) == 128 * 128 * Capacity(5);
    assert Capacity(1) == 128 * 128 * Capacity(3);
  }
}
