/** The label firmware's monotonic sequence rule and its sixteen-byte flash record. */
module SequenceRule {
  import opened Common
  import opened Bytes
  import opened Crc32c

  type Int64 = v: int | INT64_MIN <= v <= INT64_MAX

  // ----- the rule -----

  /** INT64_MIN on the glass means that no price was ever displayed. */
  predicate Accepts(displayed: Int64, candidate: Int64) {
    displayed == INT64_MIN || candidate > displayed
  }

  datatype Verdict = Accept | Stale

  class SequenceState {
    var displayed: Int64
    var accepted: nat
    var discarded: nat

    constructor ()
      ensures displayed == INT64_MIN && accepted == 0 && discarded == 0
    {
      displayed, accepted, discarded := INT64_MIN, 0, 0;
    }

    /** Asks without advancing: only a rejection is counted. */
    method Check(candidate: Int64) returns (v: Verdict)
      modifies this`discarded
      ensures v == if Accepts(displayed, candidate) then Accept else Stale
      ensures discarded == if v == Stale then (old(discarded) + 1) % TWO_TO_32 else old(discarded)
    {
      if displayed == INT64_MIN { return Accept; }
      if candidate <= displayed {
        discarded := (discarded + 1) % TWO_TO_32;
        return Stale;
      }
      return Accept;
    }

    /** Moves the glass forward, never back. */
    method Commit(candidate: Int64) returns (ok: bool)
      modifies this`displayed, this`accepted
      ensures ok == Accepts(old(displayed), candidate)
      ensures displayed == Offer(old(displayed), candidate)
      ensures accepted == if ok then (old(accepted) + 1) % TWO_TO_32 else old(accepted)
    {
      if displayed != INT64_MIN && candidate <= displayed { return false; }
      displayed := candidate;
      accepted := (accepted + 1) % TWO_TO_32;
      return true;
    }

    /** Restores from flash: a record that fails its checks counts as absent. */
    method Load(record: seq<bv8>) returns (ok: bool)
      requires |record| == RECORD_LEN
      modifies this
      ensures ok == Decode(record).Ok?
      ensures displayed == if ok then Decode(record).displayed else INT64_MIN
      ensures accepted == 0 && discarded == 0
    {
      displayed, accepted, discarded := INT64_MIN, 0, 0;
      var d := Decode(record);
      if d.Malformed? { return false; }
      displayed := d.displayed;
      return true;
    }
  }

  /** The sequence on the glass after a candidate has been checked and, if accepted, committed. */
  function Offer(displayed: Int64, candidate: Int64): Int64 {
    if Accepts(displayed, candidate) then candidate else displayed
  }

  function OfferAll(displayed: Int64, candidates: seq<Int64>): Int64 {
    if |candidates| == 0 then displayed
    else Offer(OfferAll(displayed, candidates[..|candidates| - 1]), candidates[|candidates| - 1])
  }

  /** Whatever the order, duplication or delay of the offers, the glass ends on the
      greatest sequence seen and never moves back on the way. */
  lemma {:induction false} GlassShowsGreatest(displayed: Int64, candidates: seq<Int64>)
    ensures OfferAll(displayed, candidates) >= displayed
    ensures forall c :: c in candidates ==> c <= OfferAll(displayed, candidates)
    ensures OfferAll(displayed, candidates) == displayed || OfferAll(displayed, candidates) in candidates
    ensures forall k :: 0 <= k <= |candidates| ==>
              OfferAll(displayed, candidates[..k]) <= OfferAll(displayed, candidates)
    decreases |candidates|
  {
    if |candidates| > 0 {
      var rest, last := candidates[..|candidates| - 1], candidates[|candidates| - 1];
      assert candidates == rest + [last];
      GlassShowsGreatest(displayed, rest);
      forall k | 0 <= k <= |candidates|
        ensures OfferAll(displayed, candidates[..k]) <= OfferAll(displayed, candidates)
      {
        if k <= |rest| { assert candidates[..k] == rest[..k]; } else { assert candidates[..k] == candidates; }
      }
    }
  }

  /** A committed sequence offered again is stale, except the sentinel value itself. */
  lemma RetryIsStale(displayed: Int64, candidate: Int64)
    ensures Accepts(Offer(displayed, candidate), candidate) <==>
            displayed == INT64_MIN && candidate == INT64_MIN
  {
  }

  // ----- the record -----

  const RECORD_LEN := 16
  const MAGIC: bv32 := 0x53514E31

  function PutBe32(v: bv32): (b: seq<bv8>)
    ensures |b| == 4
  {
    [((v >> 24) & 0xff) as bv8, ((v >> 16) & 0xff) as bv8, ((v >> 8) & 0xff) as bv8, (v & 0xff) as bv8]
  }

  function Word32(a: bv8, b: bv8, c: bv8, d: bv8): bv32 {
    ((a as bv32) << 24) | ((b as bv32) << 16) | ((c as bv32) << 8) | (d as bv32)
  }

  function GetBe32(b: seq<bv8>): bv32
    requires |b| == 4
  {
    Word32(b[0], b[1], b[2], b[3])
  }

  lemma Be32RoundTrip(v: bv32)
    ensures GetBe32(PutBe32(v)) == v
  {
  }

  function Byte3(w: bv32): bv32 { (w >> 24) & 0xff }
  function Byte2(w: bv32): bv32 { (w >> 16) & 0xff }
  function Byte1(w: bv32): bv32 { (w >> 8) & 0xff }
  function Byte0(w: bv32): bv32 { w & 0xff }

  lemma Word32Bytes(a: bv8, b: bv8, c: bv8, d: bv8)
    ensures Byte3(Word32(a, b, c, d)) == a as bv32 && Byte2(Word32(a, b, c, d)) == b as bv32
    ensures Byte1(Word32(a, b, c, d)) == c as bv32 && Byte0(Word32(a, b, c, d)) == d as bv32
  {
  }

  lemma Be32Injective(x: seq<bv8>, y: seq<bv8>)
    requires |x| == |y| == 4 && GetBe32(x) == GetBe32(y)
    ensures x == y
  {
    hide Word32, Byte3, Byte2, Byte1, Byte0;
    Word32Bytes(x[0], x[1], x[2], x[3]);
    Word32Bytes(y[0], y[1], y[2], y[3]);
    WideByteInjective(x[0], y[0]);
    WideByteInjective(x[1], y[1]);
    WideByteInjective(x[2], y[2]);
    WideByteInjective(x[3], y[3]);
  }

  /** The byte that counts to `x`. */
  function Counted(x: nat): bv8 { if x == 0 then 0 else Counted(x - 1) + 1 }

  lemma CountedNext(b: bv8)
    requires b != 255
    ensures (b + 1) as int == b as int + 1
  {
  }

  lemma {:induction false} CountedValue(x: nat)
    requires x < 256
    ensures Counted(x) as int == x
  {
    if x > 0 {
      CountedValue(x - 1);
      CountedNext(Counted(x - 1));
    }
  }

  lemma CastBack(b: bv8)
    ensures (b as int) as bv8 == b
  {
  }

  lemma ByteRoundTrip(x: int)
    requires 0 <= x < 256
    ensures (x as bv8) as int == x
  {
    CountedValue(x);
    CastBack(Counted(x));
  }

  /** Bytes as bit patterns, and back. */
  function Octets(b: seq<Byte>): (o: seq<bv8>)
    ensures |o| == |b|
  {
    seq(|b|, i requires 0 <= i < |b| => b[i] as int as bv8)
  }

  function Values(o: seq<bv8>): (b: seq<Byte>)
    ensures |b| == |o|
  {
    seq(|o|, i requires 0 <= i < |o| => o[i] as int as Byte)
  }

  /** `v` as `n` big-endian octets. */
  function PutBe(v: nat, n: nat): (o: seq<bv8>)
    ensures |o| == n
  {
    Octets(BigEndian(v, n))
  }

  function GetBe(o: seq<bv8>): (v: nat)
    ensures v < Pow256(|o|)
  {
    FromBigEndianBound(Values(o));
    FromBigEndian(Values(o))
  }

  lemma BeRoundTrip(v: nat, n: nat)
    requires v < Pow256(n)
    ensures GetBe(PutBe(v, n)) == v
  {
    hide BigEndian, FromBigEndian, Pow256;
    BigEndianRoundTrip(v, n);
    var b := BigEndian(v, n);
    forall i | 0 <= i < n
      ensures Values(Octets(b))[i] == b[i]
    {
      ByteRoundTrip(b[i] as int);
    }
    assert Values(Octets(b)) == b;
  }

  /** Two's complement, both ways. */
  function ToUnsigned(v: Int64): nat { if v >= 0 then v else v + TWO_TO_64 }

  function ToSigned(u: nat): Int64
    requires u < TWO_TO_64
  {
    if u > INT64_MAX then u - TWO_TO_64 else u
  }

  function Encode(displayed: Int64): (r: seq<bv8>)
    ensures |r| == RECORD_LEN
  {
    var body := PutBe32(MAGIC) + PutBe(ToUnsigned(displayed), 8);
    body + PutBe32(Crc(0, body))
  }

  datatype Decoded = Ok(displayed: Int64) | Malformed

  function Decode(r: seq<bv8>): Decoded
    requires |r| == RECORD_LEN
  {
    if GetBe32(r[..4]) != MAGIC then Malformed
    else if GetBe32(r[12..]) != Crc(0, r[..12]) then Malformed
    else
      Pow256Of8();
      Ok(ToSigned(GetBe(r[4..12])))
  }

  /** Every displayed sequence survives a reboot, negatives and the sentinel included. */
  lemma RecordRoundTrip(v: Int64)
    ensures Decode(Encode(v)) == Ok(v)
  {
    hide PutBe32, GetBe32, PutBe, GetBe, Crc;
    var r := Encode(v);
    var body := PutBe32(MAGIC) + PutBe(ToUnsigned(v), 8);
    assert r[..12] == body;
    assert r[..4] == PutBe32(MAGIC);
    assert r[4..12] == PutBe(ToUnsigned(v), 8);
    assert r[12..] == PutBe32(Crc(0, body));
    Be32RoundTrip(MAGIC);
    Be32RoundTrip(Crc(0, body));
    Pow256Of8();
    BeRoundTrip(ToUnsigned(v), 8);
  }

  /** `r` and `s` agree outside the four bytes starting at `k`. */
  predicate SameOutside(r: seq<bv8>, s: seq<bv8>, k: nat)
    requires |r| == |s|
  {
    forall i :: 0 <= i < |r| && !(k <= i < k + 4) ==> r[i] == s[i]
  }

  /** Damage confined to four consecutive bytes on one side of the checksum
      boundary is always rejected. */
  lemma DamageRejected(r: seq<bv8>, s: seq<bv8>, k: nat)
    requires |r| == |s| == RECORD_LEN && Decode(r).Ok?
    requires r != s && SameOutside(r, s, k) && (k <= 8 || k == 12)
    ensures Decode(s) == Malformed
  {
    hide GetBe32, GetBe, Crc;
    assert r == r[..12] + r[12..] && s == s[..12] + s[12..];
    if k <= 8 {
      assert r[12..] == s[12..];
      var head, tail := r[..k], r[k + 4..12];
      assert r[..12] == head + r[k..k + 4] + tail;
      assert s[..12] == head + s[k..k + 4] + tail;
      BurstDetected(0, head, r[k..k + 4], s[k..k + 4], tail);
    } else {
      assert r[..12] == s[..12];
      if GetBe32(r[12..]) == GetBe32(s[12..]) {
        Be32Injective(r[12..], s[12..]);
      }
    }
  }

  /** In particular one damaged byte, wherever it is. */
  lemma DamagedByteRejected(v: Int64, i: nat, b: bv8)
    requires i < RECORD_LEN && Encode(v)[i] != b
    ensures Decode(Encode(v)[i := b]) == Malformed
  {
    hide Encode, Decode;
    RecordRoundTrip(v);
    var r := Encode(v);
    assert r[i := b][i] != r[i];
    DamageRejected(r, r[i := b], if i < 8 then i else if i < 12 then 8 else 12);
  }
}
