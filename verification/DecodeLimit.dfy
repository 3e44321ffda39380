/** How far the image decoder can be trusted with arbitrary bytes: the bound on varints
    under which it is safe cannot be raised. */
module DecodeLimit {
  import opened Common
  import opened Bytes
  import opened ImageCodec

  /** A panel of `w` by 1: a run of `first` pixels, then one of `n`. */
  function TwoRuns(w: nat, first: nat, n: nat): seq<Byte>
    requires first >= 1
  {
    MAGIC + BigEndian(w, 2) + BigEndian(1, 2) + ([1] + (EncodeRun(0, first) + ([128] + PutUvarint(n))))
  }

  lemma LongRun(n: nat)
    requires n < TWO_TO_63
    ensures DecodeRun([128] + PutUvarint(n)) == Run(0, n, 1 + |PutUvarint(n)|)
  {
    hide PutUvarint, ReadUvarint, ToInt64;
    var b: seq<Byte> := [128] + PutUvarint(n);
    assert b[1..] == PutUvarint(n);
    NothingAdded(PutUvarint(n));
    CapacityIs64Bits();
    UvarintRoundTrip(n, [], 0);
    BelowLimit(n);
  }

  lemma OverflowFaults(b: seq<Byte>, done: Row, w: nat, n: nat)
    requires |done| < w < 65536 && DecodeRun(b).Run? && DecodeRun(b).n == n < TWO_TO_63 <= |done| + n
    ensures DecodeRow(b, done, w) == Fault
  {
    assert ToInt64(|done| + n) < 0;
  }

  /** Two runs whose lengths add up to 2^63 or more make the decoder write past its row. */
  lemma TwoRunsFault(w: nat, first: nat, n: nat)
    requires 1 <= first < w < 65536 && n < TWO_TO_63 <= first + n
    ensures Decode(TwoRuns(w, first, n)) == Fault
  {
    hide PutUvarint, EncodeRun, DecodeRun, BigEndian, FromBigEndian, ToInt64, Solid, DecodeRow;
    var last: seq<Byte> := [128] + PutUvarint(n);
    var line := EncodeRun(0, first) + last;
    RunRoundTrip(0, first, last);
    DropPrefix(EncodeRun(0, first), last);
    DecodeRowStep(line, [], w, 0, first, |EncodeRun(0, first)|);
    assert [] + Solid(0, first) == Solid(0, first);
    LongRun(n);
    OverflowFaults(last, Solid(0, first), w, n);
    var body: seq<Byte> := [1] + line;
    FirstGroup(body, Blank(w, 1).rows, w);
    var b := TwoRuns(w, first, n);
    BigEndian16RoundTrip(w);
    BigEndian16RoundTrip(1);
    assert b[..4] == MAGIC && b[4..6] == BigEndian(w, 2) && b[6..8] == BigEndian(1, 2) && b[8..] == body;
  }

  lemma FirstGroup(body: seq<Byte>, rows: seq<Row>, w: nat)
    requires |body| > 0 && body[0] == 1 && DecodeRow(body[1..], [], w) == Fault && |rows| == 1 && Wide(rows, w)
    ensures DecodeRows(body, 0, rows, w) == Fault
  {
    hide DecodeRow;
    assert ReadUvarint(body, 0) == Value(1, 1);
  }

  /** Twenty bytes that do: a 2 x 1 panel, one pixel, then a run of 2^63 - 1. */
  lemma SmallPanelFaults()
    ensures Decode([85, 70, 66, 50, 0, 2, 0, 1, 1, 0, 128, 255, 255, 255, 255, 255, 255, 255, 255, 127]) == Fault
  {
    hide Decode, PutUvarint, BigEndian;
    TwoRunsFault(2, 1, TWO_TO_63 - 1);
    SixBytes();
    PutStep(0x3ff_ffff_ffff, 127);
    PutStep(0x1_ffff_ffff_ffff, 127);
    PutStep(0xff_ffff_ffff_ffff, 127);
    SmallBigEndian(2);
    SmallBigEndian(1);
    assert TwoRuns(2, 1, TWO_TO_63 - 1) ==
        [85, 70, 66, 50, 0, 2, 0, 1, 1, 0, 128, 255, 255, 255, 255, 255, 255, 255, 255, 127];
  }

  lemma OneByte(v: nat)
    requires v < 128
    ensures PutUvarint(v) == [v as Byte]
  {
  }

  lemma PutStep(q: nat, r: nat)
    requires q >= 1 && r < 128
    ensures PutUvarint(128 * q + r) == [(r + 128) as Byte] + PutUvarint(q)
  {
    assert (128 * q + r) / 128 == q && (128 * q + r) % 128 == r;
  }

  lemma SixBytes()
    ensures PutUvarint(0x3ff_ffff_ffff) == [255, 255, 255, 255, 255, 127]
  {
    hide PutUvarint;
    OneByte(127);
    PutStep(127, 127);
    PutStep(0x3fff, 127);
    PutStep(0x1f_ffff, 127);
    PutStep(0xfff_ffff, 127);
    PutStep(0x7_ffff_ffff, 127);
  }

  lemma WidestPanel()
    ensures BigEndian(65535, 2) == [255, 255]
  {
    assert BigEndian(255, 1) == BigEndian(0, 0) + [255];
  }

  lemma SmallBigEndian(v: nat)
    requires v < 256
    ensures BigEndian(v, 2) == [0, v as Byte]
  {
    assert BigEndian(0, 1) == [0];
  }

  /** A 65535 x 1 panel: 65534 pixels, then a run of 2^63 - 65534. */
  const AT_LIMIT: seq<Byte> :=
    [85, 70, 66, 50, 255, 255, 0, 1, 1, 128, 254, 255, 3, 128, 130, 128, 252, 255, 255, 255, 255, 255, 127]

  lemma AtLimitIsTwoRuns()
    ensures AT_LIMIT == TwoRuns(65535, 65534, LIMIT)
    ensures AT_LIMIT[14..] == PutUvarint(LIMIT)
  {
    hide PutUvarint, BigEndian;
    SixBytes();
    PutStep(0x3ff_ffff_ffff, 124);
    PutStep(0x1_ffff_ffff_fffc, 0);
    PutStep(0xff_ffff_ffff_fe00, 2);
    OneByte(3);
    PutStep(3, 127);
    PutStep(511, 126);
    SmallBigEndian(1);
    WidestPanel();
  }

  function Pow128(m: nat): nat { if m == 0 then 1 else 128 * Pow128(m - 1) }

  /** A varint that ends within `m` bytes is below 128^m. */
  lemma {:induction false} ShortVarint(s: seq<Byte>, k: nat, m: nat)
    requires 1 <= m <= |s| && s[m - 1] < 128
    ensures ReadUvarint(s, k).Value? ==> ReadUvarint(s, k).v < Pow128(m)
    decreases m
  {
    if s[0] >= 128 {
      ShortVarint(s[1..], k + 1, m - 1);
    } else {
      PowGrows(m);
    }
  }

  lemma PowGrows(m: nat)
    requires m >= 1
    ensures Pow128(m) >= 128
  {
  }

  /** An eleventh byte is never read. */
  lemma {:induction false} LongVarint(s: seq<Byte>, k: nat)
    requires k <= 9 && |s| >= 10 - k && (forall i :: 0 <= i < 9 - k ==> s[i] >= 128) && s[9 - k] > 1
    ensures ReadUvarint(s, k) == Bad
    decreases 9 - k
  {
    if k < 9 { LongVarint(s[1..], k + 1); }
  }

  lemma EightBytes()
    ensures Pow128(8) == 0x100_0000_0000_0000 < LIMIT
  {
    assert Pow128(4) == 0x1000_0000;
  }

  lemma {:induction false} PowMonotone(m: nat, n: nat)
    requires m <= n
    ensures Pow128(m) <= Pow128(n)
    decreases n - m
  {
    if m < n { PowMonotone(m, n - 1); }
  }

  lemma AtLimitIsBelow(i: nat)
    requires i <= |AT_LIMIT|
    ensures VarintAtBelow(AT_LIMIT, i, LIMIT + 1)
  {
    EightBytes();
    var b := AT_LIMIT;
    if i == 13 {
      LongVarint(b[13..], 0);
    } else if i == 14 {
      AtLimitIsTwoRuns();
      CapacityIs64Bits();
      NothingAdded(PutUvarint(LIMIT));
      UvarintRoundTrip(LIMIT, [], 0);
    } else if i < |b| {
      var m := if i > 14 then 23 - i else if i <= 3 then 1 else if i <= 6 then 7 - i else if i <= 8 then 1 else 13 - i;
      ShortVarint(b[i..], 0, m);
      PowMonotone(m, 8);
    }
  }

  /** The limit is exact: it is the greatest bound on the varints under which no input
      makes the decoder access anything out of range. */
  lemma LimitIsSharp(bound: int)
    ensures (forall b :: VarintsBelow(b, bound) ==> !Decode(b).Fault?) <==> bound <= LIMIT
  {
    hide Decode, VarintAtBelow;
    if bound <= LIMIT {
      forall b | VarintsBelow(b, bound)
        ensures !Decode(b).Fault?
      {
        LowerBound(b, bound, LIMIT);
        DecodeIsSafe(b);
      }
    } else {
      var above := LIMIT + 1;
      forall i | 0 <= i <= |AT_LIMIT|
        ensures VarintAtBelow(AT_LIMIT, i, above)
      {
        AtLimitIsBelow(i);
      }
      LowerBound(AT_LIMIT, LIMIT + 1, bound);
      AtLimitIsTwoRuns();
      TwoRunsFault(65535, 65534, LIMIT);
    }
  }

  lemma LowerBound(b: seq<Byte>, bound: int, higher: int)
    requires VarintsBelow(b, bound) && bound <= higher
    ensures VarintsBelow(b, higher)
  {
    forall i | 0 <= i <= |b|
      ensures VarintAtBelow(b, i, higher)
    {
      assert VarintAtBelow(b, i, bound);
    }
  }
}
