/** The firmware's texts and hashes, read back byte by byte. */
module FirmwareLaws {
  import opened Common
  import opened Bytes
  import opened Calendar
  import opened Canon
  import Sha256
  import Crc32c
  import SequenceRule

  // ----- the time text -----

  /** The number two digits of a text say. */
  function Two(t: string, i: nat): int
    requires i + 2 <= |t|
  {
    10 * (t[i] as int - '0' as int) + (t[i + 1] as int - '0' as int)
  }

  predicate IsDigit(c: char) { '0' <= c <= '9' }

  lemma Put2Reads(v: int)
    requires 0 <= v <= 99
    ensures Two(Put2(v), 0) == v && IsDigit(Put2(v)[0]) && IsDigit(Put2(v)[1])
  {
  }

  lemma Put4Reads(v: int)
    requires 0 <= v <= 9999
    ensures 100 * Two(Put4(v), 0) + Two(Put4(v), 2) == v && forall i :: 0 <= i < 4 ==> IsDigit(Put4(v)[i])
  {
    Put4Split(v);
    Put2Reads(v / 100);
    Put2Reads(v % 100);
    hide Put2, Put4;
    assert Put4(v)[0] == Put2(v / 100)[0] && Put4(v)[1] == Put2(v / 100)[1];
    assert Put4(v)[2] == Put2(v % 100)[0] && Put4(v)[3] == Put2(v % 100)[1];
  }

  /** A two-digit field in front of a text. */
  lemma FieldReads(v: int, sep: char, rest: string)
    requires 0 <= v <= 99
    ensures var t := Field2(v, [sep], rest);
            |t| == |rest| + 3 && Two(t, 0) == v && t[2] == sep && t[3..] == rest
  {
    Put2Reads(v);
    hide Put2;
    var t := Field2(v, [sep], rest);
    assert t[0] == Put2(v)[0] && t[1] == Put2(v)[1];
  }

  lemma TimeReads(s: int)
    requires 0 <= s < 86400
    ensures var t := TimeText(s);
            && |t| == 9 && Two(t, 0) == s / 3600 && Two(t, 3) == s / 60 % 60 && Two(t, 6) == s % 60
            && t[2] == ':' && t[5] == ':' && t[8] == 'Z'
  {
    hide Field2;
    var z := Field2(s % 60, "Z", "");
    var m := Field2((s / 60) % 60, ":", z);
    FieldReads(s % 60, 'Z', "");
    FieldReads((s / 60) % 60, ':', z);
    FieldReads(s / 3600, ':', m);
    var t := TimeText(s);
    assert t[3..] == m && m[3..] == z;
    assert t[6] == z[0] && t[7] == z[1] && t[8] == z[2] && t[3] == m[0] && t[4] == m[1] && t[5] == m[2];
  }

  lemma InstantReads(d: Date, s: int)
    requires IsDate(d) && 0 <= d.year <= 9999 && 0 <= s < 86400
    ensures var t := InstantText(d, s);
            && |t| == 20 && 100 * Two(t, 0) + Two(t, 2) == d.year && Two(t, 5) == d.month && Two(t, 8) == d.day
            && Two(t, 11) == s / 3600 && Two(t, 14) == s / 60 % 60 && Two(t, 17) == s % 60
            && t[4] == '-' && t[7] == '-' && t[10] == 'T' && t[13] == ':' && t[16] == ':' && t[19] == 'Z'
  {
    TimeReads(s);
    Put4Reads(d.year);
    hide Field2, TimeText, Put4;
    var time := TimeText(s);
    var day := Field2(d.day, "T", time);
    var month := Field2(d.month, "-", day);
    FieldReads(d.day, 'T', time);
    FieldReads(d.month, '-', day);
    var t := InstantText(d, s);
    assert t[5..] == month && month[3..] == day && day[3..] == time;
    assert forall i :: 0 <= i < 4 ==> t[i] == Put4(d.year)[i];
    assert forall i :: 0 <= i < 3 ==> t[5 + i] == month[i] && t[8 + i] == day[i];
    assert forall i :: 0 <= i < 9 ==> t[11 + i] == time[i];
  }

  /** The text of an instant reads back as the civil date of its day and as the hour, minute and
      second of its second of the day. */
  lemma Rfc3339ReadsBack(unix: int)
    requires FormatRfc3339(unix).Some?
    ensures var t, d, s := FormatRfc3339(unix).value, CivilFromDays(unix / 86400), unix % 86400;
            && |t| == 20 && 100 * Two(t, 0) + Two(t, 2) == d.year && Two(t, 5) == d.month && Two(t, 8) == d.day
            && Two(t, 11) == s / 3600 && Two(t, 14) == s / 60 % 60 && Two(t, 17) == s % 60
            && t[4] == '-' && t[7] == '-' && t[10] == 'T' && t[13] == ':' && t[16] == ':' && t[19] == 'Z'
  {
    hide InstantText, CivilFromDays;
    CivilSuccessor(unix / 86400);
    InstantReads(CivilFromDays(unix / 86400), unix % 86400);
  }

  // ----- the canonical string -----

  /** The text up to the first separator, and the text behind it. */
  function Front(s: string): string {
    if |s| == 0 || s[0] == '|' then "" else [s[0]] + Front(s[1..])
  }

  function Back(s: string): string {
    if |s| == 0 then "" else if s[0] == '|' then s[1..] else Back(s[1..])
  }

  lemma {:induction false} FrontBack(a: string, rest: string)
    requires Free(a)
    ensures Front(a + ("|" + rest)) == a && Back(a + ("|" + rest)) == rest
    decreases |a|
  {
    var s := a + ("|" + rest);
    if |a| > 0 {
      assert s[1..] == a[1..] + ("|" + rest);
      FrontBack(a[1..], rest);
    } else {
      assert s == "|" + rest && s[1..] == rest;
    }
  }

  /** What is behind the first `k` separators. */
  function Behind(s: string, k: nat): string
    decreases k
  {
    if k == 0 then s else Behind(Back(s), k - 1)
  }

  lemma {:induction false} JoinReads(f: seq<string>, k: nat)
    requires k < |f| && forall i :: 0 <= i < |f| - 1 ==> Free(f[i])
    ensures Behind(Join(f), k) == Join(f[k..])
    ensures k < |f| - 1 ==> Front(Behind(Join(f), k)) == f[k]
    decreases k
  {
    hide Front, Back;
    if |f| > 1 { FrontBack(f[0], Join(f[1..])); }
    if k > 0 {
      JoinReads(f[1..], k - 1);
      assert f[1..][k - 1..] == f[k..];
    } else {
      assert f[0..] == f;
    }
  }

  /** The canonical string, read field by field: the scheme, tenant, store, label and SKU, the
      amount, the currency, the time, the sequence, and behind the ninth separator the promotion. */
  lemma CanonicalReads(x: PriceInput)
    requires Encodable(x) && SeparatorFree(x)
    ensures var s := CanonicalString(x);
            && Front(s) == "usslp.price.v1"
            && Front(Behind(s, 1)) == x.tenant && Front(Behind(s, 2)) == x.store
            && Front(Behind(s, 3)) == x.labelId && Front(Behind(s, 4)) == x.sku
            && DecimalValue(Front(Behind(s, 5))) == x.amount && Front(Behind(s, 6)) == x.currency
            && Some(Front(Behind(s, 7))) == FormatRfc3339(x.effectiveAt)
            && DecimalValue(Front(Behind(s, 8))) == x.sequence && Behind(s, 9) == x.promotion
  {
    hide FormatRfc3339, Decimal, DecimalValue, Front, Back, Behind, Join;
    var f := Fields(x);
    assert Free("usslp.price.v1");
    TimestampIsFree(x.effectiveAt);
    forall k | 0 <= k < 10
      ensures Behind(Join(f), k) == Join(f[k..]) && (k < 9 ==> Front(Behind(Join(f), k)) == f[k])
    {
      JoinReads(f, k);
    }
    BehindNone(Join(f));
    OneField(f[9..]);
    DecimalRoundTrip(x.amount);
    DecimalRoundTrip(x.sequence);
  }

  lemma BehindNone(s: string)
    ensures Behind(s, 0) == s
  {
  }

  lemma OneField(f: seq<string>)
    requires |f| == 1
    ensures Join(f) == f[0]
  {
  }

  // ----- the padded message -----

  /** Padding, byte by byte: the message, a byte 128, zeros, and in the last eight bytes the
      length in bits modulo 2^64. */
  lemma PaddedBytes(m: seq<Byte>)
    ensures var p := Sha256.Pad(m);
            && |p| % 64 == 0 && |m| + 9 <= |p| < |m| + 9 + 64
            && p[..|m|] == m && p[|m|] == 128
            && (forall i :: |m| < i < |p| - 8 ==> p[i] == 0)
            && FromBigEndian(p[|p| - 8..]) == (8 * |m|) % TWO_TO_64
  {
    hide BigEndian, FromBigEndian, Sha256.PadZeros;
    Sha256.PadZerosIsLeast(|m|);
    FewZeros(|m|);
    var z := Sha256.PadZeros(|m|);
    var tail := BigEndian(8 * |m|, 8);
    var p := Sha256.Pad(m);
    assert p == m + ([0x80] + Sha256.Zeros(z) + tail);
    assert p[|p| - 8..] == tail;
    Pow256Of8();
    LengthBytes(8 * |m|);
  }

  lemma FewZeros(len: nat)
    ensures Sha256.PadZeros(len) < 64
  {
  }

  lemma LengthBytes(v: nat)
    ensures FromBigEndian(BigEndian(v, 8)) == v % TWO_TO_64
  {
    Pow256Of8();
    BigEndianCuts(v, v % TWO_TO_64, 8);
    BigEndianRoundTrip(v % TWO_TO_64, 8);
  }

  /** The digest's bytes are the words of the chain, each most significant byte first. */
  lemma {:induction false} SerialisedWords(h: seq<nat>, i: nat)
    requires i < |h|
    ensures Sha256.Serialise(h)[4 * i..4 * i + 4] == BigEndian(h[i], 4)
    ensures h[i] < TWO_TO_32 ==> FromBigEndian(Sha256.Serialise(h)[4 * i..4 * i + 4]) == h[i]
    decreases i
  {
    hide BigEndian, FromBigEndian;
    var s := Sha256.Serialise(h);
    assert s == BigEndian(h[0], 4) + Sha256.Serialise(h[1..]);
    if i > 0 {
      SerialisedWords(h[1..], i - 1);
      assert s[4 * i..4 * i + 4] == Sha256.Serialise(h[1..])[4 * (i - 1)..4 * (i - 1) + 4];
    } else {
      assert s[0..4] == BigEndian(h[0], 4);
    }
    WordBytes(h[i]);
  }

  lemma WordBytes(v: nat)
    ensures v < TWO_TO_32 ==> FromBigEndian(BigEndian(v, 4)) == v
  {
    assert Pow256(4) == TWO_TO_32;
    if v < TWO_TO_32 { BigEndianRoundTrip(v, 4); }
  }

  // ----- the checksum -----

  /** The check value of CRC-32C: the checksum of the nine digits "123456789". */
  lemma CheckValue()
    ensures Crc32c.Crc(0, [0x31, 0x32, 0x33, 0x34, 0x35, 0x36, 0x37, 0x38, 0x39]) == 0xe3069283
  {
  }

  // ----- the sequence record -----

  /** The sixteen bytes of a record: "SQN1", the sequence in two's complement and the CRC-32C of
      both, most significant byte first. */
  lemma RecordReads(v: SequenceRule.Int64)
    ensures var r := SequenceRule.Encode(v);
            && |r| == 16 && r[..4] == [0x53, 0x51, 0x4e, 0x31]
            && SequenceRule.GetBe(r[4..12]) == (if v < 0 then v + TWO_TO_64 else v)
            && SequenceRule.GetBe32(r[12..]) == Crc32c.Crc(0, r[..12])
  {
    MagicBytes();
    hide SequenceRule.PutBe32, SequenceRule.GetBe32, SequenceRule.PutBe, SequenceRule.GetBe, Crc32c.Crc;
    var head, number := SequenceRule.PutBe32(SequenceRule.MAGIC), SequenceRule.PutBe(SequenceRule.ToUnsigned(v), 8);
    var r := SequenceRule.Encode(v);
    assert r[..12] == head + number && r[..4] == head && r[4..12] == number;
    assert r[12..] == SequenceRule.PutBe32(Crc32c.Crc(0, head + number));
    SequenceRule.Be32RoundTrip(Crc32c.Crc(0, head + number));
    Pow256Of8();
    SequenceRule.BeRoundTrip(SequenceRule.ToUnsigned(v), 8);
  }

  lemma MagicBytes()
    ensures SequenceRule.PutBe32(SequenceRule.MAGIC) == [0x53, 0x51, 0x4e, 0x31]
  {
  }
}
