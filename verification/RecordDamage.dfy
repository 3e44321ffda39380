/** Which damage to a sequence record its checksum is sure to catch. The checksum is
    linear, so what matters is the difference of two records. */
module RecordDamage {
  import opened Common
  import opened Bytes
  import opened Crc32c
  import opened SequenceRule

  // ----- the register is linear -----

  predicate Odd(x: bv32) { x & 1 == 1 }

  function Poly(odd: bool): bv32 { if odd then 0x82f63b78 else 0 }

  lemma BitOdd(x: bv32)
    requires Odd(x)
    ensures Bit(x) == Xor(Half(x), 0x82f63b78)
  {
  }

  lemma BitEven(x: bv32)
    requires !Odd(x)
    ensures Bit(x) == Half(x)
  {
  }

  lemma XorZero(x: bv32)
    ensures Xor(x, 0) == x
  {
  }

  lemma PolyIs()
    ensures Poly(true) == 0x82f63b78 && Poly(false) == 0
  {
  }

  lemma BitIs(x: bv32)
    ensures Bit(x) == Xor(Half(x), Poly(Odd(x)))
  {
    hide Bit, Xor, Half, Odd, Poly;
    PolyIs();
    if Odd(x) {
      BitOdd(x);
    } else {
      BitEven(x);
      XorZero(Half(x));
    }
  }

  lemma HalfLinear(x: bv32, y: bv32)
    ensures Half(Xor(x, y)) == Xor(Half(x), Half(y))
  {
  }

  lemma OddLinear(x: bv32, y: bv32)
    ensures Odd(Xor(x, y)) <==> Odd(x) != Odd(y)
  {
  }

  lemma PolyLinear(a: bool, b: bool)
    ensures Poly(a != b) == Xor(Poly(a), Poly(b))
  {
  }

  lemma XorAssociative(x: bv32, y: bv32, z: bv32)
    ensures Xor(Xor(x, y), z) == Xor(x, Xor(y, z))
  {
  }

  lemma XorCommutative(x: bv32, y: bv32)
    ensures Xor(x, y) == Xor(y, x)
  {
  }

  lemma XorItself(x: bv32)
    ensures Xor(x, x) == 0
  {
  }

  lemma XorMiddle(a: bv32, b: bv32, c: bv32, d: bv32)
    ensures Xor(Xor(a, b), Xor(c, d)) == Xor(Xor(a, c), Xor(b, d))
  {
    hide Xor;
    XorAssociative(a, b, Xor(c, d));
    XorAssociative(b, c, d);
    XorCommutative(b, c);
    XorAssociative(c, b, d);
    XorAssociative(a, c, Xor(b, d));
  }

  lemma BitLinear(x: bv32, y: bv32)
    ensures Bit(Xor(x, y)) == Xor(Bit(x), Bit(y))
  {
    hide *;
    BitIs(x);
    BitIs(y);
    BitIs(Xor(x, y));
    HalfLinear(x, y);
    OddLinear(x, y);
    PolyLinear(Odd(x), Odd(y));
    XorMiddle(Half(x), Poly(Odd(x)), Half(y), Poly(Odd(y)));
  }

  lemma Bits4Linear(x: bv32, y: bv32)
    ensures Bits4(Xor(x, y)) == Xor(Bits4(x), Bits4(y))
  {
    hide Bit, Xor;
    BitLinear(x, y);
    BitLinear(Bit(x), Bit(y));
    BitLinear(Bit(Bit(x)), Bit(Bit(y)));
    BitLinear(Bit(Bit(Bit(x))), Bit(Bit(Bit(y))));
  }

  lemma Bits8Linear(x: bv32, y: bv32)
    ensures Bits8(Xor(x, y)) == Xor(Bits8(x), Bits8(y))
  {
    hide Bits4, Xor;
    Bits4Linear(x, y);
    Bits4Linear(Bits4(x), Bits4(y));
  }

  function Bits32(x: bv32): bv32 { Bits8(Bits8(Bits8(Bits8(x)))) }

  lemma Bits32Linear(x: bv32, y: bv32)
    ensures Bits32(Xor(x, y)) == Xor(Bits32(x), Bits32(y))
  {
    hide Bits8, Xor;
    Bits8Linear(x, y);
    Bits8Linear(Bits8(x), Bits8(y));
    Bits8Linear(Bits8(Bits8(x)), Bits8(Bits8(y)));
    Bits8Linear(Bits8(Bits8(Bits8(x))), Bits8(Bits8(Bits8(y))));
  }

  // ----- and can be run backwards -----

  function UnBit(reg: bv32): bv32 {
    if reg & 0x80000000 == 0 then reg << 1 else ((reg ^ 0x82f63b78) << 1) | 1
  }

  function UnBits4(x: bv32): bv32 { UnBit(UnBit(UnBit(UnBit(x)))) }

  function UnBits8(x: bv32): bv32 { UnBits4(UnBits4(x)) }

  function UnBits32(x: bv32): bv32 { UnBits8(UnBits8(UnBits8(UnBits8(x)))) }

  lemma UnBitBit(x: bv32)
    ensures UnBit(Bit(x)) == x
  {
  }

  lemma UnBits8Bits8(x: bv32)
    ensures UnBits8(Bits8(x)) == x
  {
    hide Bit, UnBit;
    UnBitBit(x);
    UnBitBit(Bit(x));
    UnBitBit(Bit(Bit(x)));
    UnBitBit(Bit(Bit(Bit(x))));
    UnBitBit(Bits4(x));
    UnBitBit(Bit(Bits4(x)));
    UnBitBit(Bit(Bit(Bits4(x))));
    UnBitBit(Bit(Bit(Bit(Bits4(x)))));
  }

  lemma UnBits32Bits32(x: bv32)
    ensures UnBits32(Bits32(x)) == x
  {
    hide Bits8, UnBits8;
    UnBits8Bits8(x);
    UnBits8Bits8(Bits8(x));
    UnBits8Bits8(Bits8(Bits8(x)));
    UnBits8Bits8(Bits8(Bits8(Bits8(x))));
  }

  /** No difference of the last three bytes of a message moves only the top byte of its
      checksum. */
  lemma TopByteNeedsFour(t: bv32)
    requires t & 0xffffff == 0 && UnBits32(t) & 0xff == 0
    ensures t == 0
  {
  }

  // ----- the difference of two records -----

  /** Four bytes as a little-endian word. */
  function Word(x: seq<bv8>): bv32
    requires |x| == 4
  {
    MixWord(0, x[0], x[1], x[2], x[3])
  }

  lemma MixFromZero(reg: bv32, a: bv8, b: bv8, c: bv8, d: bv8)
    ensures MixWord(reg, a, b, c, d) == Xor(reg, MixWord(0, a, b, c, d))
  {
    MixIsXor(reg, a);
    MixIsXor(0, a);
    XorCommutative(0, a as bv32);
    XorZero(a as bv32);
    hide Xor, Mix, Lift1, Lift2, Lift3;
    var w := a as bv32;
    XorAssociative(reg, w, Lift1(b));
    XorAssociative(reg, Xor(w, Lift1(b)), Lift2(c));
    XorAssociative(reg, Xor(Xor(w, Lift1(b)), Lift2(c)), Lift3(d));
  }

  lemma MixIsXor(reg: bv32, a: bv8)
    ensures Mix(reg, a) == Xor(reg, a as bv32)
  {
  }

  lemma XorCommon(r: bv32, x: bv32, y: bv32)
    ensures Xor(Xor(r, x), Xor(r, y)) == Xor(x, y)
  {
    hide Xor;
    XorMiddle(r, x, r, y);
    XorItself(r);
    XorCommutative(0, Xor(x, y));
    XorZero(Xor(x, y));
  }

  lemma ComplementDifference(x: bv32, y: bv32)
    ensures Xor(Complement(x), Complement(y)) == Xor(x, y)
  {
  }

  /** Two messages that differ in their last four bytes: their checksums differ by what
      the register makes of the difference. */
  lemma ChecksumDifference(head: seq<bv8>, x: seq<bv8>, y: seq<bv8>)
    requires |x| == |y| == 4
    ensures Xor(Crc(0, head + x), Crc(0, head + y)) == Bits32(Xor(Word(x), Word(y)))
  {
    hide Bits8, Mix, Register, MixWord, Complement, Xor;
    var start := Complement(0);
    var r := Register(start, head);
    RegisterAppend(start, head, x);
    RegisterAppend(start, head, y);
    assert x == [x[0], x[1], x[2], x[3]] && y == [y[0], y[1], y[2], y[3]];
    FourBytesAtOnce(r, x[0], x[1], x[2], x[3]);
    FourBytesAtOnce(r, y[0], y[1], y[2], y[3]);
    MixFromZero(r, x[0], x[1], x[2], x[3]);
    MixFromZero(r, y[0], y[1], y[2], y[3]);
    var p, q := Xor(r, Word(x)), Xor(r, Word(y));
    Bits32Linear(p, q);
    XorCommon(r, Word(x), Word(y));
    ComplementDifference(Register(start, head + x), Register(start, head + y));
  }

  ghost predicate Damaged(r: seq<bv8>, s: seq<bv8>, k: nat) {
    |r| == |s| == RECORD_LEN && Decode(r).Ok? && r != s && SameOutside(r, s, k)
  }

  lemma SameLowBytes(x: seq<bv8>, y: seq<bv8>)
    requires |x| == |y| == 4 && x[1..] == y[1..]
    ensures Xor(GetBe32(x), GetBe32(y)) & 0xffffff == 0
  {
    assert x[1] == x[1..][0] && x[2] == x[1..][1] && x[3] == x[1..][2];
    assert y[1] == y[1..][0] && y[2] == y[1..][1] && y[3] == y[1..][2];
    TopByteOnly(x[0], y[0], x[1], x[2], x[3]);
  }

  lemma TopByteOnly(a: bv8, a': bv8, b: bv8, c: bv8, d: bv8)
    ensures Xor(Word32(a, b, c, d), Word32(a', b, c, d)) & 0xffffff == 0
  {
  }

  lemma SameFirstByte(x: seq<bv8>, y: seq<bv8>)
    requires |x| == |y| == 4 && x[0] == y[0]
    ensures Xor(Word(x), Word(y)) & 0xff == 0
  {
    LowByteOnly(x[0], x[1], x[2], x[3], y[1], y[2], y[3]);
  }

  lemma LowByteOnly(a: bv8, b: bv8, c: bv8, d: bv8, b': bv8, c': bv8, d': bv8)
    ensures Xor(MixWord(0, a, b, c, d), MixWord(0, a, b', c', d')) & 0xff == 0
  {
    WordByte0(0, a, b, c, d);
    WordByte0(0, a, b', c', d');
    hide MixWord;
    var x, y := MixWord(0, a, b, c, d), MixWord(0, a, b', c', d');
    LowByteFromZero(x);
    LowByteFromZero(y);
    EqualLowBytes(x, y);
  }

  lemma LowByteFromZero(x: bv32)
    ensures (x ^ 0) & 0xff == x & 0xff
  {
  }

  lemma EqualLowBytes(x: bv32, y: bv32)
    requires x & 0xff == y & 0xff
    ensures Xor(x, y) & 0xff == 0
  {
  }

  lemma XorZeroMeansEqual(x: bv32, y: bv32)
    requires Xor(x, y) == 0
    ensures x == y
  {
  }

  /** Bytes 9 to 12, three of the body and the top byte of the checksum. */
  lemma StraddleRejected(r: seq<bv8>, s: seq<bv8>)
    requires Damaged(r, s, 9)
    ensures Decode(s) == Malformed
  {
    hide GetBe32, GetBe, Crc, Xor, Word, Bits32, UnBits32;
    if Decode(s).Ok? {
      var x, y := r[8..12], s[8..12];
      assert r[..12] == r[..8] + x && s[..12] == r[..8] + y;
      ChecksumDifference(r[..8], x, y);
      var t := Xor(GetBe32(r[12..]), GetBe32(s[12..]));
      assert r[12..][1..] == r[13..] && s[12..][1..] == s[13..] && r[13..] == s[13..];
      SameLowBytes(r[12..], s[12..]);
      SameFirstByte(x, y);
      UnBits32Bits32(Xor(Word(x), Word(y)));
      TopByteNeedsFour(t);
      XorZeroMeansEqual(GetBe32(r[12..]), GetBe32(s[12..]));
      Be32Injective(r[12..], s[12..]);
      assert r == r[..12] + r[12..] && s == s[..12] + s[12..];
      NothingAdded(r[..8] + x);
      NothingAdded(r[..8] + y);
      BurstDetected(0, r[..8], x, y, []);
      assert false;
    }
  }

  // ----- two windows in which damage can pass -----

  lemma Zeros(n: nat)
    requires n <= 6
    ensures BigEndian(0, n) == seq(n, _ => 0)
  {
    if n > 0 { Zeros(n - 1); }
  }

  lemma SmallRecord(v: nat)
    requires v < 65536
    ensures PutBe(v, 8) == [0, 0, 0, 0, 0, 0, (v / 256) as bv8, (v % 256) as bv8]
  {
    Zeros(6);
    assert BigEndian(v / 256, 7) == BigEndian(0, 6) + [(v / 256) as Byte];
    assert BigEndian(v, 8) == [0, 0, 0, 0, 0, 0, (v / 256) as Byte, (v % 256) as Byte];
  }

  /** The records of 0 and of `v` differ in their last two body bytes, and in what the
      register makes of them. */
  lemma RecordsDiffer(v: nat, hi: bv8, lo: bv8)
    requires v < 65536 && hi == (v / 256) as bv8 && lo == (v % 256) as bv8
    ensures Encode(0)[..10] == Encode(v)[..10] && Encode(v)[8..12] == [0, 0, hi, lo]
    ensures Xor(GetBe32(Encode(0)[12..]), GetBe32(Encode(v)[12..])) ==
            Bits32(Xor(Word([0, 0, 0, 0]), Word([0, 0, hi, lo])))
  {
    hide PutBe32, GetBe32, PutBe, Crc, Xor, Word, Bits32;
    SmallRecord(0);
    SmallRecord(v);
    var r, s := Encode(0), Encode(v);
    var head := PutBe32(MAGIC) + [0, 0, 0, 0];
    var x: seq<bv8>, y: seq<bv8> := [0, 0, 0, 0], [0, 0, hi, lo];
    assert PutBe32(MAGIC) + PutBe(0, 8) == head + x && PutBe32(MAGIC) + PutBe(v, 8) == head + y;
    assert r[12..] == PutBe32(Crc(0, head + x)) && s[12..] == PutBe32(Crc(0, head + y));
    assert r[..10] == head + [0, 0] && s[..10] == head + [0, 0];
    Be32RoundTrip(Crc(0, head + x));
    Be32RoundTrip(Crc(0, head + y));
    ChecksumDifference(head, x, y);
  }

  predicate LowByteClear(t: bv32) { t & 0xff == 0 }

  predicate LowHalfClear(t: bv32) { t & 0xffff == 0 }

  lemma SameLastByte(x: seq<bv8>, y: seq<bv8>)
    requires |x| == |y| == 4 && LowByteClear(Xor(GetBe32(x), GetBe32(y)))
    ensures x[3] == y[3]
  {
    hide Word32, Byte0, Byte1, Byte2, Byte3, Xor, LowByteClear;
    Word32Bytes(x[0], x[1], x[2], x[3]);
    Word32Bytes(y[0], y[1], y[2], y[3]);
    LowByteEqual(GetBe32(x), GetBe32(y));
    WideByteInjective(x[3], y[3]);
  }

  lemma SameLastTwo(x: seq<bv8>, y: seq<bv8>)
    requires |x| == |y| == 4 && LowHalfClear(Xor(GetBe32(x), GetBe32(y)))
    ensures x[2] == y[2] && x[3] == y[3]
  {
    hide Word32, Byte0, Byte1, Byte2, Byte3, Xor, LowHalfClear;
    Word32Bytes(x[0], x[1], x[2], x[3]);
    Word32Bytes(y[0], y[1], y[2], y[3]);
    LowHalfEqual(GetBe32(x), GetBe32(y));
    WideByteInjective(x[3], y[3]);
    WideByteInjective(x[2], y[2]);
  }

  lemma LowByteEqual(v: bv32, w: bv32)
    requires LowByteClear(Xor(v, w))
    ensures Byte0(v) == Byte0(w)
  {
  }

  lemma LowHalfEqual(v: bv32, w: bv32)
    requires LowHalfClear(Xor(v, w))
    ensures Byte0(v) == Byte0(w) && Byte1(v) == Byte1(w)
  {
  }

  lemma WordsOfWitnesses()
    ensures Word([0, 0, 0, 0]) == 0 && Word([0, 0, 0, 0x5d]) == 0x5d000000 && Word([0, 0, 0x4d, 0x90]) == 0x904d0000
  {
  }

  lemma ChecksumsOfWitnesses()
    ensures LowByteClear(Bits32(0x5d000000)) && LowHalfClear(Bits32(0x904d0000))
  {
    hide Bits4;
    EarlyEleven();
    LateEleven();
    EarlyTen();
    LateTen();
  }

  lemma EarlyEleven()
    ensures Bits4(0x5d000000) == 0x5d00000 && Bits4(0x5d00000) == 0x5d0000 && Bits4(0x5d0000) == 0x5d000
            && Bits4(0x5d000) == 0x5d00
  {
  }

  lemma LateEleven()
    ensures Bits4(0x5d00) == 0x5d0 && Bits4(0x5d0) == 0x5d && Bits4(0x5d) == 0xd3d3e1ae
            && Bits4(0xd3d3e1ae) == 0xee0d9600
  {
  }

  lemma EarlyTen()
    ensures Bits4(0x904d0000) == 0x904d000 && Bits4(0x904d000) == 0x904d00 && Bits4(0x904d00) == 0x904d0
            && Bits4(0x904d0) == 0x904d
  {
  }

  lemma LateTen()
    ensures Bits4(0x904d) == 0xd3d3e8af && Bits4(0xd3d3e8af) == 0xfe5351ff && Bits4(0xfe5351ff) == 0xfc8b5a6a
            && Bits4(0xfc8b5a6a) == 0xad830000
  {
  }

  lemma XorWithZero(x: bv32)
    ensures Xor(0, x) == x
  {
  }

  /** The records of 0 and 0x5d differ only in bytes 11 to 14. */
  lemma PassesAtEleven()
    ensures Damaged(Encode(0), Encode(0x5d), 11) && Decode(Encode(0x5d)) == Ok(0x5d)
  {
    hide Encode, Decode, GetBe32, Bits32, Word, Xor, LowByteClear, LowHalfClear;
    RecordRoundTrip(0);
    RecordRoundTrip(0x5d);
    RecordsDiffer(0x5d, 0, 0x5d);
    WordsOfWitnesses();
    XorWithZero(0x5d000000);
    ChecksumsOfWitnesses();
    var r, s := Encode(0), Encode(0x5d);
    SameLastByte(r[12..], s[12..]);
    RecordsDiffer(0, 0, 0);
    assert r[8..12][2] == r[10] && s[8..12][2] == s[10] && r[12..][3] == r[15] && s[12..][3] == s[15];
    assert r[8..12][3] == r[11] && s[8..12][3] == s[11];
    forall i | 0 <= i < 10
      ensures r[i] == s[i]
    {
      assert r[..10][i] == s[..10][i];
    }
  }

  /** The records of 0 and 0x4d90 differ only in bytes 10 to 13. */
  lemma PassesAtTen()
    ensures Damaged(Encode(0), Encode(0x4d90), 10) && Decode(Encode(0x4d90)) == Ok(0x4d90)
  {
    hide Encode, Decode, GetBe32, Bits32, Word, Xor, LowByteClear, LowHalfClear;
    RecordRoundTrip(0);
    RecordRoundTrip(0x4d90);
    RecordsDiffer(0x4d90, 0x4d, 0x90);
    WordsOfWitnesses();
    XorWithZero(0x904d0000);
    ChecksumsOfWitnesses();
    var r, s := Encode(0), Encode(0x4d90);
    SameLastTwo(r[12..], s[12..]);
    RecordsDiffer(0, 0, 0);
    assert r[8..12][2] == r[10] && s[8..12][2] == s[10];
    assert r[12..][2] == r[14] && s[12..][2] == s[14] && r[12..][3] == r[15] && s[12..][3] == s[15];
    forall i | 0 <= i < 10
      ensures r[i] == s[i]
    {
      assert r[..10][i] == s[..10][i];
    }
  }

  /** Damage confined to four consecutive bytes is sure to be rejected wherever it starts,
      except at byte 10 and at byte 11. */
  lemma RejectedExactly(k: nat)
    requires k <= 12
    ensures (forall r, s :: Damaged(r, s, k) ==> Decode(s) == Malformed) <==> k != 10 && k != 11
  {
    hide Encode, Decode, SameOutside;
    if k == 10 {
      PassesAtTen();
    } else if k == 11 {
      PassesAtEleven();
    } else {
      forall r, s | Damaged(r, s, k)
        ensures Decode(s) == Malformed
      {
        if k == 9 { StraddleRejected(r, s); } else { DamageRejected(r, s, k); }
      }
    }
  }
}
