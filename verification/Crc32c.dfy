/** CRC-32C by nibble table, against the bit-at-a-time definition. */
module Crc32c {

  // ----- the reference: one bit at a time -----

  /** The constant is the Castagnoli polynomial of section 12.1 of RFC 3720, bit-reflected. */
  function Bit(reg: bv32): bv32 {
    if reg & 1 == 1 then (reg >> 1) ^ 0x82f63b78 else reg >> 1
  }

  function Bits4(reg: bv32): bv32 { Bit(Bit(Bit(Bit(reg)))) }

  function Bits8(reg: bv32): bv32 { Bits4(Bits4(reg)) }

  /** A byte enters the register at its low end. */
  function Mix(reg: bv32, b: bv8): bv32 { reg ^ (b as bv32) }

  function Complement(x: bv32): bv32 { !x }

  /** The register after a message, least significant bit of each byte first. */
  function Register(reg: bv32, m: seq<bv8>): bv32
    decreases |m|
  {
    if |m| == 0 then reg else Register(Bits8(Mix(reg, m[0])), m[1..])
  }

  /** The incremental form: `crc` is the checksum of what came before. */
  function Crc(crc: bv32, m: seq<bv8>): bv32 { Complement(Register(Complement(crc), m)) }

  // ----- the firmware's table -----

  function Nibble(i: bv32): bv32 {
    if i == 0 then 0x00000000 else if i == 1 then 0x105ec76f
    else if i == 2 then 0x20bd8ede else if i == 3 then 0x30e349b1
    else if i == 4 then 0x417b1dbc else if i == 5 then 0x5125dad3
    else if i == 6 then 0x61c69362 else if i == 7 then 0x7198540d
    else if i == 8 then 0x82f63b78 else if i == 9 then 0x92a8fc17
    else if i == 10 then 0xa24bb5a6 else if i == 11 then 0xb21572c9
    else if i == 12 then 0xc38d26c4 else if i == 13 then 0xd3d3e1ab
    else if i == 14 then 0xe330a81a else 0xf36e6f75
  }

  function Lookup(reg: bv32): bv32 { (reg >> 4) ^ Nibble(reg & 0x0f) }

  /** Entry i of the table is the register i advanced by four bits. */
  lemma TableEntries(i: bv32)
    requires i < 16
    ensures Nibble(i) == Bits4(i)
  {
  }

  lemma SplitNibble(reg: bv32)
    ensures Xor(reg & 0x0f, reg & 0xfffffff0) == reg
    ensures Even4(reg & 0xfffffff0) && Sixteenth(reg & 0xfffffff0) == reg >> 4
    ensures reg & 0x0f < 16
  {
  }

  /** One table lookup advances the register by four bits. */
  lemma NibbleIsFourBits(reg: bv32)
    ensures Lookup(reg) == Bits4(reg)
  {
    SplitNibble(reg);
    TableEntries(reg & 0x0f);
    hide Bits4, Nibble, Sixteenth, Even4;
    Bits4PassesHighBits(reg & 0x0f, reg & 0xfffffff0);
  }

  /** The firmware's loop. */
  method Update(crc: bv32, data: seq<bv8>) returns (r: bv32)
    ensures r == Crc(crc, data)
  {
    hide Bits4, Lookup, Mix, Complement;
    var reg := Complement(crc);
    assert data[0..] == data;
    for i := 0 to |data|
      invariant Register(Complement(crc), data) == Register(reg, data[i..])
    {
      assert data[i..][1..] == data[i + 1..];
      reg := Mix(reg, data[i]);
      NibbleIsFourBits(reg);
      reg := Lookup(reg);
      NibbleIsFourBits(reg);
      reg := Lookup(reg);
    }
    r := Complement(reg);
  }

  lemma {:induction false} RegisterAppend(reg: bv32, a: seq<bv8>, b: seq<bv8>)
    ensures Register(reg, a + b) == Register(Register(reg, a), b)
    decreases |a|
  {
    hide Bits8, Mix;
    if |a| == 0 {
      assert a + b == b;
    } else {
      assert (a + b)[1..] == a[1..] + b;
      RegisterAppend(Bits8(Mix(reg, a[0])), a[1..], b);
    }
  }

  lemma ComplementTwice(x: bv32)
    ensures Complement(Complement(x)) == x
  {
  }

  /** Checksumming in two calls is checksumming the concatenation. */
  lemma CrcAppend(crc: bv32, a: seq<bv8>, b: seq<bv8>)
    ensures Crc(Crc(crc, a), b) == Crc(crc, a + b)
  {
    hide Bits8, Mix, Complement, Register;
    RegisterAppend(Complement(crc), a, b);
    ComplementTwice(Register(Complement(crc), a));
  }

  // ----- what the checksum detects -----

  lemma BitInjective(x: bv32, y: bv32)
    requires Bit(x) == Bit(y)
    ensures x == y
  {
  }

  lemma Bits4Injective(x: bv32, y: bv32)
    requires Bits4(x) == Bits4(y)
    ensures x == y
  {
    hide Bit;
    BitInjective(Bit(Bit(Bit(x))), Bit(Bit(Bit(y))));
    BitInjective(Bit(Bit(x)), Bit(Bit(y)));
    BitInjective(Bit(x), Bit(y));
    BitInjective(x, y);
  }

  lemma Bits8Injective(x: bv32, y: bv32)
    requires Bits8(x) == Bits8(y)
    ensures x == y
  {
    hide Bits4;
    Bits4Injective(Bits4(x), Bits4(y));
    Bits4Injective(x, y);
  }

  lemma MixInjective(x: bv32, y: bv32, b: bv8)
    requires Mix(x, b) == Mix(y, b)
    ensures x == y
  {
  }

  /** Different registers stay different over a common tail. */
  lemma {:induction false} RegisterInjective(x: bv32, y: bv32, m: seq<bv8>)
    requires Register(x, m) == Register(y, m)
    ensures x == y
    decreases |m|
  {
    hide Bits8, Mix;
    if |m| > 0 {
      var x', y' := Mix(x, m[0]), Mix(y, m[0]);
      RegisterInjective(Bits8(x'), Bits8(y'), m[1..]);
      Bits8Injective(x', y');
      MixInjective(x, y, m[0]);
    }
  }

  // Four bytes fed one by one are one 32-bit word fed at once.

  function Xor(x: bv32, y: bv32): bv32 { x ^ y }
  function Half(x: bv32): bv32 { x >> 1 }
  function Sixteenth(x: bv32): bv32 { Half(Half(Half(Half(x)))) }
  predicate Even(x: bv32) { x & 1 == 0 }
  predicate Even4(x: bv32) { Even(x) && Even(Half(x)) && Even(Half(Half(x))) && Even(Half(Half(Half(x)))) }

  predicate Odd(x: bv32) { x & 1 == 1 }

  lemma BitIs(x: bv32)
    ensures Bit(x) == if Odd(x) then Xor(Half(x), 0x82f63b78) else Half(x)
  {
  }

  lemma OddPasses(x: bv32, b: bv32)
    requires Even(b)
    ensures Odd(Xor(x, b)) <==> Odd(x)
  {
  }

  lemma HalfPasses(x: bv32, b: bv32)
    ensures Half(Xor(x, b)) == Xor(Half(x), Half(b))
  {
  }

  lemma XorSwaps(x: bv32, y: bv32, z: bv32)
    ensures Xor(Xor(x, y), z) == Xor(Xor(x, z), y)
  {
  }

  /** Bits above the lowest pass through a step unchanged. */
  lemma BitPassesHighBits(x: bv32, b: bv32)
    requires Even(b)
    ensures Bit(Xor(x, b)) == Xor(Bit(x), Half(b))
  {
    hide Bit, Xor, Half, Even, Odd;
    BitIs(x);
    BitIs(Xor(x, b));
    OddPasses(x, b);
    HalfPasses(x, b);
    XorSwaps(Half(x), Half(b), 0x82f63b78);
  }

  lemma Bits4PassesHighBits(x: bv32, b: bv32)
    requires Even4(b)
    ensures Bits4(Xor(x, b)) == Xor(Bits4(x), Sixteenth(b))
  {
    hide Bit, Xor, Half, Even;
    BitPassesHighBits(x, b);
    BitPassesHighBits(Bit(x), Half(b));
    BitPassesHighBits(Bit(Bit(x)), Half(Half(b)));
    BitPassesHighBits(Bit(Bit(Bit(x))), Half(Half(Half(b))));
  }

  lemma Bits8PassesHighBytes(x: bv32, b: bv32)
    requires Even4(b) && Even4(Sixteenth(b))
    ensures Bits8(Xor(x, b)) == Xor(Bits8(x), Sixteenth(Sixteenth(b)))
  {
    hide Bits4, Xor, Sixteenth, Even4;
    Bits4PassesHighBits(x, b);
    Bits4PassesHighBits(Bits4(x), Sixteenth(b));
  }

  /** A byte placed `8 * k` bits up. */
  function Lift1(b: bv8): bv32 { (b as bv32) << 8 }
  function Lift2(b: bv8): bv32 { (b as bv32) << 16 }
  function Lift3(b: bv8): bv32 { (b as bv32) << 24 }

  lemma Lift1Facts(b: bv8)
    ensures Even4(Lift1(b)) && Even4(Sixteenth(Lift1(b))) && Sixteenth(Sixteenth(Lift1(b))) == b as bv32
  {
  }

  lemma Lift2Facts(b: bv8)
    ensures Even4(Lift2(b)) && Even4(Sixteenth(Lift2(b))) && Sixteenth(Sixteenth(Lift2(b))) == Lift1(b)
  {
  }

  lemma Lift3Facts(b: bv8)
    ensures Even4(Lift3(b)) && Even4(Sixteenth(Lift3(b))) && Sixteenth(Sixteenth(Lift3(b))) == Lift2(b)
  {
  }

  /** Mixing a byte in after a step is mixing it in one byte higher before it. */
  lemma MixLater(x: bv32, b: bv8)
    ensures Mix(Bits8(x), b) == Bits8(Xor(x, Lift1(b)))
    ensures Xor(Bits8(x), Lift1(b)) == Bits8(Xor(x, Lift2(b)))
    ensures Xor(Bits8(x), Lift2(b)) == Bits8(Xor(x, Lift3(b)))
  {
    Lift1Facts(b);
    Lift2Facts(b);
    Lift3Facts(b);
    assert Mix(Bits8(x), b) == Xor(Bits8(x), b as bv32) by { hide Bits8; }
    hide Bits8, Xor, Mix, Sixteenth, Even4, Lift1, Lift2, Lift3;
    Bits8PassesHighBytes(x, Lift1(b));
    Bits8PassesHighBytes(x, Lift2(b));
    Bits8PassesHighBytes(x, Lift3(b));
  }

  /** The register with a 32-bit little-endian word mixed in. */
  function MixWord(reg: bv32, a: bv8, b: bv8, c: bv8, d: bv8): bv32 {
    Xor(WordBelow(reg, a, b, c), Lift3(d))
  }

  function WordBelow(reg: bv32, a: bv8, b: bv8, c: bv8): bv32 {
    Xor(Xor(Mix(reg, a), Lift1(b)), Lift2(c))
  }

  lemma FourBytesAtOnce(reg: bv32, a: bv8, b: bv8, c: bv8, d: bv8)
    ensures Register(reg, [a, b, c, d]) == Bits8(Bits8(Bits8(Bits8(MixWord(reg, a, b, c, d)))))
  {
    hide Bits8, Xor, Mix, Lift1, Lift2, Lift3;
    assert [a, b, c, d][1..] == [b, c, d] && [b, c, d][1..] == [c, d] && [c, d][1..] == [d] && [d][1..] == [];
    var r1 := Mix(reg, a);
    MixLater(r1, b);
    var r2 := Xor(r1, Lift1(b));
    MixLater(r2, c);
    MixLater(Bits8(r2), c);
    var r3 := Xor(r2, Lift2(c));
    MixLater(r3, d);
    MixLater(Bits8(r3), d);
    MixLater(Bits8(Bits8(r3)), d);
    calc {
      Register(reg, [a, b, c, d]);
      Register(Bits8(r1), [b, c, d]);
      Register(Bits8(Bits8(r2)), [c, d]);
      Register(Bits8(Bits8(Bits8(r3))), [d]);
      Bits8(Mix(Bits8(Bits8(Bits8(r3))), d));
      Bits8(Bits8(Bits8(Bits8(Xor(r3, Lift3(d))))));
    }
  }

  /** Each byte can be read back out of the mixed word. */
  lemma WordByte0(reg: bv32, a: bv8, b: bv8, c: bv8, d: bv8)
    ensures (MixWord(reg, a, b, c, d) ^ reg) & 0xff == a as bv32
  {
  }

  lemma WordByte1(reg: bv32, a: bv8, b: bv8, c: bv8, d: bv8)
    ensures ((MixWord(reg, a, b, c, d) ^ reg) >> 8) & 0xff == b as bv32
  {
  }

  lemma WordByte2(reg: bv32, a: bv8, b: bv8, c: bv8, d: bv8)
    ensures ((MixWord(reg, a, b, c, d) ^ reg) >> 16) & 0xff == c as bv32
  {
  }

  lemma TopByteInjective(x: bv32, d: bv8, d': bv8)
    requires Xor(x, Lift3(d)) == Xor(x, Lift3(d'))
    ensures d == d'
  {
    XorCancel(x, Lift3(d), Lift3(d'));
    Lift3Facts(d); Lift2Facts(d); Lift1Facts(d);
    Lift3Facts(d'); Lift2Facts(d'); Lift1Facts(d');
    hide *;
    WideByteInjective(d, d');
  }

  lemma XorCancel(x: bv32, y: bv32, z: bv32)
    requires Xor(x, y) == Xor(x, z)
    ensures y == z
  {
  }

  lemma WideByteInjective(a: bv8, b: bv8)
    requires a as bv32 == b as bv32
    ensures a == b
  {
  }

  lemma MixWordInjective(reg: bv32, a: bv8, b: bv8, c: bv8, d: bv8, a': bv8, b': bv8, c': bv8, d': bv8)
    requires MixWord(reg, a, b, c, d) == MixWord(reg, a', b', c', d')
    ensures a == a' && b == b' && c == c' && d == d'
  {
    assert MixWord(reg, a', b', c', d') == Xor(WordBelow(reg, a', b', c'), Lift3(d'));
    assert MixWord(reg, a, b, c, d) == Xor(WordBelow(reg, a, b, c), Lift3(d));
    hide MixWord, WordBelow, Xor, Lift3;
    WordByte0(reg, a, b, c, d); WordByte0(reg, a', b', c', d'); WideByteInjective(a, a');
    WordByte1(reg, a, b, c, d); WordByte1(reg, a', b', c', d'); WideByteInjective(b, b');
    WordByte2(reg, a, b, c, d); WordByte2(reg, a', b', c', d'); WideByteInjective(c, c');
    TopByteInjective(WordBelow(reg, a, b, c), d, d');
  }

  /** Two messages that differ only inside four consecutive bytes have different checksums. */
  lemma BurstDetected(crc: bv32, head: seq<bv8>, x: seq<bv8>, y: seq<bv8>, tail: seq<bv8>)
    requires |x| == |y| == 4 && x != y
    ensures Crc(crc, head + x + tail) != Crc(crc, head + y + tail)
  {
    hide Bits8, Mix, Register, MixWord, Complement;
    if Crc(crc, head + x + tail) == Crc(crc, head + y + tail) {
      var start := Complement(crc);
      ComplementTwice(Register(start, head + x + tail));
      ComplementTwice(Register(start, head + y + tail));
      RegisterAppend(start, head + x, tail);
      RegisterAppend(start, head + y, tail);
      RegisterAppend(start, head, x);
      RegisterAppend(start, head, y);
      var r := Register(start, head);
      RegisterInjective(Register(r, x), Register(r, y), tail);
      assert x == [x[0], x[1], x[2], x[3]] && y == [y[0], y[1], y[2], y[3]];
      FourBytesAtOnce(r, x[0], x[1], x[2], x[3]);
      FourBytesAtOnce(r, y[0], y[1], y[2], y[3]);
      var p, q := MixWord(r, x[0], x[1], x[2], x[3]), MixWord(r, y[0], y[1], y[2], y[3]);
      Bits8Injective(Bits8(Bits8(Bits8(p))), Bits8(Bits8(Bits8(q))));
      Bits8Injective(Bits8(Bits8(p)), Bits8(Bits8(q)));
      Bits8Injective(Bits8(p), Bits8(q));
      Bits8Injective(p, q);
      MixWordInjective(r, x[0], x[1], x[2], x[3], y[0], y[1], y[2], y[3]);
      assert false;
    }
  }
}
