/** Streaming SHA-256: block buffering and padding around a compression function.
    The compression function itself is a parameter, so every statement here holds
    for whatever rounds the device runs. */
module Sha256 {
  import opened Common
  import opened Bytes

  type Chain = s: seq<nat> | |s| == 8 witness seq(8, _ => 0)
  type Compress = (Chain, seq<Byte>) -> Chain

  const BLOCK := 64

  const INITIAL: Chain := [
    0x6a09e667, 0xbb67ae85, 0x3c6ef372, 0xa54ff53a,
    0x510e527f, 0x9b05688c, 0x1f83d9ab, 0x5be0cd19
  ]

  // ----- the standard -----

  /** The compression function folded over the whole blocks of `m`. */
  ghost function Fold(f: Compress, h: Chain, m: seq<Byte>): Chain
    requires |m| % BLOCK == 0
    decreases |m|
  {
    if |m| == 0 then h else Fold(f, f(h, m[..BLOCK]), m[BLOCK..])
  }

  /** A one bit and `z` zero bytes after `len` bytes end 8 bytes short of a block. */
  predicate LeavesRoomForLength(len: nat, z: nat) {
    (len + 1 + z) % BLOCK == 56
  }

  function PadZeros(len: nat): nat {
    (119 - len % BLOCK) % BLOCK
  }

  /** The padding of section 5.1.1 of FIPS 180-4: the least number of zeros that
      leaves room for the length. */
  lemma PadZerosIsLeast(len: nat)
    ensures LeavesRoomForLength(len, PadZeros(len))
    ensures (len + 1 + PadZeros(len) + 8) % BLOCK == 0
    ensures forall k: nat :: LeavesRoomForLength(len, k) ==> PadZeros(len) <= k
  {
    hide PadZeros, LeavesRoomForLength;
    var m := len % BLOCK;
    PadZerosOf(len);
    RoomWithinBlock(len, PadZeros(len));
    forall k: nat | LeavesRoomForLength(len, k)
      ensures PadZeros(len) <= k
    {
      RoomWithinBlock(len, k);
      TooFew(m, k);
    }
  }

  lemma WholeBlocks(blocks: nat, n: nat)
    ensures (BLOCK * blocks + n) % BLOCK == n % BLOCK
  {
  }

  lemma RoomWithinBlock(len: nat, k: nat)
    ensures LeavesRoomForLength(len, k) <==> (len % BLOCK + 1 + k) % BLOCK == 56
    ensures (len + 1 + k + 8) % BLOCK == (len % BLOCK + 1 + k + 8) % BLOCK
  {
    var m, blocks := len % BLOCK, len / BLOCK;
    assert len == BLOCK * blocks + m;
    WholeBlocks(blocks, m + 1 + k);
    WholeBlocks(blocks, m + 1 + k + 8);
  }

  lemma PadZerosOf(len: nat)
    ensures var m, z := len % BLOCK, PadZeros(len);
            z == (if m <= 55 then 55 - m else 119 - m) && (m + 1 + z) % BLOCK == 56 && (m + 1 + z + 8) % BLOCK == 0
  {
  }

  lemma TooFew(m: nat, k: nat)
    requires m < BLOCK && (m + 1 + k) % BLOCK == 56
    ensures k >= if m <= 55 then 55 - m else 119 - m
  {
  }

  /** The message, a one bit, zeros, and its length in bits as a 64-bit number: from 2^61
      bytes on, beyond the standard, the length modulo 2^64. */
  function Pad(m: seq<Byte>): (p: seq<Byte>)
    ensures |p| % BLOCK == 0
  {
    hide PadZeros;
    PadZerosIsLeast(|m|);
    m + ([0x80] + Zeros(PadZeros(|m|)) + BigEndian(8 * |m|, 8))
  }

  function Zeros(n: nat): seq<Byte> { seq(n, _ => 0) }

  function Serialise(h: seq<nat>): (b: seq<Byte>)
    ensures |b| == 4 * |h|
  {
    if |h| == 0 then [] else BigEndian(h[0], 4) + Serialise(h[1..])
  }

  /** The padded message folded from the initial value. */
  ghost function Digest(f: Compress, m: seq<Byte>): (out: seq<Byte>)
    ensures |out| == 32
  {
    Serialise(Fold(f, INITIAL, Pad(m)))
  }

  // ----- facts about folding -----

  lemma {:induction false} FoldAppend(f: Compress, h: Chain, a: seq<Byte>, b: seq<Byte>)
    requires |a| % BLOCK == 0 && |b| % BLOCK == 0
    ensures Fold(f, h, a + b) == Fold(f, Fold(f, h, a), b)
    decreases |a|
  {
    if |a| == 0 {
      assert a + b == b;
    } else {
      assert (a + b)[..BLOCK] == a[..BLOCK] && (a + b)[BLOCK..] == a[BLOCK..] + b;
      FoldAppend(f, f(h, a[..BLOCK]), a[BLOCK..], b);
    }
  }

  lemma FoldBlock(f: Compress, h: Chain, a: seq<Byte>, b: seq<Byte>)
    requires |a| % BLOCK == 0 && |b| == BLOCK
    ensures Fold(f, h, a + b) == f(Fold(f, h, a), b)
  {
    FoldAppend(f, h, a, b);
    assert b[..BLOCK] == b && b[BLOCK..] == [];
  }

  /** The context of a running hash. */
  class Context {
    const compress: Compress
    var state: Chain
    var bitlen: nat
    const buf: array<Byte>
    var buflen: nat
    /** The whole blocks compressed so far. */
    ghost var blocks: seq<Byte>

    ghost predicate Valid()
      reads this, buf
    {
      && buf.Length == BLOCK && buflen < BLOCK
      && |blocks| % BLOCK == 0
      && state == Fold(compress, INITIAL, blocks)
      && bitlen == (8 * (|blocks| + buflen)) % TWO_TO_64
    }

    /** Everything absorbed so far: the compressed blocks and the buffered rest. */
    ghost function Message(): seq<Byte>
      requires Valid()
      reads this, buf
    {
      blocks + buf[..buflen]
    }

    constructor (f: Compress)
      ensures Valid() && Message() == [] && fresh(buf) && compress == f
    {
      compress := f;
      state := INITIAL;
      bitlen := 0;
      buf := new Byte[BLOCK](_ => 0);
      buflen := 0;
      blocks := [];
    }

    /** The chain and the buffer account for `m`; the bit count may lag behind. */
    ghost predicate Holds(m: seq<Byte>)
      reads this, buf
    {
      && buf.Length == BLOCK && buflen < BLOCK
      && |blocks| % BLOCK == 0
      && state == Fold(compress, INITIAL, blocks)
      && blocks + buf[..buflen] == m
    }

    /** Absorbs `data`, compressing every block as it completes. */
    method Update(data: seq<Byte>)
      requires Valid()
      modifies this`state, this`bitlen, this`buflen, this`blocks, buf
      ensures Valid() && Message() == old(Message()) + data
    {
      hide Fold;
      ghost var before := Message();
      BitCount(|before|, |data|);
      bitlen := (bitlen + 8 * |data|) % TWO_TO_64;
      Absorb(data, before);
      assert |blocks| + buflen == |before| + |data|;
    }

    /** Takes in the bytes of an update: buffer first, then whole blocks, then the rest. */
    method Absorb(data: seq<Byte>, ghost before: seq<Byte>)
      requires Holds(before)
      modifies this`state, this`buflen, this`blocks, buf
      ensures Holds(before + data)
    {
      hide Fold;
      var p := 0;
      assert data[..0] == [];
      NothingAdded(before);
      if buflen > 0 {
        p := TopUp(data, before);
      }
      while |data| - p >= BLOCK
        modifies this`state, this`blocks
        invariant 0 <= p <= |data| && (p < |data| ==> buflen == 0)
        invariant Holds(before + data[..p])
      {
        CompressBlock(data[p..p + BLOCK], before + data[..p]);
        Associative(before, data[..p], data[p..p + BLOCK]);
        assert data[..p] + data[p..p + BLOCK] == data[..p + BLOCK];
        p := p + BLOCK;
      }
      assert data[..p] + data[p..] == data;
      if p < |data| {
        Stash(data[p..], before + data[..p]);
        Associative(before, data[..p], data[p..]);
      }
    }

    /** Fills a part-full buffer from the front of `data`. */
    method TopUp(data: seq<Byte>, ghost before: seq<Byte>) returns (p: nat)
      requires Holds(before) && 0 < buflen
      modifies this`state, this`buflen, this`blocks, buf
      ensures p <= |data| && (p < |data| ==> buflen == 0)
      ensures Holds(before + data[..p])
    {
      var need := BLOCK - buflen;
      p := if |data| < need then |data| else need;
      Copy(buflen, data[..p]);
      buflen := buflen + p;
      assert blocks + buf[..buflen] == before + data[..p];
      if buflen == BLOCK {
        FoldBlock(compress, INITIAL, blocks, buf[..]);
        state := compress(state, buf[..]);
        blocks := blocks + buf[..];
        buflen := 0;
        assert blocks + buf[..buflen] == blocks;
      }
    }

    /** Keeps the last bytes of an update for the next one. */
    method Stash(rest: seq<Byte>, ghost before: seq<Byte>)
      requires Holds(before) && buflen == 0 && |rest| < BLOCK
      modifies this`buflen, buf
      ensures Holds(before + rest)
    {
      assert blocks == before;
      Copy(0, rest);
      buflen := |rest|;
    }

    /** Compresses one block straight from the input. */
    method CompressBlock(block: seq<Byte>, ghost before: seq<Byte>)
      requires Holds(before) && buflen == 0 && |block| == BLOCK
      modifies this`state, this`blocks
      ensures Holds(before + block)
    {
      FoldBlock(compress, INITIAL, blocks, block);
      state := compress(state, block);
      blocks := blocks + block;
      assert blocks + buf[..0] == blocks;
    }

    /** memcpy into the block buffer. */
    method Copy(at: nat, bytes: seq<Byte>)
      requires at + |bytes| <= buf.Length
      modifies buf
      ensures buf[..at] == old(buf[..at])
      ensures buf[at..at + |bytes|] == bytes
      ensures buf[at + |bytes|..] == old(buf[at + |bytes|..])
    {
      for i := 0 to |bytes|
        invariant forall k :: 0 <= k < buf.Length ==>
                    buf[k] == if at <= k < at + i then bytes[k - at] else old(buf[k])
      {
        buf[at + i] := bytes[i];
      }
    }

    /** Pads, compresses the last blocks and serialises the chain. */
    method Final() returns (out: seq<Byte>)
      requires Valid()
      modifies this`state, this`bitlen, this`buflen, this`blocks, buf
      ensures out == Digest(compress, old(Message()))
    {
      hide Fold, BigEndian, Serialise, PadZeros, Zeros, Pow256;
      ghost var m := Message();
      var padlen := if buflen < 56 then 56 - buflen else 120 - buflen;
      var pad := [0x80] + Zeros(padlen - 1) + BigEndian(bitlen, 8);
      Pow256Of8();
      BigEndianCuts(bitlen, 8 * |m|, 8);
      PadLength(|blocks|, buflen);
      assert m + pad == Pad(m);
      Update(pad);
      AllBlocks(|blocks|, buflen);
      assert Message() == blocks;
      out := Serialise(state);
    }
  }

  /** The firmware's case split is the least zero count. */
  lemma PadLength(whole: nat, rest: nat)
    requires whole % BLOCK == 0 && rest < BLOCK
    ensures PadZeros(whole + rest) + 1 == if rest < 56 then 56 - rest else 120 - rest
  {
    assert (whole + rest) % BLOCK == rest;
  }

  lemma BitCount(total: nat, more: nat)
    ensures ((8 * total) % TWO_TO_64 + 8 * more) % TWO_TO_64 == (8 * (total + more)) % TWO_TO_64
  {
  }

  lemma AllBlocks(whole: nat, rest: nat)
    requires whole % BLOCK == 0 && rest < BLOCK && (whole + rest) % BLOCK == 0
    ensures rest == 0
  {
  }

  ghost function Concat(chunks: seq<seq<Byte>>): seq<Byte> {
    if |chunks| == 0 then [] else Concat(chunks[..|chunks| - 1]) + chunks[|chunks| - 1]
  }

  /** However a message is split into updates, its digest is that of the whole. */
  method HashChunks(f: Compress, chunks: seq<seq<Byte>>) returns (out: seq<Byte>)
    ensures out == Digest(f, Concat(chunks))
  {
    var ctx := new Context(f);
    for i := 0 to |chunks|
      invariant fresh(ctx) && fresh(ctx.buf) && ctx.Valid() && ctx.compress == f
      invariant ctx.Message() == Concat(chunks[..i])
    {
      ctx.Update(chunks[i]);
      assert chunks[..i + 1][..i] == chunks[..i];
    }
    assert chunks[..|chunks|] == chunks;
    out := ctx.Final();
  }
}
