/** Store keys of the upstream buffer: fixed-width hexadecimal, so that byte order
    is numeric order. */
module QueueKeys {
  import opened Common
  import opened Ordering

  function HexDigit(v: int): char
    requires 0 <= v < 16
  {
    if v < 10 then '0' + v as char else 'a' + (v - 10) as char
  }

  /** `n` as exactly `width` hexadecimal digits, high digits cut off. */
  function Hex(n: nat, width: nat): (s: string)
    ensures |s| == width
  {
    if width == 0 then "" else Hex(n / 16, width - 1) + [HexDigit(n % 16)]
  }

  const PREFIX := "q/up/"

  function QueueKey(seqNo: nat): string { PREFIX + Hex(seqNo, 16) }

  function Pow16(n: nat): nat { if n == 0 then 1 else 16 * Pow16(n - 1) }

  lemma HexDigitLess(a: int, b: int)
    requires 0 <= a < 16 && 0 <= b < 16
    ensures Less([HexDigit(a)], [HexDigit(b)]) <==> a < b
    ensures HexDigit(a) == HexDigit(b) <==> a == b
  {
  }

  lemma {:induction false} HexLess(a: nat, b: nat, width: nat)
    requires a < Pow16(width) && b < Pow16(width)
    ensures Less(Hex(a, width), Hex(b, width)) <==> a < b
    ensures Hex(a, width) == Hex(b, width) <==> a == b
    decreases width
  {
    if width > 0 {
      HexLess(a / 16, b / 16, width - 1);
      HexDigitLess(a % 16, b % 16);
      var x, y := Hex(a / 16, width - 1), Hex(b / 16, width - 1);
      LessFixedWidth(x, y, [HexDigit(a % 16)], [HexDigit(b % 16)]);
      assert Hex(a, width)[..width - 1] == x && Hex(b, width)[..width - 1] == y;
      assert Hex(a, width)[width - 1] == HexDigit(a % 16) && Hex(b, width)[width - 1] == HexDigit(b % 16);
      hide Less, HexDigit;
    }
  }

  lemma Pow16Of16()
    ensures Pow16(16) == TWO_TO_64
  {
    assert Pow16(4) == 0x1_0000;
    assert Pow16(8) == 0x1_0000_0000;
    assert Pow16(12) == 0x1_0000_0000_0000;
  }

  /** Keys sort exactly as the sequence numbers they carry. */
  lemma KeyOrder(a: nat, b: nat)
    requires a < TWO_TO_64 && b < TWO_TO_64
    ensures Less(QueueKey(a), QueueKey(b)) <==> a < b
    ensures QueueKey(a) == QueueKey(b) <==> a == b
  {
    hide Hex;
    Pow16Of16();
    HexLess(a, b, 16);
    LessFixedWidth(PREFIX, PREFIX, Hex(a, 16), Hex(b, 16));
    LessIrreflexive(PREFIX);
    assert QueueKey(a)[|PREFIX|..] == Hex(a, 16) && QueueKey(b)[|PREFIX|..] == Hex(b, 16);
  }

  /** The number a lower-case hexadecimal text says. */
  function HexValue(s: string): int {
    if |s| == 0 then 0 else 16 * HexValue(s[..|s| - 1]) + DigitValue(s[|s| - 1])
  }

  function DigitValue(c: char): int {
    if '0' <= c <= '9' then c as int - '0' as int else c as int - 'a' as int + 10
  }

  predicate IsHex(s: string) { forall i :: 0 <= i < |s| ==> '0' <= s[i] <= '9' || 'a' <= s[i] <= 'f' }

  /** A key is the queue's prefix and sixteen lower-case digits that say the sequence number. */
  lemma KeyReads(n: nat)
    requires n < TWO_TO_64
    ensures var k := QueueKey(n); |k| == 21 && k[..5] == "q/up/" && IsHex(k[5..]) && HexValue(k[5..]) == n
  {
    hide Hex, HexValue, IsHex;
    Pow16Of16();
    HexReads(n, 16);
    assert QueueKey(n)[5..] == Hex(n, 16);
  }

  lemma {:induction false} HexReads(n: nat, width: nat)
    requires n < Pow16(width)
    ensures IsHex(Hex(n, width)) && HexValue(Hex(n, width)) == n
  {
    if width > 0 {
      HexReads(n / 16, width - 1);
      assert Hex(n, width)[..width - 1] == Hex(n / 16, width - 1);
    }
  }

  ghost predicate SortedKeys(keys: seq<string>) {
    forall i, j :: 0 <= i < j < |keys| ==> Less(keys[i], keys[j])
  }

  /** A set of keys has one sorted enumeration. */
  lemma {:induction false} SortedUnique(a: seq<string>, b: seq<string>)
    requires SortedKeys(a) && SortedKeys(b)
    requires forall k :: k in a <==> k in b
    ensures a == b
    decreases |a|
  {
    assert |a| > 0 ==> a[0] in a;
    assert |b| > 0 ==> b[0] in b;
    if |a| > 0 {
      var n, m := |a| - 1, |b| - 1;
      LastIsGreatest(a, b);
      var a', b' := a[..n], b[..m];
      forall k
        ensures k in a' <==> k in b'
      {
        InAllButLast(a, k);
        InAllButLast(b, k);
      }
      SortedUnique(a', b');
      assert a == a' + [a[n]] && b == b' + [b[m]];
    }
  }

  lemma LastIsGreatest(a: seq<string>, b: seq<string>)
    requires SortedKeys(a) && SortedKeys(b) && |a| > 0 && |b| > 0
    requires forall k :: k in a <==> k in b
    ensures a[|a| - 1] == b[|b| - 1]
  {
    var x, y := a[|a| - 1], b[|b| - 1];
    assert x in a && y in b;
    var i :| 0 <= i < |b| && b[i] == x;
    var j :| 0 <= j < |a| && a[j] == y;
    LessTotal(x, y);
  }

  lemma InAllButLast(a: seq<string>, k: string)
    requires SortedKeys(a) && |a| > 0
    ensures k in a[..|a| - 1] <==> k in a && k != a[|a| - 1]
  {
    assert a == a[..|a| - 1] + [a[|a| - 1]];
    forall i | 0 <= i < |a| - 1
      ensures a[i] != a[|a| - 1]
    {
      LessIrreflexive(a[i]);
    }
  }
}
