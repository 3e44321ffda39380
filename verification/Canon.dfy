/** The canonical price string that is hashed and signed, and its digest. */
module Canon {
  import opened Common
  import Calendar
  import Sha256
  import opened Bytes

  predicate IsInt64(v: int) { INT64_MIN <= v <= INT64_MAX }

  // ----- decimal integers -----

  /** The shortest decimal text of a magnitude. */
  function Digits(mag: nat): (s: string)
    ensures |s| >= 1
    ensures forall i :: 0 <= i < |s| ==> '0' <= s[i] <= '9'
  {
    var last := [Calendar.Digit(mag % 10)];
    if mag < 10 then last else Digits(mag / 10) + last
  }

  function Decimal(v: int): (s: string)
    ensures |s| >= 1
    ensures forall i :: 0 <= i < |s| ==> s[i] == '-' || '0' <= s[i] <= '9'
  {
    if v < 0 then "-" + Digits(-v) else Digits(v)
  }

  function DigitsValue(s: string): int {
    if |s| == 0 then 0 else 10 * DigitsValue(s[..|s| - 1]) + (s[|s| - 1] as int - '0' as int)
  }

  function DecimalValue(s: string): int {
    if |s| > 0 && s[0] == '-' then -DigitsValue(s[1..]) else DigitsValue(s)
  }

  lemma {:induction false} DigitsRoundTrip(mag: nat)
    ensures DigitsValue(Digits(mag)) == mag
  {
    if mag >= 10 {
      var s := Digits(mag);
      assert s[..|s| - 1] == Digits(mag / 10);
      DigitsRoundTrip(mag / 10);
    }
  }

  /** Reading the text back gives the number, so no two numbers share a text. */
  lemma DecimalRoundTrip(v: int)
    ensures DecimalValue(Decimal(v)) == v
  {
    var mag := if v < 0 then -v else v;
    DigitsRoundTrip(mag);
    hide Digits, DigitsValue;
    assert Decimal(v) == if v < 0 then "-" + Digits(mag) else Digits(mag);
    assert v < 0 ==> Decimal(v)[1..] == Digits(mag);
  }

  function Pow10(n: nat): nat { if n == 0 then 1 else 10 * Pow10(n - 1) }

  lemma {:induction false} DigitsWidth(mag: nat, n: nat)
    requires 1 <= n && mag < Pow10(n)
    ensures |Digits(mag)| <= n
  {
    if mag >= 10 {
      assert n > 1;
      DigitsWidth(mag / 10, n - 1);
    }
  }

  lemma Pow10Of19()
    ensures Pow10(19) == 10_000_000_000_000_000_000
  {
    assert Pow10(4) == 10_000;
    assert Pow10(8) == 100_000_000;
    assert Pow10(12) == 1_000_000_000_000;
    assert Pow10(16) == 10_000_000_000_000_000;
  }

  lemma DecimalWidth(v: int)
    requires IsInt64(v)
    ensures |Decimal(v)| <= 20
  {
    Pow10Of19();
    DigitsWidth(if v < 0 then -v else v, 19);
  }

  /** The digits still to come once those below `mag` have been collected. */
  function Remaining(mag: nat): string { if mag == 0 then "" else Digits(mag) }

  lemma CollectOne(mag: nat)
    ensures Digits(mag) == Remaining(mag / 10) + [Calendar.Digit(mag % 10)]
  {
  }

  /** Fills the scratch buffer least significant digit first; its 20 bytes suffice. */
  method CollectDigits(whole: nat, tmp: array<char>) returns (n: nat)
    requires tmp.Length == 20 && |Digits(whole)| <= 19
    modifies tmp
    ensures n <= 19 && Digits(whole) == Reversed(tmp[..n])
  {
    hide Digits, Reversed;
    CollectOne(whole);
    tmp[0] := Calendar.Digit(whole % 10);
    n := 1;
    var mag: nat := whole / 10;
    NothingReversed<char>();
    ReversedAppend([], tmp[0]);
    assert tmp[..1] == [] + [tmp[0]];
    while mag != 0
      invariant n <= 20 && n + |Remaining(mag)| <= 19
      invariant Digits(whole) == Remaining(mag) + Reversed(tmp[..n])
      decreases mag
    {
      CollectOne(mag);
      var c := Calendar.Digit(mag % 10);
      ghost var sofar := tmp[..n];
      ReversedAppend(sofar, c);
      Associative(Remaining(mag / 10), [c], Reversed(sofar));
      tmp[n] := c;
      assert tmp[..n + 1] == sofar + [c];
      n, mag := n + 1, mag / 10;
    }
  }

  /** Writes `v` in decimal, NUL terminated, into a buffer of `cap` bytes; None when
      it does not fit. */
  method FormatI64(v: int, cap: nat) returns (out: Option<string>)
    requires IsInt64(v)
    ensures out == if |Decimal(v)| + 1 <= cap then Some(Decimal(v)) else None
  {
    var tmp := new char[20];
    var neg := v < 0;
    var mag: nat := if neg then -v else v;
    if cap == 0 { return None; }
    Pow10Of19();
    DigitsWidth(mag, 19);
    var n := CollectDigits(mag, tmp);
    var len := n + (if neg then 1 else 0);
    if cap < len + 1 { return None; }
    hide Digits, Reversed;
    var text := if neg then "-" else "";
    ghost var whole := Decimal(v);
    assert whole == text + Reversed(tmp[..n]);
    hide Decimal;
    while n > 0
      invariant n <= 20
      invariant whole == text + Reversed(tmp[..n])
    {
      n := n - 1;
      assert tmp[..n + 1] == tmp[..n] + [tmp[n]];
      ReversedAppend(tmp[..n], tmp[n]);
      Associative(text, [tmp[n]], Reversed(tmp[..n]));
      text := text + [tmp[n]];
    }
    NothingReversed<char>();
    NothingAdded(text);
    return Some(text);
  }

  // ----- the signed tuple -----

  datatype PriceInput = PriceInput(tenant: string, store: string, labelId: string, sku: string,
                                   amount: int, currency: string, effectiveAt: int,
                                   sequence: int, promotion: string)

  const MAX_ID := 128
  const SCHEME := "usslp.price.v1"

  /** What the field walk checks before it emits anything. */
  predicate Encodable(x: PriceInput) {
    && |x.tenant| <= MAX_ID && |x.store| <= MAX_ID && |x.labelId| <= MAX_ID
    && |x.sku| <= MAX_ID && |x.promotion| <= MAX_ID
    && |x.currency| == 3 && (forall i :: 0 <= i < 3 ==> 'A' <= x.currency[i] <= 'Z')
    && Calendar.FormatRfc3339(x.effectiveAt).Some?
  }

  function Fields(x: PriceInput): seq<string>
    requires Encodable(x)
  {
    [SCHEME, x.tenant, x.store, x.labelId, x.sku, Decimal(x.amount), x.currency,
     Calendar.FormatRfc3339(x.effectiveAt).value, Decimal(x.sequence), x.promotion]
  }

  /** Fields with a '|' between neighbours. */
  function Join(fields: seq<string>): string {
    if |fields| == 0 then ""
    else if |fields| == 1 then fields[0]
    else fields[0] + ("|" + Join(fields[1..]))
  }

  function CanonicalString(x: PriceInput): string
    requires Encodable(x)
  {
    Join(Fields(x))
  }

  // ----- injectivity -----

  predicate Free(s: string) { forall i :: 0 <= i < |s| ==> s[i] != '|' }

  /** The first separator can be found again. */
  lemma {:induction false} FirstField(a: string, x: string, b: string, y: string)
    requires Free(a) && Free(b) && a + ("|" + x) == b + ("|" + y)
    ensures a == b && x == y
    decreases |a|
  {
    var s := a + ("|" + x);
    if |a| == 0 || |b| == 0 {
      assert s[|a|] == '|' && s[|b|] == '|';
      assert |a| == |b|;
      assert s[1..] == x && s[1..] == y;
    } else {
      assert s[0] == a[0] == b[0];
      assert s[1..] == a[1..] + ("|" + x) == b[1..] + ("|" + y);
      FirstField(a[1..], x, b[1..], y);
      assert a == [a[0]] + a[1..] && b == [b[0]] + b[1..];
    }
  }

  lemma {:induction false} JoinInjective(f: seq<string>, g: seq<string>)
    requires |f| == |g| >= 1 && Join(f) == Join(g)
    requires forall i :: 0 <= i < |f| - 1 ==> Free(f[i]) && Free(g[i])
    ensures f == g
    decreases |f|
  {
    if |f| > 1 {
      FirstField(f[0], Join(f[1..]), g[0], Join(g[1..]));
      JoinInjective(f[1..], g[1..]);
      assert f == [f[0]] + f[1..] && g == [g[0]] + g[1..];
    }
  }

  predicate SeparatorFree(x: PriceInput) {
    Free(x.tenant) && Free(x.store) && Free(x.labelId) && Free(x.sku)
  }

  lemma TimestampIsFree(unix: int)
    requires Calendar.FormatRfc3339(unix).Some?
    ensures Free(Calendar.FormatRfc3339(unix).value)
  {
  }

  /** Two price tuples with the same canonical string are the same tuple, when the
      four identifiers before the amount contain no separator. The promotion comes
      last and may contain anything. */
  lemma CanonicalInjective(x: PriceInput, y: PriceInput)
    requires Encodable(x) && Encodable(y) && SeparatorFree(x) && SeparatorFree(y)
    requires CanonicalString(x) == CanonicalString(y)
    ensures x == y
  {
    hide Calendar.FormatRfc3339, Decimal;
    var f, g := Fields(x), Fields(y);
    TimestampIsFree(x.effectiveAt);
    TimestampIsFree(y.effectiveAt);
    assert Free(SCHEME);
    JoinInjective(f, g);
    assert f[1] == x.tenant && f[2] == x.store && f[3] == x.labelId && f[4] == x.sku && f[9] == x.promotion;
    assert f[5] == Decimal(x.amount) && f[8] == Decimal(x.sequence);
    DecimalRoundTrip(x.amount); DecimalRoundTrip(y.amount);
    DecimalRoundTrip(x.sequence); DecimalRoundTrip(y.sequence);
    Calendar.Rfc3339Injective(x.effectiveAt, y.effectiveAt);
  }

  /** What follows a separator inside field `i` moved to the front of the next field. */
  function Shifted(f: seq<string>, i: nat, k: nat): seq<string>
    requires i + 1 < |f| && k < |f[i]|
  {
    f[i := f[i][..k]][i + 1 := f[i][k + 1..] + "|" + f[i + 1]]
  }

  lemma {:induction false} ShiftJoins(f: seq<string>, i: nat, k: nat)
    requires i + 1 < |f| && k < |f[i]| && f[i][k] == '|'
    ensures Join(Shifted(f, i, k)) == Join(f)
    decreases i
  {
    var g := Shifted(f, i, k);
    if i > 0 {
      ShiftJoins(f[1..], i - 1, k);
      assert g[1..] == Shifted(f[1..], i - 1, k) && g[0] == f[0];
    } else {
      assert g[1..][1..] == f[1..][1..];
      hide Join;
      JoinTwo(f);
      JoinTwo(g);
      MoveSeparator(f[0], k, f[1], Behind(f));
    }
  }

  /** The joined text after the first two fields. */
  function Behind(f: seq<string>): string
    requires |f| >= 2
  {
    if |f| == 2 then "" else "|" + Join(f[1..][1..])
  }

  lemma JoinTwo(f: seq<string>)
    requires |f| >= 2
    ensures Join(f) == f[0] + ("|" + (f[1] + Behind(f)))
  {
    NothingAdded(f[1]);
  }

  lemma MoveSeparator(a: string, k: nat, b: string, rest: string)
    requires k < |a| && a[k] == '|'
    ensures a[..k] + ("|" + (a[k + 1..] + "|" + b + rest)) == a + ("|" + (b + rest))
  {
    assert a == a[..k] + "|" + a[k + 1..];
  }

  /** A separator inside one of the first three identifiers is where uniqueness stops: what
      follows it may be moved to the next identifier, as long as that still fits, and the
      string is the same. */
  lemma SeparatorCollides(x: PriceInput, k: nat)
    requires Encodable(x)
    ensures k < |x.tenant| && x.tenant[k] == '|' && |x.tenant| - k + |x.store| <= MAX_ID ==>
              Collides(x, x.(tenant := x.tenant[..k], store := x.tenant[k + 1..] + "|" + x.store))
    ensures k < |x.store| && x.store[k] == '|' && |x.store| - k + |x.labelId| <= MAX_ID ==>
              Collides(x, x.(store := x.store[..k], labelId := x.store[k + 1..] + "|" + x.labelId))
    ensures k < |x.labelId| && x.labelId[k] == '|' && |x.labelId| - k + |x.sku| <= MAX_ID ==>
              Collides(x, x.(labelId := x.labelId[..k], sku := x.labelId[k + 1..] + "|" + x.sku))
  {
    hide Calendar.FormatRfc3339, Decimal, Collides;
    if k < |x.tenant| && x.tenant[k] == '|' && |x.tenant| - k + |x.store| <= MAX_ID {
      CollidesAt(x, x.(tenant := x.tenant[..k], store := x.tenant[k + 1..] + "|" + x.store), 1, k);
    }
    if k < |x.store| && x.store[k] == '|' && |x.store| - k + |x.labelId| <= MAX_ID {
      CollidesAt(x, x.(store := x.store[..k], labelId := x.store[k + 1..] + "|" + x.labelId), 2, k);
    }
    if k < |x.labelId| && x.labelId[k] == '|' && |x.labelId| - k + |x.sku| <= MAX_ID {
      CollidesAt(x, x.(labelId := x.labelId[..k], sku := x.labelId[k + 1..] + "|" + x.sku), 3, k);
    }
  }

  lemma CollidesAt(x: PriceInput, y: PriceInput, i: nat, k: nat)
    requires Encodable(x) && Encodable(y) && i < 4 && k < |Fields(x)[i]| && Fields(x)[i][k] == '|'
    requires Fields(y) == Shifted(Fields(x), i, k)
    ensures Collides(x, y)
  {
    hide Calendar.FormatRfc3339, Decimal, Join, Encodable;
    ShiftJoins(Fields(x), i, k);
    assert |Fields(y)[i]| == k;
  }

  /** Two different tuples, both accepted, with one canonical string. */
  predicate Collides(x: PriceInput, y: PriceInput) {
    Encodable(x) && Encodable(y) && x != y && CanonicalString(x) == CanonicalString(y)
  }

  // ----- size -----

  function TotalLength(fields: seq<string>): nat {
    if |fields| == 0 then 0 else |fields[0]| + TotalLength(fields[1..])
  }

  lemma {:induction false} JoinLength(fields: seq<string>)
    requires |fields| >= 1
    ensures |Join(fields)| == TotalLength(fields) + |fields| - 1
    decreases |fields|
  {
    if |fields| > 1 { JoinLength(fields[1..]); }
    else { assert TotalLength(fields[1..]) == 0; }
  }

  lemma TotalLengthOfTen(f: seq<string>)
    requires |f| == 10
    ensures TotalLength(f) == |f[0]| + |f[1]| + |f[2]| + |f[3]| + |f[4]| + |f[5]| + |f[6]| + |f[7]| + |f[8]| + |f[9]|
  {
    assert TotalLength(f) == |f[0]| + |f[1]| + TotalLength(f[1..][1..]);
    assert f[1..][1..] == f[2..];
    assert TotalLength(f[2..]) == |f[2]| + |f[3]| + TotalLength(f[2..][1..][1..]);
    assert f[2..][1..][1..] == f[4..];
    assert TotalLength(f[4..]) == |f[4]| + |f[5]| + TotalLength(f[4..][1..][1..]);
    assert f[4..][1..][1..] == f[6..];
    assert TotalLength(f[6..]) == |f[6]| + |f[7]| + TotalLength(f[6..][1..][1..]);
    assert f[6..][1..][1..] == f[8..];
    assert TotalLength(f[8..]) == |f[8]| + |f[9]| + TotalLength(f[8..][1..][1..]);
  }

  const MAX_LENGTH := 726

  /** The longest canonical string leaves room in the 768-byte buffer. */
  lemma CanonicalLength(x: PriceInput)
    requires Encodable(x) && IsInt64(x.amount) && IsInt64(x.sequence)
    ensures |CanonicalString(x)| <= MAX_LENGTH
  {
    hide Calendar.FormatRfc3339, Decimal, TotalLength, Join;
    JoinLength(Fields(x));
    TotalLengthOfTen(Fields(x));
    DecimalWidth(x.amount);
    DecimalWidth(x.sequence);
    Calendar.Rfc3339Width(x.effectiveAt);
  }

  // ----- the field walk and its two sinks -----

  /** What the walk hands to its sink, piece by piece. */
  function Emissions(x: PriceInput): seq<string>
    requires Encodable(x)
  {
    [SCHEME, "|", x.tenant, "|", x.store, "|", x.labelId, "|", x.sku, "|", Decimal(x.amount), "|",
     x.currency, "|", Calendar.FormatRfc3339(x.effectiveAt).value, "|", Decimal(x.sequence), "|", x.promotion]
  }

  function Flatten(pieces: seq<string>): string {
    if |pieces| == 0 then "" else Flatten(pieces[..|pieces| - 1]) + pieces[|pieces| - 1]
  }

  lemma {:induction false} FlattenPrefix(p: string, pieces: seq<string>)
    ensures Flatten([p] + pieces) == p + Flatten(pieces)
    decreases |pieces|
  {
    if |pieces| == 0 {
      assert ([p] + pieces)[..0] == [] && ([p] + pieces)[0] == p;
    } else {
      var last := |pieces| - 1;
      assert ([p] + pieces)[..last + 1] == [p] + pieces[..last];
      FlattenPrefix(p, pieces[..last]);
    }
  }

  /** Pieces with a separator between neighbours flatten to the joined fields. */
  function Interleave(fields: seq<string>): seq<string> {
    if |fields| <= 1 then fields else [fields[0], "|"] + Interleave(fields[1..])
  }

  lemma {:induction false} InterleaveJoins(fields: seq<string>)
    ensures Flatten(Interleave(fields)) == Join(fields)
    decreases |fields|
  {
    if |fields| == 1 {
      assert fields[..0] == [];
    } else if |fields| > 1 {
      var rest := Interleave(fields[1..]);
      InterleaveJoins(fields[1..]);
      assert [fields[0], "|"] + rest == [fields[0]] + (["|"] + rest);
      FlattenPrefix(fields[0], ["|"] + rest);
      FlattenPrefix("|", rest);
    }
  }

  lemma {:induction false} InterleaveTen(f: seq<string>)
    requires |f| == 10
    ensures Interleave(f) == [f[0], "|", f[1], "|", f[2], "|", f[3], "|", f[4], "|", f[5], "|",
                              f[6], "|", f[7], "|", f[8], "|", f[9]]
  {
    hide Interleave;
    InterleaveSix(f);
    InterleaveTwo(f, 2);
    InterleaveTwo(f, 0);
    assert f[0..] == f;
  }

  lemma InterleaveSix(f: seq<string>)
    requires |f| == 10
    ensures Interleave(f[4..]) == [f[4], "|", f[5], "|", f[6], "|", f[7], "|", f[8], "|", f[9]]
  {
    hide Interleave;
    InterleaveFrom(f, 9);
    InterleaveFrom(f, 8);
    InterleaveTwo(f, 6);
    InterleaveTwo(f, 4);
  }

  lemma InterleaveTwo(f: seq<string>, k: nat)
    requires k + 2 < |f|
    ensures Interleave(f[k..]) == [f[k], "|", f[k + 1], "|"] + Interleave(f[k + 2..])
  {
    hide Interleave;
    InterleaveFrom(f, k);
    InterleaveFrom(f, k + 1);
  }

  lemma InterleaveFrom(f: seq<string>, k: nat)
    requires k < |f|
    ensures Interleave(f[k..]) == if k == |f| - 1 then [f[k]] else [f[k], "|"] + Interleave(f[k + 1..])
  {
    assert f[k..][1..] == f[k + 1..];
  }

  lemma EmissionsFlatten(x: PriceInput)
    requires Encodable(x)
    ensures Flatten(Emissions(x)) == CanonicalString(x)
  {
    hide Calendar.FormatRfc3339, Decimal, Interleave, Flatten, Join;
    InterleaveTen(Fields(x));
    InterleaveJoins(Fields(x));
  }

  datatype Status = Ok | Invalid | NoSpace

  lemma {:induction false} FlattenGrows(pieces: seq<string>, i: nat)
    requires i <= |pieces|
    ensures |Flatten(pieces[..i])| <= |Flatten(pieces)|
    decreases |pieces| - i
  {
    if i < |pieces| {
      assert pieces[..i + 1][..i] == pieces[..i];
      FlattenGrows(pieces, i + 1);
    } else {
      assert pieces[..i] == pieces;
    }
  }

  /** The string sink: a bounded buffer that keeps a byte for the terminator. */
  method PriceString(x: PriceInput, cap: nat) returns (rc: Status, out: string)
    ensures rc == if cap == 0 || !Encodable(x) then Invalid
                  else if |CanonicalString(x)| + 1 > cap then NoSpace else Ok
    ensures out == if rc == Ok then CanonicalString(x) else ""
  {
    hide Calendar.FormatRfc3339, Decimal, CanonicalString;
    if cap == 0 || !Encodable(x) { return Invalid, ""; }
    var pieces := Emissions(x);
    EmissionsFlatten(x);
    var text := "";
    for i := 0 to |pieces|
      invariant text == Flatten(pieces[..i]) && |text| + 1 <= cap
    {
      assert pieces[..i + 1][..i] == pieces[..i];
      if |text| + |pieces[i]| + 1 > cap {
        FlattenGrows(pieces, i + 1);
        return NoSpace, "";
      }
      text := text + pieces[i];
    }
    assert pieces[..|pieces|] == pieces;
    return Ok, text;
  }

  /** A character stands for the byte with its code. */
  function ByteOf(c: char): Byte { (c as int % 256) as Byte }

  function ToBytes(s: string): (b: seq<Byte>)
    ensures |b| == |s|
  {
    seq(|s|, i requires 0 <= i < |s| => ByteOf(s[i]))
  }

  lemma ToBytesAppend(a: string, b: string)
    ensures ToBytes(a + b) == ToBytes(a) + ToBytes(b)
  {
  }

  /** The digest sink: every piece goes straight into the hash, and the result is
      the digest of the string the other sink would have built. */
  method PriceDigest(f: Sha256.Compress, x: PriceInput) returns (rc: Status, digest: seq<Byte>)
    requires IsInt64(x.amount) && IsInt64(x.sequence)
    ensures rc == if Encodable(x) then Ok else Invalid
    ensures digest == if rc == Ok then Sha256.Digest(f, ToBytes(CanonicalString(x))) else Sha256.Zeros(32)
  {
    hide Calendar.FormatRfc3339, Decimal, CanonicalString, Sha256.Digest, Sha256.Fold, Emissions, ToBytes;
    var ctx := new Sha256.Context(f);
    if !Encodable(x) { return Invalid, Sha256.Zeros(32); }
    var pieces := Emissions(x);
    EmissionsFlatten(x);
    for i := 0 to |pieces|
      invariant fresh(ctx) && fresh(ctx.buf) && ctx.Valid() && ctx.compress == f
      invariant ctx.Message() == ToBytes(Flatten(pieces[..i]))
    {
      ctx.Update(ToBytes(pieces[i]));
      assert pieces[..i + 1][..i] == pieces[..i];
      ToBytesAppend(Flatten(pieces[..i]), pieces[i]);
    }
    assert pieces[..|pieces|] == pieces;
    digest := ctx.Final();
    rc := Ok;
  }
}
