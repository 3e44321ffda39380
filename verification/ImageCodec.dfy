/** Label images as values: the run-length wire format, differences, windows. */
module ImageCodec {
  import opened Common
  import opened Bytes

  /** The panel's ink states; 0 is white, 1 is black, the rest are colours. */
  newtype Ink = x: int | 0 <= x < 7

  type Row = seq<Ink>

  datatype Image = Image(w: nat, rows: seq<Row>)

  predicate IsImage(f: Image) {
    && (f.w == 0 <==> |f.rows| == 0)
    && forall y :: 0 <= y < |f.rows| ==> |f.rows[y]| == f.w
  }

  function Blank(w: nat, h: nat): (f: Image)
    ensures IsImage(f)
  {
    if w == 0 || h == 0 then Image(0, []) else Image(w, seq(h, _ => Solid(0, w)))
  }

  function Solid(ink: Ink, n: nat): (r: Row)
    ensures |r| == n
  {
    seq(n, _ => ink)
  }

  // ----- encoding -----

  const MAGIC: seq<Byte> := [85, 70, 66, 50] // "UFB2"
  const RUN_SHORT_MAX := 16

  /** Length of the run of equal inks that `row` starts with. */
  function RunLength(row: Row): (n: nat)
    requires |row| > 0
    ensures 1 <= n <= |row|
    ensures row[..n] == Solid(row[0], n)
    ensures n < |row| ==> row[n] != row[0]
  {
    if |row| > 1 && row[1] == row[0] then
      var n := RunLength(row[1..]);
      assert row[..1 + n] == [row[0]] + row[1..][..n];
      1 + n
    else 1
  }

  function EncodeRun(ink: Ink, n: nat): (b: seq<Byte>)
    requires n >= 1
    ensures |b| >= 1
  {
    if n <= RUN_SHORT_MAX then [(ink as int * 16 + n - 1) as Byte]
    else [(128 + ink as int * 16) as Byte] + PutUvarint(n)
  }

  function EncodeRow(row: Row): seq<Byte>
    decreases |row|
  {
    if |row| == 0 then []
    else
      var n := RunLength(row);
      EncodeRun(row[0], n) + EncodeRow(row[n..])
  }

  /** How many rows, from the first on, are equal to it. */
  function RowRepeats(rows: seq<Row>): (n: nat)
    requires |rows| > 0
    ensures 1 <= n <= |rows|
    ensures forall i :: 0 <= i < n ==> rows[i] == rows[0]
    ensures n < |rows| ==> rows[n] != rows[0]
  {
    if |rows| > 1 && rows[1] == rows[0] then
      var n := RowRepeats(rows[1..]);
      assert forall i :: 1 <= i < 1 + n ==> rows[i] == rows[1..][i - 1];
      1 + n
    else 1
  }

  function EncodeRows(rows: seq<Row>): seq<Byte>
    decreases |rows|
  {
    if |rows| == 0 then []
    else
      var reps := RowRepeats(rows);
      PutUvarint(reps) + EncodeRow(rows[0]) + EncodeRows(rows[reps..])
  }

  function Header(f: Image): (b: seq<Byte>)
    ensures |b| == 8
  {
    MAGIC + BigEndian(f.w, 2) + BigEndian(|f.rows|, 2)
  }

  function Encode(f: Image): seq<Byte> {
    Header(f) + (if f.w == 0 || |f.rows| == 0 then [] else EncodeRows(f.rows))
  }

  // ----- decoding -----

  /** Malformed is the decoder's error; Fault is an index or a slice out of range. */
  datatype Parse<T> = Done(value: T, rest: seq<Byte>) | Malformed | Fault

  datatype RunHeader = Run(ink: Ink, n: int, used: nat) | BadRun

  function DecodeRun(b: seq<Byte>): (r: RunHeader)
    ensures r.Run? ==> 0 < r.used <= |b|
  {
    if |b| == 0 then BadRun
    else
      var ink := (b[0] as int / 16) % 8;
      if ink >= 7 then BadRun
      else if b[0] < 128 then Run(ink as Ink, b[0] as int % 16 + 1, 1)
      else
        match ReadUvarint(b[1..], 0)
        case Bad => BadRun
        case Value(v, used) => Run(ink as Ink, ToInt64(v), 1 + used)
  }

  /** Fills a row of width `w` whose first pixels are `done`. */
  function DecodeRow(b: seq<Byte>, done: Row, w: nat): (r: Parse<Row>)
    ensures r.Done? && |done| <= w ==> |r.value| == w
    ensures r.Done? ==> |r.rest| <= |b|
    decreases |b|
  {
    if |done| >= w then Done(done, b)
    else
      match DecodeRun(b)
      case BadRun => Malformed
      case Run(ink, n, used) =>
        if n <= 0 || ToInt64(|done| + n) > w then Malformed
        else if |done| + n > w then Fault
        else DecodeRow(b[used..], done + Solid(ink, n), w)
  }

  /** Copies `row` into `reps` rows from `y` on. */
  function Repeat(rows: seq<Row>, y: nat, row: Row, reps: nat): (r: seq<Row>)
    requires y + reps <= |rows|
    ensures |r| == |rows|
  {
    rows[..y] + seq(reps, _ => row) + rows[y + reps..]
  }

  /** All rows are `w` wide. */
  predicate Wide(rows: seq<Row>, w: nat) {
    forall y :: 0 <= y < |rows| ==> |rows[y]| == w
  }

  /** Row `y` once the flat pixel buffer holds `row` from offset `lo` on. */
  function OverlayRow(rows: seq<Row>, w: nat, lo: nat, row: Row, y: nat): (r: Row)
    requires Wide(rows, w) && |row| == w && y < |rows|
    ensures |r| == w
  {
    seq(w, x requires 0 <= x < w => if lo <= y * w + x < lo + w then row[y * w + x - lo] else rows[y][x])
  }

  /** The rows once the flat pixel buffer holds `row` from offset `lo` on. */
  function Overlay(rows: seq<Row>, w: nat, lo: nat, row: Row): (r: seq<Row>)
    requires Wide(rows, w) && |row| == w
    ensures |r| == |rows| && Wide(r, w)
  {
    seq(|rows|, y requires 0 <= y < |rows| => OverlayRow(rows, w, lo, row, y))
  }

  /** Is the slice of the pixel buffer that row `y` would occupy, computed in 64-bit
      integers, a slice of that buffer? */
  predicate InBuffer(y: int, w: nat, h: nat) {
    0 <= ToInt64(y * w) <= ToInt64((y + 1) * w) <= w * h
  }

  /** Copies `row` over `reps` slices of the pixel buffer from that of row `y` on; None
      if one of them is out of range. */
  function CopyRows(rows: seq<Row>, y: int, w: nat, row: Row, reps: int): (r: Option<seq<Row>>)
    requires Wide(rows, w) && |row| == w
    ensures r.Some? ==> |r.value| == |rows| && Wide(r.value, w)
    decreases if reps > 0 then reps else 0
  {
    if reps <= 0 then Some(rows)
    else if !InBuffer(y, w, |rows|) then None
    else CopyRows(Overlay(rows, w, ToInt64(y * w), row), y + 1, w, row, reps - 1)
  }

  function DecodeRows(b: seq<Byte>, y: int, rows: seq<Row>, w: nat): (r: Parse<seq<Row>>)
    requires Wide(rows, w)
    ensures r.Done? ==> |r.value| == |rows| && Wide(r.value, w)
    decreases |b|
  {
    if y >= |rows| then Done(rows, b)
    else
      match ReadUvarint(b, 0)
      case Bad => Malformed
      case Value(count, used) =>
        if count == 0 then Malformed
        else
          match DecodeRow(b[used..], [], w)
          case Malformed => Malformed
          case Fault => Fault
          case Done(row, rest) =>
            var reps := ToInt64(count);
            if ToInt64(y + reps) > |rows| then Malformed
            else
              match CopyRows(rows, y, w, row, reps)
              case None => Fault
              case Some(copied) => DecodeRows(rest, ToInt64(y + reps), copied, w)
  }

  function Decode(b: seq<Byte>): Parse<Image> {
    if |b| < 8 || b[..4] != MAGIC then Malformed
    else
      var w := FromBigEndian(b[4..6]);
      var h := FromBigEndian(b[6..8]);
      if w == 0 || h == 0 then Done(Image(0, []), b[8..])
      else
        match DecodeRows(b[8..], 0, Blank(w, h).rows, w)
        case Malformed => Malformed
        case Fault => Fault
        case Done(rows, rest) => Done(Image(w, rows), rest)
  }

  // ----- the decoder inverts the encoder -----

  lemma RunRoundTrip(ink: Ink, n: nat, rest: seq<Byte>)
    requires 1 <= n < 65536
    ensures DecodeRun(EncodeRun(ink, n) + rest) == Run(ink, n, |EncodeRun(ink, n)|)
  {
    hide PutUvarint, ReadUvarint, ToInt64, DecodeRun;
    var i := ink as int;
    var b := EncodeRun(ink, n) + rest;
    if n <= RUN_SHORT_MAX {
      ShortRun(b, i, n - 1);
    } else {
      assert b[1..] == PutUvarint(n) + rest;
      CapacityIs64Bits();
      UvarintRoundTrip(n, rest, 0);
      BelowLimit(n);
      LongRun(b, i, n, |PutUvarint(n)|);
    }
  }

  lemma ShortRun(b: seq<Byte>, ink: int, extra: int)
    requires 0 <= ink < 7 && 0 <= extra < 16 && |b| > 0 && b[0] as int == ink * 16 + extra
    ensures DecodeRun(b) == Run(ink as Ink, extra + 1, 1)
  {
    hide ReadUvarint, ToInt64;
  }

  lemma LongRun(b: seq<Byte>, ink: int, n: nat, used: nat)
    requires 0 <= ink < 7 && |b| > 0 && b[0] as int == 128 + ink * 16
    requires ReadUvarint(b[1..], 0) == Value(n, used) && ToInt64(n) == n && used <= |b| - 1
    ensures DecodeRun(b) == Run(ink as Ink, n, 1 + used)
  {
    hide ReadUvarint, ToInt64;
  }

  lemma BelowLimit(v: int)
    requires 0 <= v < TWO_TO_63
    ensures ToInt64(v) == v
  {
  }

  lemma DecodeRowStep(b: seq<Byte>, done: Row, w: nat, ink: Ink, n: int, used: nat)
    requires DecodeRun(b) == Run(ink, n, used) && used <= |b|
    requires 1 <= n && |done| + n <= w < 65536
    ensures DecodeRow(b, done, w) == DecodeRow(b[used..], done + Solid(ink, n), w)
  {
    BelowLimit(|done| + n);
    hide ToInt64, DecodeRun, Solid;
  }

  lemma FullRow(b: seq<Byte>, done: Row)
    ensures DecodeRow(b, done, |done|) == Done(done, b)
  {
  }

  lemma DropPrefix(a: seq<Byte>, b: seq<Byte>)
    ensures (a + b)[|a|..] == b
  {
  }

  /** The encoding of a row is its first run, then the encoding of what is left. */
  lemma EncodeRowSplit(row: Row, rest: seq<Byte>)
    requires |row| > 0
    ensures var n := RunLength(row);
            EncodeRow(row) + rest == EncodeRun(row[0], n) + (EncodeRow(row[n..]) + rest)
  {
    hide RunLength, EncodeRun;
  }

  lemma CutInTwo(row: Row, n: nat)
    requires n <= |row|
    ensures row[..n] + row[n..] == row
  {
  }

  lemma SplitAtRun(row: Row, done: Row)
    requires |row| > 0
    ensures var n := RunLength(row); done + Solid(row[0], n) + row[n..] == done + row
  {
    hide *;
    var n := RunLength(row);
    CutInTwo(row, n);
    Associative(done, Solid(row[0], n), row[n..]);
  }

  lemma {:induction false} RowRoundTrip(row: Row, done: Row, rest: seq<Byte>)
    requires |done| + |row| < 65536
    ensures DecodeRow(EncodeRow(row) + rest, done, |done| + |row|) == Done(done + row, rest)
    decreases |row|
  {
    hide *;
    if |row| == 0 {
      EmptyRow(rest);
      assert done + row == done;
      FullRow(rest, done);
    } else {
      var n := RunLength(row);
      var run, more := EncodeRun(row[0], n), EncodeRow(row[n..]) + rest;
      EncodeRowSplit(row, rest);
      DropPrefix(run, more);
      RunRoundTrip(row[0], n, more);
      DecodeRowStep(run + more, done, |done| + |row|, row[0], n, |run|);
      RowRoundTrip(row[n..], done + Solid(row[0], n), rest);
      SplitAtRun(row, done);
    }
  }

  lemma EmptyRow(rest: seq<Byte>)
    ensures EncodeRow([]) + rest == rest && EncodeRows([]) + rest == rest
  {
  }

  lemma DecodeRowsStep(b: seq<Byte>, y: nat, acc: seq<Row>, w: nat, reps: nat, used: nat, row: Row, rest: seq<Byte>)
    requires ReadUvarint(b, 0) == Value(reps, used) && used <= |b|
    requires DecodeRow(b[used..], [], w) == Done(row, rest) && |rest| <= |b[used..]| && used > 0
    requires 1 <= reps && y + reps <= |acc| < 65536 && w < 65536 && Wide(acc, w) && |row| == w
    ensures Wide(Repeat(acc, y, row, reps), w)
    ensures DecodeRows(b, y, acc, w) == DecodeRows(rest, y + reps, Repeat(acc, y, row, reps), w)
  {
    hide ToInt64, DecodeRow, ReadUvarint, Repeat, CopyRows;
    BelowLimit(reps);
    BelowLimit(y + reps);
    CopyRegular(acc, y, w, row, reps);
  }

  lemma RowOffsets(w: nat, a: int, b: int)
    requires a < b
    ensures a * w + w == (a + 1) * w <= b * w
  {
    assert (a + 1) * w <= b * w;
  }

  lemma Product(a: nat, b: nat, c: nat)
    requires a <= b
    ensures 0 <= a * c <= b * c
  {
    assert b * c == a * c + (b - a) * c;
  }

  lemma BufferSize(w: nat, h: nat)
    requires w < 65536 && h < 65536
    ensures 0 <= w * h < 0x1_0000_0000
  {
    Product(w, 65535, h);
  }

  /** A row of the panel is in range. */
  lemma RowInBuffer(y: nat, w: nat, h: nat)
    requires y < h < 65536 && w < 65536
    ensures InBuffer(y, w, h) && ToInt64(y * w) == y * w
  {
    hide ToInt64;
    RowOffsets(w, y, h);
    BufferSize(w, h);
    assert 0 <= y * w;
    BelowLimit(y * w);
    BelowLimit((y + 1) * w);
  }

  /** Overlaying where a row lies replaces just that row. */
  lemma OverlayIsUpdate(rows: seq<Row>, w: nat, row: Row, y: nat)
    requires Wide(rows, w) && |row| == w && y < |rows|
    ensures 0 <= y * w && Overlay(rows, w, y * w, row) == rows[y := row]
  {
    assert 0 <= y * w;
    var r := Overlay(rows, w, y * w, row);
    forall k | 0 <= k < |rows|
      ensures r[k] == rows[y := row][k]
    {
      if k < y { RowOffsets(w, k, y); } else if y < k { RowOffsets(w, y, k); }
    }
  }

  lemma {:induction false} CopyRegular(rows: seq<Row>, y: nat, w: nat, row: Row, reps: nat)
    requires Wide(rows, w) && |row| == w < 65536 && y + reps <= |rows| < 65536
    ensures CopyRows(rows, y, w, row, reps) == Some(Repeat(rows, y, row, reps))
    decreases reps
  {
    hide ToInt64, InBuffer, Overlay, Repeat;
    if reps == 0 {
      RepeatNone(rows, y, row);
    } else {
      RowInBuffer(y, w, |rows|);
      OverlayIsUpdate(rows, w, row, y);
      CopyRegular(rows[y := row], y + 1, w, row, reps - 1);
      RepeatFirst(rows, y, row, reps);
    }
  }

  lemma RepeatNone(rows: seq<Row>, y: nat, row: Row)
    requires y <= |rows|
    ensures Repeat(rows, y, row, 0) == rows
  {
  }

  lemma RepeatFirst(rows: seq<Row>, y: nat, row: Row, reps: nat)
    requires reps >= 1 && y + reps <= |rows|
    ensures Repeat(rows[y := row], y + 1, row, reps - 1) == Repeat(rows, y, row, reps)
  {
  }

  lemma RepeatFills(rows: seq<Row>, acc: seq<Row>, y: nat, reps: nat)
    requires y + reps <= |rows| == |acc| && reps >= 1 && acc[..y] == rows[..y]
    requires forall i :: y <= i < y + reps ==> rows[i] == rows[y]
    ensures Repeat(acc, y, rows[y], reps)[..y + reps] == rows[..y + reps]
  {
    var r := Repeat(acc, y, rows[y], reps);
    assert forall i :: 0 <= i < y ==> r[i] == acc[..y][i] == rows[..y][i];
  }

  lemma RowIsWide(rows: seq<Row>, y: nat, w: nat)
    requires Wide(rows, w) && y < |rows|
    ensures |rows[y]| == w
  {
  }

  lemma AllRows(b: seq<Byte>, rows: seq<Row>, w: nat)
    requires Wide(rows, w)
    ensures DecodeRows(b, |rows|, rows, w) == Done(rows, b)
  {
  }

  lemma EncodeRowsSplit(rows: seq<Row>, y: nat, rest: seq<Byte>)
    requires y < |rows|
    ensures var reps := RowRepeats(rows[y..]);
            && y + reps <= |rows|
            && EncodeRows(rows[y..]) + rest
               == PutUvarint(reps) + (EncodeRow(rows[y]) + (EncodeRows(rows[y + reps..]) + rest))
            && forall i :: y <= i < y + reps ==> rows[i] == rows[y]
  {
    hide RowRepeats, PutUvarint, EncodeRow;
    var tail := rows[y..];
    var reps := RowRepeats(tail);
    assert tail[reps..] == rows[y + reps..];
    assert forall i :: y <= i < y + reps ==> rows[i] == tail[i - y];
  }

  lemma {:induction false} RowsRoundTrip(rows: seq<Row>, y: nat, acc: seq<Row>, w: nat, rest: seq<Byte>)
    requires y <= |rows| == |acc| < 65536 && w < 65536 && Wide(rows, w) && Wide(acc, w)
    requires acc[..y] == rows[..y]
    ensures DecodeRows(EncodeRows(rows[y..]) + rest, y, acc, w) == Done(rows, rest)
    decreases |rows| - y
  {
    hide *;
    if y == |rows| {
      assert rows[y..] == [] && acc[..y] == acc && rows[..y] == rows;
      EmptyRow(rest);
      AllRows(rest, acc, w);
    } else {
      var reps := RowRepeats(rows[y..]);
      EncodeRowsSplit(rows, y, rest);
      var count, line, more := PutUvarint(reps), EncodeRow(rows[y]), EncodeRows(rows[y + reps..]) + rest;
      CapacityIs64Bits();
      UvarintRoundTrip(reps, line + more, 0);
      DropPrefix(count, line + more);
      RowIsWide(rows, y, w);
      RowRoundTrip(rows[y], [], more);
      assert [] + rows[y] == rows[y];
      DecodeRowsStep(count + (line + more), y, acc, w, reps, |count|, rows[y], more);
      RepeatFills(rows, acc, y, reps);
      RowsRoundTrip(rows, y + reps, Repeat(acc, y, rows[y], reps), w, rest);
    }
  }

  predicate Encodable(f: Image) {
    IsImage(f) && f.w < 65536 && |f.rows| < 65536
  }

  /** Decoding an encoded image gives the image back, whatever follows it. */
  lemma ImageRoundTrip(f: Image, rest: seq<Byte>)
    requires Encodable(f)
    ensures Decode(Encode(f) + rest) == Done(f, rest)
  {
    hide BigEndian, FromBigEndian, EncodeRows, DecodeRows;
    var b := Encode(f) + rest;
    assert b[..4] == MAGIC;
    assert b[4..6] == BigEndian(f.w, 2);
    assert b[6..8] == BigEndian(|f.rows|, 2);
    BigEndian16RoundTrip(f.w);
    BigEndian16RoundTrip(|f.rows|);
    if f.w == 0 {
      assert b[8..] == rest && f == Image(0, []);
    } else {
      assert b[8..] == EncodeRows(f.rows) + rest;
      assert f.rows[0..] == f.rows;
      RowsRoundTrip(f.rows, 0, Blank(f.w, |f.rows|).rows, f.w, rest);
    }
  }

  /** One image, byte by byte: two rows of a black run of sixteen and four white pixels, and a row
      of a coloured run of seventeen and three white ones. */
  lemma KnownImage()
    ensures var a, b := Solid(1, 16) + Solid(0, 4), Solid(2, 17) + Solid(0, 3);
            Encode(Image(20, [a, a, b])) == [85, 70, 66, 50, 0, 20, 0, 3, 2, 31, 3, 1, 160, 17, 2]
  {
    hide Solid, EncodeRow, BigEndian, PutUvarint, EncodeRows, RowRepeats;
    var a, b := Solid(1, 16) + Solid(0, 4), Solid(2, 17) + Solid(0, 3);
    KnownRows();
    KnownGroups(a, b);
    KnownNumbers();
  }

  lemma KnownNumbers()
    ensures PutUvarint(1) == [1] && PutUvarint(2) == [2] && PutUvarint(17) == [17]
    ensures BigEndian(20, 2) == [0, 20] && BigEndian(3, 2) == [0, 3]
  {
  }

  lemma KnownRows()
    ensures EncodeRow(Solid(1, 16) + Solid(0, 4)) == [31, 3]
    ensures EncodeRow(Solid(2, 17) + Solid(0, 3)) == [160, 17, 2]
    ensures Solid(1, 16) + Solid(0, 4) != Solid(2, 17) + Solid(0, 3)
  {
    assert (Solid(1, 16) + Solid(0, 4))[0] != (Solid(2, 17) + Solid(0, 3))[0];
    hide EncodeRow, PutUvarint;
    TwoRuns(1, 16, 0, 4);
    TwoRuns(2, 17, 0, 3);
    KnownNumbers();
  }

  lemma TwoRuns(ink: Ink, n: nat, other: Ink, m: nat)
    requires n > 0 && m > 0 && ink != other
    ensures EncodeRow(Solid(ink, n) + Solid(other, m)) == EncodeRun(ink, n) + EncodeRun(other, m)
  {
    assert Solid(other, m)[0] == other;
    hide EncodeRow, EncodeRun, Solid;
    RunOf(ink, n, Solid(other, m));
    RunOf(other, m, []);
    NothingAdded(Solid(other, m));
    EmptyRow([]);
    NothingAdded(EncodeRow([]));
    NothingAdded(EncodeRun(other, m));
  }

  lemma KnownGroups(a: Row, b: Row)
    requires a != b
    ensures EncodeRows([a, a, b]) == PutUvarint(2) + EncodeRow(a) + (PutUvarint(1) + EncodeRow(b))
  {
    hide EncodeRow, PutUvarint;
    var rows := [a, a, b];
    assert rows[1..] == [a, b] && rows[2..] == [b] && [a, b][1..] == [b] && [b][1..] == [];
    assert RowRepeats([a, b]) == 1;
    assert RowRepeats(rows) == 2;
    NothingAdded(PutUvarint(1) + EncodeRow(b));
    EmptyRow([]);
  }

  /** A run before a pixel of another ink. */
  lemma RunOf(ink: Ink, n: nat, rest: Row)
    requires n > 0 && (rest == [] || rest[0] != ink)
    ensures EncodeRow(Solid(ink, n) + rest) == EncodeRun(ink, n) + EncodeRow(rest)
  {
    hide EncodeRun;
    var row := Solid(ink, n) + rest;
    RunLengthIs(row, n);
    assert row[n..] == rest;
  }

  lemma {:induction false} RunLengthIs(row: Row, n: nat)
    requires 1 <= n <= |row| && (n < |row| ==> row[n] != row[0])
    requires forall i :: 0 <= i < n ==> row[i] == row[0]
    ensures RunLength(row) == n
    decreases n
  {
    if n > 1 { RunLengthIs(row[1..], n - 1); }
  }

  // ----- arbitrary input -----

  predicate VarintAtBelow(b: seq<Byte>, i: nat, bound: int)
    requires i <= |b|
  {
    ReadUvarint(b[i..], 0).Value? ==> ReadUvarint(b[i..], 0).v < bound
  }

  /** Every varint to be found in `b`, wherever it starts, is below `bound`. */
  predicate VarintsBelow(b: seq<Byte>, bound: int) {
    forall i :: 0 <= i <= |b| ==> VarintAtBelow(b, i, bound)
  }

  /** The least varint that can make a sum with a coordinate of a panel reach 2^63. */
  const LIMIT := TWO_TO_63 - 65534

  lemma SuffixBelow(b: seq<Byte>, k: nat, bound: int)
    requires VarintsBelow(b, bound) && k <= |b|
    ensures VarintsBelow(b[k..], bound)
  {
    forall i | 0 <= i <= |b[k..]|
      ensures VarintAtBelow(b[k..], i, bound)
    {
      assert b[k..][i..] == b[k + i..] && VarintAtBelow(b, k + i, bound);
    }
  }

  lemma RunBelow(b: seq<Byte>)
    requires VarintsBelow(b, LIMIT) && DecodeRun(b).Run?
    ensures DecodeRun(b).n < LIMIT
  {
    assert VarintAtBelow(b, 1, LIMIT);
  }

  lemma {:induction false} RowNeverFaults(b: seq<Byte>, done: Row, w: nat)
    requires VarintsBelow(b, LIMIT) && w < 65536
    ensures !DecodeRow(b, done, w).Fault?
    ensures DecodeRow(b, done, w).Done? ==> VarintsBelow(DecodeRow(b, done, w).rest, LIMIT)
    decreases |b|
  {
    hide DecodeRun, Solid, VarintsBelow, ToInt64;
    if |done| < w && DecodeRun(b).Run? {
      RunBelow(b);
      var Run(ink, n, used) := DecodeRun(b);
      SuffixBelow(b, used, LIMIT);
      if n > 0 {
        BelowLimit(|done| + n);
        RowNeverFaults(b[used..], done + Solid(ink, n), w);
      }
    }
  }

  lemma {:induction false} RowsNeverFault(b: seq<Byte>, y: nat, rows: seq<Row>, w: nat)
    requires VarintsBelow(b, LIMIT) && w < 65536 && |rows| < 65536 && Wide(rows, w)
    ensures !DecodeRows(b, y, rows, w).Fault?
    decreases |b|
  {
    hide ReadUvarint, DecodeRow, VarintsBelow, ToInt64, CopyRows, Repeat;
    if y < |rows| && ReadUvarint(b, 0).Value? && ReadUvarint(b, 0).v > 0 {
      var Value(count, used) := ReadUvarint(b, 0);
      SuffixBelow(b, used, LIMIT);
      RowNeverFaults(b[used..], [], w);
      CountBelow(b);
      BelowLimit(count);
      BelowLimit(y + count);
      if DecodeRow(b[used..], [], w).Done? && y + count <= |rows| {
        var Done(row, rest) := DecodeRow(b[used..], [], w);
        CopyRegular(rows, y, w, row, count);
        RowsNeverFault(rest, y + count, Repeat(rows, y, row, count), w);
      }
    }
  }

  lemma CountBelow(b: seq<Byte>)
    requires VarintsBelow(b, LIMIT) && ReadUvarint(b, 0).Value?
    ensures ReadUvarint(b, 0).v < LIMIT
  {
    assert VarintAtBelow(b, 0, LIMIT) && b[0..] == b;
  }

  /** Whatever bytes arrive, a decoded image is well formed; and if no varint among them
      reaches 2^63 - 65534, the decoder never accesses anything out of range. */
  lemma DecodeIsSafe(b: seq<Byte>)
    ensures VarintsBelow(b, LIMIT) ==> !Decode(b).Fault?
    ensures Decode(b).Done? ==> IsImage(Decode(b).value)
  {
    hide DecodeRows, VarintsBelow, Solid, FromBigEndian;
    if VarintsBelow(b, LIMIT) && |b| >= 8 && b[..4] == MAGIC {
      var w, h := FromBigEndian(b[4..6]), FromBigEndian(b[6..8]);
      TwoBytes(b[4..6]);
      TwoBytes(b[6..8]);
      SuffixBelow(b, 8, LIMIT);
      if w > 0 && h > 0 { RowsNeverFault(b[8..], 0, Blank(w, h).rows, w); }
    }
  }

  lemma TwoBytes(b: seq<Byte>)
    requires |b| == 2
    ensures FromBigEndian(b) < 65536
  {
    assert b[..1][..0] == [];
    assert FromBigEndian(b[..1]) == 256 * FromBigEndian(b[..1][..0]) + b[0] as int;
  }

  // ----- windows -----

  datatype Rect = Rect(x0: int, y0: int, x1: int, y1: int)

  predicate Empty(r: Rect) { r.x1 <= r.x0 || r.y1 <= r.y0 }

  predicate Contains(r: Rect, x: int, y: int) { r.x0 <= x < r.x1 && r.y0 <= y < r.y1 }

  /** `r` cut down to a panel of this size. */
  function Clip(w: nat, h: nat, r: Rect): Rect {
    Rect(if r.x0 < 0 then 0 else r.x0, if r.y0 < 0 then 0 else r.y0,
         if r.x1 > w then w else r.x1, if r.y1 > h then h else r.y1)
  }

  function SubImage(f: Image, r: Rect): (s: Image)
    requires IsImage(f)
    ensures IsImage(s)
  {
    var c := Clip(f.w, |f.rows|, r);
    if Empty(c) then Image(0, [])
    else Image(c.x1 - c.x0, seq(c.y1 - c.y0, i requires 0 <= i < c.y1 - c.y0 => f.rows[c.y0 + i][c.x0..c.x1]))
  }

  /** The pixel at (x, y) after `src` is copied in with its corner at (dx, dy). */
  function Blitted(f: Image, src: Image, dx: int, dy: int, x: int, y: int): Ink
    requires IsImage(f) && IsImage(src) && 0 <= x < f.w && 0 <= y < |f.rows|
  {
    if 0 <= x - dx < src.w && 0 <= y - dy < |src.rows| then src.rows[y - dy][x - dx] else f.rows[y][x]
  }

  function BlitRow(f: Image, src: Image, dx: int, dy: int, y: int): (r: Row)
    requires IsImage(f) && IsImage(src) && 0 <= y < |f.rows|
    ensures |r| == f.w
  {
    seq(f.w, x requires 0 <= x < f.w => Blitted(f, src, dx, dy, x, y))
  }

  function Blit(f: Image, src: Image, dx: int, dy: int): (r: Image)
    requires IsImage(f) && IsImage(src)
    ensures IsImage(r)
  {
    Image(f.w, seq(|f.rows|, y requires 0 <= y < |f.rows| => BlitRow(f, src, dx, dy, y)))
  }

  // ----- differences -----

  predicate SameSize(f: Image, g: Image) {
    IsImage(f) && IsImage(g) && f.w == g.w && |f.rows| == |g.rows|
  }

  predicate Differs(f: Image, g: Image, x: int, y: int)
    requires SameSize(f, g)
  {
    0 <= x < f.w && 0 <= y < |f.rows| && f.rows[y][x] != g.rows[y][x]
  }

  function CountRow(a: Row, b: Row): nat
    requires |a| == |b|
  {
    if |a| == 0 then 0
    else CountRow(a[..|a| - 1], b[..|b| - 1]) + (if a[|a| - 1] != b[|b| - 1] then 1 else 0)
  }

  function CountRows(a: seq<Row>, b: seq<Row>): nat
    requires |a| == |b| && forall i :: 0 <= i < |a| ==> |a[i]| == |b[i]|
  {
    if |a| == 0 then 0
    else CountRows(a[..|a| - 1], b[..|b| - 1]) + CountRow(a[|a| - 1], b[|b| - 1])
  }

  datatype Difference = Difference(changed: nat, total: nat, bounds: Rect, touchesColour: bool, sizeChanged: bool)

  /** `r` contains every differing pixel and each of its sides touches one. */
  ghost predicate Bounds(f: Image, g: Image, r: Rect)
    requires SameSize(f, g)
  {
    && (forall x, y :: Differs(f, g, x, y) ==> Contains(r, x, y))
    && DiffersInColumn(f, g, r.x0) && DiffersInColumn(f, g, r.x1 - 1)
    && DiffersInLine(f, g, r.y0) && DiffersInLine(f, g, r.y1 - 1)
  }

  ghost predicate DiffersInColumn(f: Image, g: Image, x: int)
    requires SameSize(f, g)
  {
    exists y :: Differs(f, g, x, y)
  }

  ghost predicate DiffersInLine(f: Image, g: Image, y: int)
    requires SameSize(f, g)
  {
    exists x :: Differs(f, g, x, y)
  }

  predicate ColourAt(f: Image, g: Image, x: int, y: int)
    requires SameSize(f, g)
  {
    Differs(f, g, x, y) && (f.rows[y][x] > 1 || g.rows[y][x] > 1)
  }

  /** What comparing a new render `f` with the previous one `g` must report. */
  ghost predicate IsDiff(f: Image, g: Image, d: Difference)
    requires SameSize(f, g)
  {
    && !d.sizeChanged && d.total == f.w * |f.rows|
    && d.changed == CountRows(f.rows, g.rows)
    && (d.touchesColour <==> exists x, y :: ColourAt(f, g, x, y))
    && (if exists x, y :: Differs(f, g, x, y) then d.changed > 0 && Bounds(f, g, d.bounds)
        else d.changed == 0 && d.bounds == Rect(0, 0, 0, 0))
  }

  /** No smaller rectangle holds the change. */
  lemma BoundsAreTightest(f: Image, g: Image, r: Rect, s: Rect)
    requires SameSize(f, g) && Bounds(f, g, r)
    requires forall x, y :: Differs(f, g, x, y) ==> Contains(s, x, y)
    ensures s.x0 <= r.x0 && s.y0 <= r.y0 && r.x1 <= s.x1 && r.y1 <= s.y1
  {
  }

  lemma BoundsInPanel(f: Image, g: Image, r: Rect)
    requires SameSize(f, g) && Bounds(f, g, r)
    ensures 0 <= r.x0 < r.x1 <= f.w && 0 <= r.y0 < r.y1 <= |f.rows|
  {
  }

  /** Every pixel in which the two differ lies in `r`. */
  predicate Covers(f: Image, g: Image, r: Rect)
    requires SameSize(f, g)
  {
    forall y, x :: 0 <= y < |f.rows| && 0 <= x < f.w && f.rows[y][x] != g.rows[y][x] ==> Contains(r, x, y)
  }

  predicate InPanel(f: Image, r: Rect) { 0 <= r.x0 < r.x1 <= f.w && 0 <= r.y0 < r.y1 <= |f.rows| }

  lemma WindowPixel(next: Image, glass: Image, r: Rect, x: int, y: int)
    requires SameSize(next, glass) && InPanel(next, r) && 0 <= x < next.w && 0 <= y < |next.rows|
    ensures Blitted(glass, SubImage(next, r), r.x0, r.y0, x, y) ==
            if Contains(r, x, y) then next.rows[y][x] else glass.rows[y][x]
  {
    assert Clip(next.w, |next.rows|, r) == r;
  }

  /** Copying a window of `next` over the glass yields `next` exactly when they differ
      nowhere outside the window. */
  lemma WindowExact(next: Image, glass: Image, r: Rect)
    requires SameSize(next, glass) && InPanel(next, r)
    ensures Blit(glass, SubImage(next, r), r.x0, r.y0) == next <==> Covers(next, glass, r)
  {
    hide SubImage, Blitted;
    var win := SubImage(next, r);
    var got := Blit(glass, win, r.x0, r.y0);
    forall x, y | 0 <= x < next.w && 0 <= y < |next.rows|
      ensures got.rows[y][x] == if Contains(r, x, y) then next.rows[y][x] else glass.rows[y][x]
    {
      WindowPixel(next, glass, r, x, y);
    }
    hide Blit, Contains;
    if Covers(next, glass, r) {
      assert forall y :: 0 <= y < |next.rows| ==> got.rows[y] == next.rows[y];
      assert got.rows == next.rows;
    }
  }

  lemma BoundsCover(next: Image, prev: Image, d: Difference)
    requires SameSize(next, prev) && IsDiff(next, prev, d) && d.changed > 0
    ensures InPanel(next, d.bounds) && Covers(next, prev, d.bounds)
  {
    BoundsInPanel(next, prev, d.bounds);
    assert forall x, y :: Differs(next, prev, x, y) ==> Contains(d.bounds, x, y);
  }

  lemma NothingChanged(next: Image, prev: Image, d: Difference)
    requires SameSize(next, prev) && IsDiff(next, prev, d) && d.changed == 0
    ensures next == prev
  {
    forall y | 0 <= y < |next.rows|
      ensures next.rows[y] == prev.rows[y]
    {
      forall x | 0 <= x < next.w
        ensures next.rows[y][x] == prev.rows[y][x]
      {
        assert !Differs(next, prev, x, y);
      }
    }
    assert next.rows == prev.rows;
  }

  /** Copying the changed window of `next` over `prev` yields `next`. */
  lemma WindowRestores(next: Image, prev: Image, d: Difference)
    requires SameSize(next, prev) && IsDiff(next, prev, d)
    ensures Blit(prev, SubImage(next, d.bounds), d.bounds.x0, d.bounds.y0) == next
  {
    if d.changed > 0 {
      BoundsCover(next, prev, d);
      WindowExact(next, prev, d.bounds);
    } else {
      NothingChanged(next, prev, d);
      NothingCopied(prev, SubImage(next, d.bounds));
    }
  }

  lemma NothingCopied(f: Image, src: Image)
    requires IsImage(f) && src == Image(0, [])
    ensures Blit(f, src, 0, 0) == f
  {
    forall y | 0 <= y < |f.rows|
      ensures BlitRow(f, src, 0, 0, y) == f.rows[y]
    {
    }
    assert Blit(f, src, 0, 0).rows == f.rows;
  }

  // ----- what goes on the air -----

  /** The waveform decision's thresholds, as fractions of the panel. */
  datatype Thresholds = Thresholds(maxChanged: real, maxWindow: real)

  function Area(r: Rect): int {
    if Empty(r) then 0 else (r.x1 - r.x0) * (r.y1 - r.y0)
  }

  function Fraction(part: int, total: int): real {
    if total == 0 then 0.0 else part as real / total as real
  }

  /** Is the short waveform safe for this change? `hasPrev` says whether an image of
      the label is on file. */
  predicate DecidePartial(supported: bool, requested: bool, hasPrev: bool, d: Difference, th: Thresholds) {
    && supported && requested && hasPrev && !d.sizeChanged
    && d.changed > 0 && !d.touchesColour
    && Fraction(d.changed, d.total) <= th.maxChanged
    && Fraction(Area(d.bounds), d.total) <= th.maxWindow
  }

  /** The pixels in which two renders differ. */
  function Changed(f: Image, g: Image): set<(int, int)>
    requires SameSize(f, g)
  {
    set x, y | 0 <= x < f.w && 0 <= y < |f.rows| && f.rows[y][x] != g.rows[y][x] :: (x, y)
  }

  function ChangedIn(a: Row, b: Row, y: int): set<(int, int)>
    requires |a| == |b|
  {
    set x | 0 <= x < |a| && a[x] != b[x] :: (x, y)
  }

  lemma {:induction false} CountInRow(a: Row, b: Row, y: int)
    requires |a| == |b|
    ensures CountRow(a, b) == |ChangedIn(a, b, y)|
    decreases |a|
  {
    if |a| > 0 {
      var n := |a| - 1;
      CountInRow(a[..n], b[..n], y);
      assert ChangedIn(a, b, y) == ChangedIn(a[..n], b[..n], y) + if a[n] != b[n] then {(n, y)} else {};
    }
  }

  /** The changed pixels but for the last row's, and those. */
  lemma ChangedLast(f: Image, g: Image)
    requires SameSize(f, g) && |f.rows| > 1
    ensures var n := |f.rows| - 1;
            var f', g' := Image(f.w, f.rows[..n]), Image(g.w, g.rows[..n]);
            && SameSize(f', g') && Changed(f, g) == Changed(f', g') + ChangedIn(f.rows[n], g.rows[n], n)
            && Changed(f', g') !! ChangedIn(f.rows[n], g.rows[n], n)
  {
  }

  lemma ChangedOnly(f: Image, g: Image)
    requires SameSize(f, g) && |f.rows| == 1
    ensures Changed(f, g) == ChangedIn(f.rows[0], g.rows[0], 0)
  {
  }

  lemma CountLast(a: seq<Row>, b: seq<Row>)
    requires |a| == |b| && forall i :: 0 <= i < |a| ==> |a[i]| == |b[i]|
    ensures |a| > 0 ==> CountRows(a, b) == CountRows(a[..|a| - 1], b[..|b| - 1]) + CountRow(a[|a| - 1], b[|b| - 1])
    ensures |a| == 0 ==> CountRows(a, b) == 0
  {
  }

  /** The count of changed pixels is how many there are. */
  lemma {:induction false} CountIsNumber(f: Image, g: Image)
    requires SameSize(f, g)
    ensures CountRows(f.rows, g.rows) == |Changed(f, g)|
    decreases |f.rows|
  {
    hide Changed, ChangedIn, CountRows, CountRow;
    CountLast(f.rows, g.rows);
    if |f.rows| > 0 {
      var n := |f.rows| - 1;
      CountInRow(f.rows[n], g.rows[n], n);
      if n > 0 {
        ChangedLast(f, g);
        CountIsNumber(Image(f.w, f.rows[..n]), Image(g.w, g.rows[..n]));
      } else {
        ChangedOnly(f, g);
        CountLast(f.rows[..0], g.rows[..0]);
      }
    } else {
      NothingDiffers(f, g);
    }
  }

  lemma NothingDiffers(f: Image, g: Image)
    requires SameSize(f, g) && |f.rows| == 0
    ensures Changed(f, g) == {}
  {
  }

  /** The short waveform is used exactly if the panel has it, it is asked for, an image of the same
      size is on file, something changed and only between black and white, and neither the changed
      pixels nor the window around them exceed their shares of the panel. */
  lemma PartialExactly(next: Image, prev: Image, d: Difference, supported: bool, requested: bool, th: Thresholds)
    requires SameSize(next, prev) && IsDiff(next, prev, d)
    ensures var changed, total := Changed(next, prev), (next.w * |next.rows|) as real;
            DecidePartial(supported, requested, true, d, th) <==>
            && supported && requested && changed != {}
            && (forall p :: p in changed ==> next.rows[p.1][p.0] <= 1 && prev.rows[p.1][p.0] <= 1)
            && |changed| as real <= th.maxChanged * total
            && ((d.bounds.x1 - d.bounds.x0) * (d.bounds.y1 - d.bounds.y0)) as real <= th.maxWindow * total
    ensures !DecidePartial(supported, requested, false, d, th)
    ensures !DecidePartial(supported, requested, true, d.(sizeChanged := true), th)
  {
    hide IsDiff, Changed, Fraction, Area, SameSize;
    DiffFacts(next, prev, d);
    if Changed(next, prev) != {} {
      ShareOf(d.changed, d.total, th.maxChanged);
      ShareOf(Area(d.bounds), d.total, th.maxWindow);
    }
  }

  /** What a difference report says of the changed pixels. */
  lemma DiffFacts(next: Image, prev: Image, d: Difference)
    requires SameSize(next, prev) && IsDiff(next, prev, d)
    ensures !d.sizeChanged && d.total == next.w * |next.rows| && d.changed == |Changed(next, prev)|
    ensures d.touchesColour <==>
            exists p :: p in Changed(next, prev) && (next.rows[p.1][p.0] > 1 || prev.rows[p.1][p.0] > 1)
    ensures Changed(next, prev) != {} ==>
              d.total > 0 && d.changed > 0
                && Area(d.bounds) == (d.bounds.x1 - d.bounds.x0) * (d.bounds.y1 - d.bounds.y0)
  {
    hide CountRows, Bounds;
    CountIsNumber(next, prev);
    ColoursAre(next, prev);
    if Changed(next, prev) != {} {
      var p :| p in Changed(next, prev);
      assert Differs(next, prev, p.0, p.1);
      BoundsInPanel(next, prev, d.bounds);
      PanelNotEmpty(next.w, |next.rows|);
    }
  }

  lemma PanelNotEmpty(w: int, h: int)
    requires w > 0 && h > 0
    ensures w * h > 0
  {
  }

  lemma ShareOf(part: int, total: int, share: real)
    requires total > 0
    ensures Fraction(part, total) <= share <==> part as real <= share * total as real
  {
    var q, t := part as real / total as real, total as real;
    assert q * t == part as real;
    if q <= share { TimesMonotone(q, share, t); }
    if q > share { TimesMonotone(share, q, t); assert (q - share) * t > 0.0; }
  }

  lemma TimesMonotone(a: real, b: real, t: real)
    requires a <= b && t > 0.0
    ensures a * t <= b * t
  {
  }

  lemma ColoursAre(next: Image, prev: Image)
    requires SameSize(next, prev)
    ensures (exists x, y :: ColourAt(next, prev, x, y)) <==>
            exists p :: p in Changed(next, prev) && (next.rows[p.1][p.0] > 1 || prev.rows[p.1][p.0] > 1)
  {
    if x, y :| ColourAt(next, prev, x, y) { assert (x, y) in Changed(next, prev); }
    if p :| p in Changed(next, prev) && (next.rows[p.1][p.0] > 1 || prev.rows[p.1][p.0] > 1) {
      assert ColourAt(next, prev, p.0, p.1);
    }
  }

  /** The image part of an air frame: where it goes and its compressed pixels. */
  datatype Window = Window(x: int, y: int, bytes: seq<Byte>)

  /** A partial refresh carries only the changed window, a full one the panel. */
  function BuildWindow(next: Image, d: Difference, partial: bool): Window
    requires IsImage(next)
  {
    if partial then Window(d.bounds.x0, d.bounds.y0, Encode(SubImage(next, d.bounds)))
    else Window(0, 0, Encode(next))
  }

  /** What the label draws: an image that does not decode leaves the glass alone. */
  function Draw(glass: Image, win: Window): Image
    requires IsImage(glass)
  {
    match Decode(win.bytes)
    case Done(src, _) => if IsImage(src) then Blit(glass, src, win.x, win.y) else glass
    case _ => glass
  }

  lemma BlitWhole(glass: Image, next: Image)
    requires SameSize(glass, next)
    ensures Blit(glass, next, 0, 0) == next
  {
    forall y | 0 <= y < |next.rows|
      ensures BlitRow(glass, next, 0, 0, y) == next.rows[y]
    {
    }
    assert Blit(glass, next, 0, 0).rows == next.rows;
  }

  /** What comparing a render with the image on file, if any, reports. */
  ghost predicate Reports(next: Image, onFile: Option<Image>, d: Difference) {
    if onFile.Some? && SameSize(next, onFile.value) then IsDiff(next, onFile.value, d) else d.sizeChanged
  }

  /** Whichever waveform the decision picks, the label ends up showing the new render
      exactly when, for a partial refresh, the glass differs from it only inside the
      window; in particular whenever the image the controller has on file is what the
      glass shows. */
  lemma GlassShowsNext(glass: Image, next: Image, onFile: Option<Image>, d: Difference,
                       supported: bool, requested: bool, th: Thresholds)
    requires SameSize(next, glass) && Encodable(next) && Reports(next, onFile, d)
    ensures var partial := DecidePartial(supported, requested, onFile.Some?, d, th);
            && (Draw(glass, BuildWindow(next, d, partial)) == next <==> (partial ==> Covers(next, glass, d.bounds)))
            && (onFile == Some(glass) ==> Draw(glass, BuildWindow(next, d, partial)) == next)
  {
    hide Decode, Encode, Blit, SubImage, Bounds, Fraction, Area, Covers, InPanel;
    var partial := DecidePartial(supported, requested, onFile.Some?, d, th);
    var win := if partial then SubImage(next, d.bounds) else next;
    assert Encodable(win) by { SubImageFits(next, d.bounds); }
    ImageRoundTrip(win, []);
    NothingAdded(Encode(win));
    if partial {
      BoundsCover(next, onFile.value, d);
      WindowExact(next, glass, d.bounds);
    } else {
      BlitWhole(glass, next);
    }
  }

  /** A row of eight pixels, black where `k` says. */
  function Pixels(k: set<int>): Image {
    Image(8, [seq(8, i requires 0 <= i < 8 => if i in k then 1 else 0)])
  }

  /** With a stale image on file a partial refresh can leave the glass wrong: the glass
      has gained pixel 0 unnoticed, the render gains pixel 7, and pixel 0 stays. */
  lemma StaleFileMisleads(d: Difference)
    requires Reports(Pixels({7}), Some(Pixels({})), d)
    ensures var th := Thresholds(0.25, 0.5);
            && DecidePartial(true, true, true, d, th)
            && Draw(Pixels({0}), BuildWindow(Pixels({7}), d, true)) != Pixels({7})
  {
    var glass, next, prev := Pixels({0}), Pixels({7}), Pixels({});
    assert Differs(next, prev, 7, 0);
    assert forall x, y :: Differs(next, prev, x, y) ==> x == 7 && y == 0;
    assert d.bounds == Rect(7, 0, 8, 1);
    OneOfEight(next.rows[0], prev.rows[0]);
    assert next.rows[..0] == [] && prev.rows[..0] == [];
    assert d.changed == 1 && d.total == 8;
    assert DecidePartial(true, true, true, d, Thresholds(0.25, 0.5));
    assert next.rows[0][0] != glass.rows[0][0] && !Covers(next, glass, d.bounds);
    GlassShowsNext(glass, next, Some(prev), d, true, true, Thresholds(0.25, 0.5));
  }

  lemma OneOfEight(a: Row, b: Row)
    requires |a| == |b| == 8 && (forall i :: 0 <= i < 7 ==> a[i] == b[i]) && a[7] != b[7]
    ensures CountRow(a, b) == 1
  {
    EqualRows(a[..7], b[..7]);
  }

  lemma {:induction false} EqualRows(a: Row, b: Row)
    requires a == b
    ensures CountRow(a, b) == 0
    decreases |a|
  {
    if |a| > 0 { EqualRows(a[..|a| - 1], b[..|b| - 1]); }
  }

  lemma SubImageFits(f: Image, r: Rect)
    requires Encodable(f)
    ensures Encodable(SubImage(f, r))
  {
  }
}
