/** The framebuffer the controller renders into: one flat pixel buffer, updated in
    place, whose operations are those of ImageCodec on the image it holds. */
module Framebuffer {
  import opened Common
  import opened Bytes
  import opened ImageCodec

  // ----- index arithmetic -----

  lemma RowRange(w: nat, h: nat, y: int)
    requires 0 <= y < h
    ensures 0 <= y * w && y * w + w == (y + 1) * w <= h * w
  {
    assert (y + 1) * w <= h * w;
  }

  lemma RowsApart(w: nat, a: int, b: int)
    requires a < b
    ensures a * w + w <= b * w
  {
    assert (a + 1) * w <= b * w;
  }

  function RowOf(pix: seq<Ink>, w: nat, h: nat, y: int): (row: Row)
    requires |pix| == h * w && 0 <= y < h
    ensures |row| == w
  {
    RowRange(w, h, y);
    pix[y * w..y * w + w]
  }

  /** The image of a flat buffer. */
  function RowsOf(pix: seq<Ink>, w: nat, h: nat): (rows: seq<Row>)
    requires |pix| == h * w
    ensures |rows| == h && forall y :: 0 <= y < h ==> |rows[y]| == w
  {
    seq(h, y requires 0 <= y < h && |pix| == h * w => RowOf(pix, w, h, y))
  }

  lemma PixelAt(pix: seq<Ink>, w: nat, h: nat, x: int, y: int)
    requires |pix| == h * w && 0 <= x < w && 0 <= y < h
    ensures 0 <= y * w + x < |pix| && RowsOf(pix, w, h)[y][x] == pix[y * w + x]
  {
    RowRange(w, h, y);
  }

  /** Writing one pixel changes that pixel of the image and no other. */
  lemma SetPixel(pix: seq<Ink>, w: nat, h: nat, x: int, y: int, ink: Ink)
    requires |pix| == h * w && 0 <= x < w && 0 <= y < h
    ensures 0 <= y * w + x < |pix|
    ensures var rows := RowsOf(pix, w, h);
            RowsOf(pix[y * w + x := ink], w, h) == rows[y := rows[y][x := ink]]
  {
    PixelAt(pix, w, h, x, y);
    var p := pix[y * w + x := ink];
    var rows := RowsOf(pix, w, h);
    forall b | 0 <= b < h
      ensures RowsOf(p, w, h)[b] == rows[y := rows[y][x := ink]][b]
    {
      RowRange(w, h, b);
      if b < y { RowsApart(w, b, y); } else if y < b { RowsApart(w, y, b); }
    }
  }

  class Framebuffer {
    const w: nat
    const h: nat
    const pix: array<Ink>

    ghost predicate Valid()
      reads this
    {
      pix.Length == h * w && (w == 0 <==> h == 0)
    }

    ghost function View(): (f: Image)
      requires Valid()
      reads this, pix
      ensures IsImage(f)
    {
      Image(w, RowsOf(pix[..], w, h))
    }

    /** A white panel; an impossible size gives the empty one. */
    constructor (width: int, height: int)
      ensures Valid() && fresh(pix)
      ensures View() == if width <= 0 || height <= 0 then Image(0, []) else Blank(width, height)
    {
      var ww: nat := if width <= 0 || height <= 0 then 0 else width;
      var hh: nat := if width <= 0 || height <= 0 then 0 else height;
      w, h := ww, hh;
      pix := new Ink[hh * ww](_ => 0);
      new;
      assert forall y :: 0 <= y < h ==> RowsOf(pix[..], w, h)[y] == Solid(0, w) by {
        forall y | 0 <= y < h
          ensures RowsOf(pix[..], w, h)[y] == Solid(0, w)
        {
          RowRange(w, h, y);
        }
      }
    }

    /** Writes one pixel; coordinates off the panel are ignored. */
    method Set(x: int, y: int, ink: Ink)
      requires Valid()
      modifies pix
      ensures View().rows == if 0 <= x < w && 0 <= y < h
                             then old(View()).rows[y := old(View()).rows[y][x := ink]]
                             else old(View()).rows
    {
      if x < 0 || y < 0 || x >= w || y >= h { return; }
      ghost var before := pix[..];
      SetPixel(before, w, h, x, y, ink);
      pix[y * w + x] := ink;
      assert pix[..] == before[y * w + x := ink];
    }

    /** Copies `src` in with its corner at (dx, dy). */
    method Blit(src: Framebuffer, dx: int, dy: int)
      requires Valid() && src.Valid() && src.pix != pix
      modifies pix
      ensures View() == ImageCodec.Blit(old(View()), src.View(), dx, dy)
    {
      hide RowsOf, BlitSome, ImageCodec.Blit;
      ghost var f, s := View(), src.View();
      BlitNone(f, s, dx, dy);
      for sy := 0 to src.h
        invariant View().rows == BlitSome(f, s, dx, dy, sy, 0)
      {
        for sx := 0 to src.w
          invariant View().rows == BlitSome(f, s, dx, dy, sy, sx)
        {
          PixelAt(src.pix[..], src.w, src.h, sx, sy);
          Set(dx + sx, dy + sy, src.pix[sy * src.w + sx]);
          BlitOneMore(f, s, dx, dy, sy, sx);
        }
        BlitNextRow(f, s, dx, dy, sy);
      }
      BlitAll(f, s, dx, dy);
    }

    /** copy() into the pixel buffer, from a flat offset on. */
    method CopyAt(lo: nat, row: Row)
      requires Valid() && |row| == w && lo + w <= pix.Length
      modifies pix
      ensures View().rows == Overlay(old(View()).rows, w, lo, row)
    {
      ghost var before := pix[..];
      for x := 0 to w
        invariant forall k :: 0 <= k < pix.Length ==> pix[k] == if lo <= k < lo + x then row[k - lo] else before[k]
      {
        pix[lo + x] := row[x];
      }
      OverlayOf(before, pix[..], w, h, lo, row);
    }

    /** Overwrites one row. */
    method CopyRow(at: nat, row: Row)
      requires Valid() && at < h && |row| == w
      modifies pix
      ensures View().rows == old(View()).rows[at := row]
    {
      hide RowsOf, Overlay;
      RowRange(w, h, at);
      OverlayIsUpdate(View().rows, w, row, at);
      CopyAt(at * w, row);
    }

    /** A copy of the part of the panel inside `r`. */
    method SubImage(r: Rect) returns (out: Framebuffer)
      requires Valid()
      ensures fresh(out) && fresh(out.pix) && out.Valid() && out.View() == ImageCodec.SubImage(View(), r)
    {
      hide RowsOf;
      ghost var f := View();
      var c := Clip(w, h, r);
      if Empty(c) {
        out := new Framebuffer(0, 0);
        return;
      }
      out := new Framebuffer(c.x1 - c.x0, c.y1 - c.y0);
      for y := c.y0 to c.y1
        invariant out.Valid() && out.w == c.x1 - c.x0 && out.h == c.y1 - c.y0 && fresh(out.pix)
        invariant forall k :: 0 <= k < y - c.y0 ==> out.View().rows[k] == f.rows[c.y0 + k][c.x0..c.x1]
      {
        var row := RowOf(pix[..], w, h, y);
        assert row == f.rows[y] by { RowsOfAt(pix[..], w, h, y); }
        out.CopyRow(y - c.y0, row[c.x0..c.x1]);
      }
      assert out.View().rows == ImageCodec.SubImage(f, r).rows;
    }

    /** Compresses the panel: equal rows grouped, runs packed. */
    method EncodeRLE() returns (out: seq<Byte>)
      requires Valid()
      ensures out == Encode(View())
    {
      hide RowsOf, RowRepeats, PutUvarint, EncodeRow, EncodeRows, BigEndian, Encode, Completes;
      ghost var f := View();
      out := MAGIC + BigEndian(w, 2) + BigEndian(h, 2);
      EncodeIs(f);
      if w == 0 || h == 0 { return; }
      CompletesFirst(out, f.rows);
      ghost var all := out + EncodeRows(f.rows);
      var y := 0;
      while y < h
        invariant 0 <= y <= h && Completes(out, f.rows, y, all)
      {
        var row := RowOf(pix[..], w, h, y);
        RowsOfAt(pix[..], w, h, y);
        var reps := CountRepeats(y, f);
        var line := EncodeLine(row);
        EncodeGroup(f.rows, y, out, all);
        out := out + (PutUvarint(reps) + line);
        y := y + reps;
      }
      CompletesLast(out, f.rows, all);
    }

    /** Compares this render with the previous one. */
    method Diff(prev: Framebuffer?) returns (d: Difference)
      requires Valid() && (prev != null ==> prev.Valid())
      ensures prev == null || prev.w != w || prev.h != h ==>
                d == Difference(w * h, w * h, Rect(0, 0, w, h), true, true)
      ensures prev != null && prev.w == w && prev.h == h ==> IsDiff(View(), prev.View(), d)
    {
      hide RowsOf, SoFar, ColourSoFar, CountRow, CountRows;
      if prev == null || prev.w != w || prev.h != h {
        return Difference(w * h, w * h, Rect(0, 0, w, h), true, true);
      }
      ghost var f, g := View(), prev.View();
      var changed, colour, b := 0, false, Rect(w, h, 0, 0);
      NothingSeen(f, g);
      for y := 0 to h
        invariant changed == CountRows(f.rows[..y], g.rows[..y])
        invariant SoFar(f, g, y, 0, b, changed > 0) && ColourSoFar(f, g, y, 0, colour)
      {
        ghost var above := changed;
        NoPixels(f.rows[y], g.rows[y]);
        for x := 0 to w
          invariant changed == above + CountRow(f.rows[y][..x], g.rows[y][..x])
          invariant SoFar(f, g, y, x, b, changed > 0) && ColourSoFar(f, g, y, x, colour)
        {
          PixelAt(pix[..], w, h, x, y);
          PixelAt(prev.pix[..], w, h, x, y);
          var p, q := pix[y * w + x], prev.pix[y * w + x];
          SeePixel(f, g, y, x, b, changed > 0, colour);
          CountPixel(f.rows[y], g.rows[y], x);
          if p != q {
            changed := changed + 1;
            if p > 1 || q > 1 { colour := true; }
            b := Rect(if x < b.x0 then x else b.x0, if y < b.y0 then y else b.y0,
                      if x >= b.x1 then x + 1 else b.x1, if y >= b.y1 then y + 1 else b.y1);
          }
        }
        NextRow(f, g, y, b, changed > 0, colour);
        CountWholeRow(f, g, y);
      }
      d := Difference(changed, w * h, if changed > 0 then b else Rect(0, 0, 0, 0), colour, false);
      SeenAll(f, g, d, b);
    }

    method CountRepeats(y: nat, ghost f: Image) returns (reps: nat)
      requires Valid() && y < h && f == View()
      ensures 1 <= reps <= h - y && reps == RowRepeats(f.rows[y..])
    {
      hide RowsOf, RowRepeats;
      var first := RowOf(pix[..], w, h, y);
      RowsOfAt(pix[..], w, h, y);
      reps := 1;
      while y + reps < h
        invariant 1 <= reps <= h - y
        invariant forall i :: y <= i < y + reps ==> f.rows[i] == f.rows[y]
      {
        RowsOfAt(pix[..], w, h, y + reps);
        if RowOf(pix[..], w, h, y + reps) != first { break; }
        reps := reps + 1;
      }
      RepeatsUnique(f.rows[y..], reps);
    }
  }

  /** Overlaying a row on the flat buffer is overlaying it on the image. */
  lemma OverlayOf(before: seq<Ink>, after: seq<Ink>, w: nat, h: nat, lo: nat, row: Row)
    requires |before| == |after| == h * w && |row| == w
    requires forall k :: 0 <= k < |before| ==> after[k] == if lo <= k < lo + w then row[k - lo] else before[k]
    ensures RowsOf(after, w, h) == Overlay(RowsOf(before, w, h), w, lo, row)
  {
    var rows := RowsOf(before, w, h);
    forall y | 0 <= y < h
      ensures RowsOf(after, w, h)[y] == OverlayRow(rows, w, lo, row, y)
    {
      forall x | 0 <= x < w
        ensures RowsOf(after, w, h)[y][x] == OverlayRow(rows, w, lo, row, y)[x]
      {
        PixelAt(before, w, h, x, y);
        PixelAt(after, w, h, x, y);
      }
    }
  }

  lemma RowsOfAt(pix: seq<Ink>, w: nat, h: nat, y: int)
    requires |pix| == h * w && 0 <= y < h
    ensures RowsOf(pix, w, h)[y] == RowOf(pix, w, h, y)
  {
  }

  lemma EncodeIs(f: Image)
    ensures Encode(f) ==
            if f.w == 0 || |f.rows| == 0 then MAGIC + BigEndian(f.w, 2) + BigEndian(|f.rows|, 2)
            else MAGIC + BigEndian(f.w, 2) + BigEndian(|f.rows|, 2) + EncodeRows(f.rows)
  {
    hide EncodeRows, BigEndian;
    NothingAdded(Header(f));
  }

  /** What is out and the rows from `y` on make up the whole. */
  predicate Completes(out: seq<Byte>, rows: seq<Row>, y: nat, all: seq<Byte>) {
    y <= |rows| && out + EncodeRows(rows[y..]) == all
  }

  lemma CompletesFirst(out: seq<Byte>, rows: seq<Row>)
    ensures Completes(out, rows, 0, out + EncodeRows(rows))
  {
    hide EncodeRows;
    assert rows[0..] == rows;
  }

  lemma CompletesLast(out: seq<Byte>, rows: seq<Row>, all: seq<Byte>)
    requires Completes(out, rows, |rows|, all)
    ensures out == all
  {
    NothingAdded(out);
  }

  /** Appending one group of equal rows moves the encoder past it. */
  lemma EncodeGroup(rows: seq<Row>, y: nat, out: seq<Byte>, total: seq<Byte>)
    requires y < |rows| && Completes(out, rows, y, total)
    ensures var reps := RowRepeats(rows[y..]);
            Completes(out + (PutUvarint(reps) + EncodeRow(rows[y])), rows, y + reps, total)
  {
    hide RowRepeats, PutUvarint, EncodeRow, EncodeRows;
    EncodeRowsSplit(rows, y, []);
    var reps := RowRepeats(rows[y..]);
    var a, b, c := PutUvarint(reps), EncodeRow(rows[y]), EncodeRows(rows[y + reps..]);
    NothingAdded(EncodeRows(rows[y..]));
    NothingAdded(c);
    Associative(a, b, c);
    Associative(out, a + b, c);
  }

  lemma RepeatsUnique(rows: seq<Row>, n: nat)
    requires 1 <= n <= |rows|
    requires forall i :: 0 <= i < n ==> rows[i] == rows[0]
    requires n < |rows| ==> rows[n] != rows[0]
    ensures n == RowRepeats(rows)
  {
  }

  lemma RunUnique(row: Row, n: nat)
    requires 1 <= n <= |row|
    requires forall i :: 0 <= i < n ==> row[i] == row[0]
    requires n < |row| ==> row[n] != row[0]
    ensures n == RunLength(row)
  {
    var m := RunLength(row);
    assert forall i :: 0 <= i < m ==> row[i] == row[..m][i];
  }

  /** Appending one run moves the encoder past it. */
  lemma EncodeOneRun(row: Row, x: nat, out: seq<Byte>, total: seq<Byte>)
    requires x < |row| && out + EncodeRow(row[x..]) == total
    ensures var n := RunLength(row[x..]);
            x + n <= |row| && out + EncodeRun(row[x], n) + EncodeRow(row[x + n..]) == total
  {
    hide *;
    EncodeRowSplit(row[x..], []);
    var n := RunLength(row[x..]);
    assert row[x..][n..] == row[x + n..];
    var a, b := EncodeRun(row[x], n), EncodeRow(row[x + n..]);
    NothingAdded(EncodeRow(row[x..]));
    NothingAdded(b);
    Associative(out, a, b);
  }

  /** One row as packed runs. */
  method EncodeLine(row: Row) returns (out: seq<Byte>)
    ensures out == EncodeRow(row)
  {
    hide RunLength, EncodeRun, EncodeRow;
    out := [];
    var x := 0;
    assert row[0..] == row;
    while x < |row|
      invariant 0 <= x <= |row|
      invariant out + EncodeRow(row[x..]) == EncodeRow(row)
    {
      var n := 1;
      while x + n < |row| && row[x + n] == row[x]
        invariant 1 <= n <= |row| - x
        invariant forall i :: x <= i < x + n ==> row[i] == row[x]
      {
        n := n + 1;
      }
      RunUnique(row[x..], n);
      EncodeOneRun(row, x, out, EncodeRow(row));
      out := out + EncodeRun(row[x], n);
      x := x + n;
    }
    assert row[|row|..] == [];
    EmptyRow([]);
  }

  // ----- decoding -----

  method FillRun(row: array<Ink>, x: nat, ink: Ink, n: nat)
    requires x + n <= row.Length
    modifies row
    ensures row[..x + n] == old(row[..x]) + Solid(ink, n)
  {
    for j := 0 to n
      invariant row[..x] == old(row[..x])
      invariant forall k :: x <= k < x + j ==> row[k] == ink
    {
      row[x + j] := ink;
    }
    assert row[..x + n] == row[..x] + row[x..x + n];
  }

  /** Reads runs until a row of width `w` is full. `i` advances past them. */
  method DecodeLine(b: seq<Byte>, from: nat, row: array<Ink>) returns (status: Parse<Row>, i: nat)
    requires from <= |b|
    modifies row
    ensures i <= |b|
    ensures status == DecodeRow(b[from..], [], row.Length)
    ensures status.Done? ==> status.value == row[..] && status.rest == b[i..] && from <= i
  {
    hide DecodeRow, DecodeRun, ToInt64, Solid;
    var w := row.Length;
    i := from;
    var x := 0;
    assert row[..0] == [];
    while x < w
      invariant 0 <= x <= w && from <= i <= |b|
      invariant DecodeRow(b[from..], [], w) == DecodeRow(b[i..], row[..x], w)
      decreases |b| - i
    {
      var run := DecodeRun(b[i..]);
      UnfoldDecodeRow(b[i..], row[..x], w);
      if run.BadRun? { return Malformed, i; }
      if run.n <= 0 || ToInt64(x + run.n) > w { return Malformed, i; }
      if x + run.n > w { return Fault, i; }
      FillRun(row, x, run.ink, run.n);
      assert b[i..][run.used..] == b[i + run.used..];
      i := i + run.used;
      x := x + run.n;
    }
    assert row[..w] == row[..];
    FullRow(b[i..], row[..w]);
    status := Done(row[..], b[i..]);
  }

  lemma UnfoldDecodeRow(b: seq<Byte>, done: Row, w: nat)
    requires |done| < w
    ensures DecodeRow(b, done, w) ==
            match DecodeRun(b)
            case BadRun => Malformed
            case Run(ink, n, used) =>
              if n <= 0 || ToInt64(|done| + n) > w then Malformed
              else if |done| + n > w then Fault
              else DecodeRow(b[used..], done + Solid(ink, n), w)
  {
  }

  lemma UnfoldDecodeRows(b: seq<Byte>, y: int, rows: seq<Row>, w: nat)
    requires y < |rows| && Wide(rows, w)
    ensures DecodeRows(b, y, rows, w) ==
            match ReadUvarint(b, 0)
            case Bad => Malformed
            case Value(count, used) =>
              if count == 0 then Malformed
              else
                match DecodeRow(b[used..], [], w)
                case Malformed => Malformed
                case Fault => Fault
                case Done(row, rest) =>
                  var reps := ToInt64(count);
                  if ToInt64(y + reps) > |rows| then Malformed
                  else
                    match CopyRows(rows, y, w, row, reps)
                    case None => Fault
                    case Some(copied) => DecodeRows(rest, ToInt64(y + reps), copied, w)
  {
  }

  /** What a decode attempt came to; the framebuffer is meaningful when it is Done. */
  datatype Outcome = Decoded(fb: Framebuffer) | Refused | Crashed

  ghost predicate Agrees(spec: Parse<Image>, got: Outcome)
    reads if got.Decoded? then {got.fb, got.fb.pix} else {}
  {
    match spec
    case Malformed => got.Refused?
    case Fault => got.Crashed?
    case Done(f, _) => got.Decoded? && got.fb.Valid() && got.fb.View() == f
  }

  /** A slice that passes the bounds check is one row long. */
  lemma SliceIsRow(y: int, w: nat, h: nat)
    requires InBuffer(y, w, h) && w < 65536 && h < 65536
    ensures ToInt64((y + 1) * w) == ToInt64(y * w) + w <= w * h == h * w
  {
    BufferSize(w, h);
    assert (y + 1) * w == y * w + w;
    OffsetBy(y * w, w);
  }

  lemma OffsetBy(a: int, w: nat)
    requires w < 65536 && 0 <= ToInt64(a) <= ToInt64(a + w) < 0x1_0000_0000
    ensures ToInt64(a + w) == ToInt64(a) + w
  {
  }

  /** Copies `row` over `reps` slices of the panel from that of row `y` on; false if one
      of them is out of range. */
  method CopyRepeated(fb: Framebuffer, y: int, row: Row, reps: int) returns (ok: bool)
    requires fb.Valid() && |row| == fb.w < 65536 && fb.h < 65536
    modifies fb.pix
    ensures var spec := CopyRows(old(fb.View()).rows, y, fb.w, row, reps);
            if ok then spec == Some(fb.View().rows) else spec == None
  {
    hide RowsOf, ToInt64, InBuffer, Overlay;
    ghost var spec := CopyRows(fb.View().rows, y, fb.w, row, reps);
    var r := 0;
    while r < reps
      invariant 0 <= r && (r <= reps || r == 0)
      invariant spec == CopyRows(fb.View().rows, y + r, fb.w, row, reps - r)
      decreases reps - r
    {
      if !InBuffer(y + r, fb.w, fb.h) { return false; }
      SliceIsRow(y + r, fb.w, fb.h);
      SliceStarts(y + r, fb.w, fb.h);
      fb.CopyAt(ToInt64((y + r) * fb.w), row);
      r := r + 1;
    }
    return true;
  }

  lemma SliceStarts(y: int, w: nat, h: nat)
    requires InBuffer(y, w, h)
    ensures 0 <= ToInt64(y * w)
  {
  }

  /** Reconstructs a framebuffer from its wire form. */
  method DecodeRLE(b: seq<Byte>) returns (got: Outcome)
    ensures Agrees(Decode(b), got)
  {
    hide RowsOf, DecodeRows, DecodeRow, ReadUvarint, ToInt64, CopyRows, FromBigEndian;
    if |b| < 8 || b[..4] != MAGIC { return Refused; }
    var w, h := FromBigEndian(b[4..6]), FromBigEndian(b[6..8]);
    TwoBytes(b[4..6]);
    TwoBytes(b[6..8]);
    var fb := new Framebuffer(w, h);
    if w == 0 || h == 0 { return Decoded(fb); }
    var i := 8;
    var y := 0;
    var row := new Ink[w];
    ghost var spec := DecodeRows(b[8..], 0, Blank(w, h).rows, w);
    while y < h
      invariant fresh(fb) && fresh(fb.pix) && fresh(row) && fb.Valid() && fb.w == w && fb.h == h
      invariant row.Length == w && i <= |b|
      invariant spec == DecodeRows(b[i..], y, fb.View().rows, w)
      decreases |b| - i
    {
      UnfoldDecodeRows(b[i..], y, fb.View().rows, w);
      var count := ReadUvarint(b[i..], 0);
      if count.Bad? || count.v == 0 { return Refused; }
      assert b[i..][count.used..] == b[i + count.used..];
      var line, next := DecodeLine(b, i + count.used, row);
      if line.Malformed? { return Refused; }
      if line.Fault? { return Crashed; }
      i := next;
      var reps := ToInt64(count.v);
      if ToInt64(y + reps) > h { return Refused; }
      var copied := CopyRepeated(fb, y, row[..], reps);
      if !copied { return Crashed; }
      y := ToInt64(y + reps);
    }
    AllRowsRead(b[i..], y, fb.View().rows, w);
    return Decoded(fb);
  }

  lemma AllRowsRead(b: seq<Byte>, y: int, rows: seq<Row>, w: nat)
    requires y >= |rows| && Wide(rows, w)
    ensures DecodeRows(b, y, rows, w) == Done(rows, b)
  {
  }

  /** Has source pixel (sx, sy) been reached once `rows` rows and `cols` pixels are in? */
  predicate Reached(sx: int, sy: int, rows: nat, cols: nat) {
    sy < rows || (sy == rows && sx < cols)
  }

  function PixelSoFar(f: Image, s: Image, dx: int, dy: int, sy: nat, sx: nat, x: int, y: int): Ink
    requires IsImage(f) && IsImage(s) && 0 <= x < f.w && 0 <= y < |f.rows|
  {
    if 0 <= x - dx < s.w && 0 <= y - dy < |s.rows| && Reached(x - dx, y - dy, sy, sx)
    then s.rows[y - dy][x - dx] else f.rows[y][x]
  }

  function RowSoFar(f: Image, s: Image, dx: int, dy: int, sy: nat, sx: nat, y: int): (r: Row)
    requires IsImage(f) && IsImage(s) && 0 <= y < |f.rows|
    ensures |r| == f.w
  {
    seq(f.w, x requires 0 <= x < f.w => PixelSoFar(f, s, dx, dy, sy, sx, x, y))
  }

  /** The rows once the source's first `sy` rows and `sx` pixels of the next are in. */
  ghost function BlitSome(f: Image, s: Image, dx: int, dy: int, sy: nat, sx: nat): (rows: seq<Row>)
    requires IsImage(f) && IsImage(s)
    ensures |rows| == |f.rows| && forall y :: 0 <= y < |rows| ==> |rows[y]| == f.w
  {
    seq(|f.rows|, y requires 0 <= y < |f.rows| => RowSoFar(f, s, dx, dy, sy, sx, y))
  }

  lemma BlitNone(f: Image, s: Image, dx: int, dy: int)
    requires IsImage(f) && IsImage(s)
    ensures BlitSome(f, s, dx, dy, 0, 0) == f.rows
  {
    forall y | 0 <= y < |f.rows|
      ensures RowSoFar(f, s, dx, dy, 0, 0, y) == f.rows[y]
    {
    }
  }

  lemma BlitOneMore(f: Image, s: Image, dx: int, dy: int, sy: nat, sx: nat)
    requires IsImage(f) && IsImage(s) && sy < |s.rows| && sx < s.w
    ensures var a := BlitSome(f, s, dx, dy, sy, sx);
            var x, y := dx + sx, dy + sy;
            BlitSome(f, s, dx, dy, sy, sx + 1)
            == if 0 <= x < f.w && 0 <= y < |f.rows| then a[y := a[y][x := s.rows[sy][sx]]] else a
  {
    var x, y := dx + sx, dy + sy;
    forall r | 0 <= r < |f.rows|
      ensures RowSoFar(f, s, dx, dy, sy, sx + 1, r)
              == if r == y && 0 <= x < f.w then RowSoFar(f, s, dx, dy, sy, sx, r)[x := s.rows[sy][sx]]
                 else RowSoFar(f, s, dx, dy, sy, sx, r)
    {
      forall c | 0 <= c < f.w
        ensures PixelSoFar(f, s, dx, dy, sy, sx + 1, c, r)
                == if r == y && c == x then s.rows[sy][sx] else PixelSoFar(f, s, dx, dy, sy, sx, c, r)
      {
      }
    }
  }

  lemma BlitNextRow(f: Image, s: Image, dx: int, dy: int, sy: nat)
    requires IsImage(f) && IsImage(s) && sy < |s.rows|
    ensures BlitSome(f, s, dx, dy, sy, s.w) == BlitSome(f, s, dx, dy, sy + 1, 0)
  {
    forall r | 0 <= r < |f.rows|
      ensures RowSoFar(f, s, dx, dy, sy, s.w, r) == RowSoFar(f, s, dx, dy, sy + 1, 0, r)
    {
    }
  }

  lemma BlitAll(f: Image, s: Image, dx: int, dy: int)
    requires IsImage(f) && IsImage(s)
    ensures Image(f.w, BlitSome(f, s, dx, dy, |s.rows|, 0)) == ImageCodec.Blit(f, s, dx, dy)
  {
    forall r | 0 <= r < |f.rows|
      ensures RowSoFar(f, s, dx, dy, |s.rows|, 0, r) == BlitRow(f, s, dx, dy, r)
    {
    }
  }

  // ----- differences -----

  predicate SeenDiffers(f: Image, g: Image, sy: nat, sx: nat, x: int, y: int)
    requires SameSize(f, g)
  {
    Differs(f, g, x, y) && Reached(x, y, sy, sx)
  }

  /** `b` bounds the differences seen so far, if any. */
  ghost predicate SoFar(f: Image, g: Image, sy: nat, sx: nat, b: Rect, any: bool)
    requires SameSize(f, g)
  {
    if any then
      && (forall x, y :: SeenDiffers(f, g, sy, sx, x, y) ==> Contains(b, x, y))
      && SeenInColumn(f, g, sy, sx, b.x0) && SeenInColumn(f, g, sy, sx, b.x1 - 1)
      && SeenInLine(f, g, sy, sx, b.y0) && SeenInLine(f, g, sy, sx, b.y1 - 1)
    else
      && b == Rect(f.w, |f.rows|, 0, 0)
      && NoneSeen(f, g, sy, sx)
  }

  ghost predicate NoneSeen(f: Image, g: Image, sy: nat, sx: nat)
    requires SameSize(f, g)
  {
    forall x, y :: !SeenDiffers(f, g, sy, sx, x, y)
  }

  ghost predicate SeenInColumn(f: Image, g: Image, sy: nat, sx: nat, x: int)
    requires SameSize(f, g)
  {
    exists y :: SeenDiffers(f, g, sy, sx, x, y)
  }

  ghost predicate SeenInLine(f: Image, g: Image, sy: nat, sx: nat, y: int)
    requires SameSize(f, g)
  {
    exists x :: SeenDiffers(f, g, sy, sx, x, y)
  }

  ghost predicate ColourSoFar(f: Image, g: Image, sy: nat, sx: nat, colour: bool)
    requires SameSize(f, g)
  {
    colour <==> exists x, y :: ColourAt(f, g, x, y) && Reached(x, y, sy, sx)
  }

  lemma NothingSeen(f: Image, g: Image)
    requires SameSize(f, g)
    ensures SoFar(f, g, 0, 0, Rect(f.w, |f.rows|, 0, 0), false) && ColourSoFar(f, g, 0, 0, false)
    ensures CountRows(f.rows[..0], g.rows[..0]) == 0
  {
  }

  /** Everything seen at one point of the scan is still seen at a later one. */
  lemma StillSeen(f: Image, g: Image, sy: nat, sx: nat, sy': nat, sx': nat)
    requires SameSize(f, g) && (sy < sy' || (sy == sy' && sx <= sx'))
    ensures forall x :: SeenInColumn(f, g, sy, sx, x) ==> SeenInColumn(f, g, sy', sx', x)
    ensures forall y :: SeenInLine(f, g, sy, sx, y) ==> SeenInLine(f, g, sy', sx', y)
  {
    assert forall x, y :: SeenDiffers(f, g, sy, sx, x, y) ==> SeenDiffers(f, g, sy', sx', x, y);
  }

  lemma StillNone(f: Image, g: Image, sy: nat, sx: nat, sy': nat, sx': nat)
    requires SameSize(f, g) && NoneSeen(f, g, sy, sx)
    requires forall x, y :: SeenDiffers(f, g, sy', sx', x, y) ==> SeenDiffers(f, g, sy, sx, x, y)
    ensures NoneSeen(f, g, sy', sx')
  {
  }

  lemma SeePixel(f: Image, g: Image, y: nat, x: nat, b: Rect, any: bool, colour: bool)
    requires SameSize(f, g) && y < |f.rows| && x < f.w
    requires SoFar(f, g, y, x, b, any) && ColourSoFar(f, g, y, x, colour)
    ensures !Differs(f, g, x, y) ==> SoFar(f, g, y, x + 1, b, any) && ColourSoFar(f, g, y, x + 1, colour)
    ensures Differs(f, g, x, y) ==>
              && SoFar(f, g, y, x + 1, Rect(if x < b.x0 then x else b.x0, if y < b.y0 then y else b.y0,
                                            if x >= b.x1 then x + 1 else b.x1, if y >= b.y1 then y + 1 else b.y1), true)
              && ColourSoFar(f, g, y, x + 1, colour || f.rows[y][x] > 1 || g.rows[y][x] > 1)
  {
    StillSeen(f, g, y, x, y, x + 1);
    assert forall u, v :: SeenDiffers(f, g, y, x + 1, u, v) ==> SeenDiffers(f, g, y, x, u, v) || (u == x && v == y);
    if Differs(f, g, x, y) {
      assert SeenDiffers(f, g, y, x + 1, x, y);
      assert SeenInColumn(f, g, y, x + 1, x) && SeenInLine(f, g, y, x + 1, y);
      var r := Rect(if x < b.x0 then x else b.x0, if y < b.y0 then y else b.y0,
                    if x >= b.x1 then x + 1 else b.x1, if y >= b.y1 then y + 1 else b.y1);
      forall u, v | SeenDiffers(f, g, y, x + 1, u, v)
        ensures Contains(r, u, v)
      {
        assert SeenDiffers(f, g, y, x, u, v) || (u == x && v == y);
        assert SeenDiffers(f, g, y, x, u, v) ==> any && Contains(b, u, v);
      }
    }
    if !any && !Differs(f, g, x, y) { StillNone(f, g, y, x, y, x + 1); }
    if colour {
      var u, v :| ColourAt(f, g, u, v) && Reached(u, v, y, x);
      assert Reached(u, v, y, x + 1);
    }
  }

  lemma NextRow(f: Image, g: Image, y: nat, b: Rect, any: bool, colour: bool)
    requires SameSize(f, g) && y < |f.rows|
    requires SoFar(f, g, y, f.w, b, any) && ColourSoFar(f, g, y, f.w, colour)
    ensures SoFar(f, g, y + 1, 0, b, any) && ColourSoFar(f, g, y + 1, 0, colour)
  {
    StillSeen(f, g, y, f.w, y + 1, 0);
    assert forall u, v :: SeenDiffers(f, g, y + 1, 0, u, v) ==> SeenDiffers(f, g, y, f.w, u, v);
    assert forall u, v :: ColourAt(f, g, u, v) ==> (Reached(u, v, y, f.w) <==> Reached(u, v, y + 1, 0));
    if !any { StillNone(f, g, y, f.w, y + 1, 0); }
  }

  lemma NoPixels(a: Row, b: Row)
    ensures CountRow(a[..0], b[..0]) == 0
  {
  }

  lemma CountPixel(a: Row, b: Row, x: nat)
    requires x < |a| == |b|
    ensures CountRow(a[..x + 1], b[..x + 1]) == CountRow(a[..x], b[..x]) + (if a[x] != b[x] then 1 else 0)
  {
    assert a[..x + 1][..x] == a[..x] && b[..x + 1][..x] == b[..x];
  }

  lemma CountWholeRow(f: Image, g: Image, y: nat)
    requires SameSize(f, g) && y < |f.rows|
    ensures CountRows(f.rows[..y + 1], g.rows[..y + 1])
            == CountRows(f.rows[..y], g.rows[..y]) + CountRow(f.rows[y][..f.w], g.rows[y][..f.w])
  {
    assert f.rows[..y + 1][..y] == f.rows[..y] && g.rows[..y + 1][..y] == g.rows[..y];
    assert f.rows[y][..f.w] == f.rows[y] && g.rows[y][..f.w] == g.rows[y];
  }

  lemma SeenAll(f: Image, g: Image, d: Difference, b: Rect)
    requires SameSize(f, g) && !d.sizeChanged && d.total == f.w * |f.rows|
    requires d.changed == CountRows(f.rows[..|f.rows|], g.rows[..|f.rows|])
    requires SoFar(f, g, |f.rows|, 0, b, d.changed > 0) && ColourSoFar(f, g, |f.rows|, 0, d.touchesColour)
    requires d.bounds == if d.changed > 0 then b else Rect(0, 0, 0, 0)
    ensures IsDiff(f, g, d)
  {
    assert f.rows[..|f.rows|] == f.rows && g.rows[..|f.rows|] == g.rows;
    assert forall u, v :: SeenDiffers(f, g, |f.rows|, 0, u, v) <==> Differs(f, g, u, v);
    assert forall u, v :: ColourAt(f, g, u, v) ==> Reached(u, v, |f.rows|, 0);
  }
}
