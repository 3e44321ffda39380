/** The days-to-civil algorithm of the canonical price encoder and the RFC 3339
    text built on it, checked against the Gregorian calendar's own rules. */
module Calendar {
  import opened Common
  import opened Ordering

  // ----- the Gregorian calendar -----

  datatype Date = Date(year: int, month: int, day: int)

  predicate IsLeap(y: int) {
    y % 4 == 0 && (y % 100 != 0 || y % 400 == 0)
  }

  function DaysInMonth(y: int, m: int): int {
    if m == 2 then (if IsLeap(y) then 29 else 28)
    else if m == 4 || m == 6 || m == 9 || m == 11 then 30
    else 31
  }

  predicate IsDate(d: Date) {
    1 <= d.month <= 12 && 1 <= d.day <= DaysInMonth(d.year, d.month)
  }

  function NextDay(d: Date): Date {
    if d.day < DaysInMonth(d.year, d.month) then Date(d.year, d.month, d.day + 1)
    else if d.month < 12 then Date(d.year, d.month + 1, 1)
    else Date(d.year + 1, 1, 1)
  }

  predicate DateLess(a: Date, b: Date) {
    || a.year < b.year
    || (a.year == b.year && a.month < b.month)
    || (a.year == b.year && a.month == b.month && a.day < b.day)
  }

  // ----- the algorithm -----

  /** C division: the quotient is truncated toward zero. */
  function TruncDiv(a: int, b: int): int
    requires b > 0
  {
    if a >= 0 then a / b else -((-a) / b)
  }

  const DAYS_PER_ERA := 146097
  const EPOCH_SHIFT := 719468

  function Era(shifted: int): int {
    TruncDiv(if shifted >= 0 then shifted else shifted - (DAYS_PER_ERA - 1), DAYS_PER_ERA)
  }

  function YearOfEra(doe: int): int {
    (doe - doe / 1460 + doe / 36524 - doe / 146096) / 365
  }

  /** Days of an era before its year `yoe`, years starting on 1 March. */
  function YearStart(yoe: int): int {
    365 * yoe + yoe / 4 - yoe / 100
  }

  function MonthIndex(doy: int): int { (5 * doy + 2) / 153 }

  function CivilFromDays(z: int): Date {
    var shifted := z + EPOCH_SHIFT;
    var era := Era(shifted);
    var doe := shifted - era * DAYS_PER_ERA;
    var yoe := YearOfEra(doe);
    var doy := doe - YearStart(yoe);
    var mp := MonthIndex(doy);
    var day := doy - (153 * mp + 2) / 5 + 1;
    var month := if mp < 10 then mp + 3 else mp - 9;
    Date(yoe + era * 400 + (if month <= 2 then 1 else 0), month, day)
  }

  // ----- correctness -----

  lemma EraIsFloor(shifted: int)
    ensures Era(shifted) == shifted / DAYS_PER_ERA
  {
  }

  /** Days in the March-based year `yoe` of an era. */
  function YearLength(yoe: int): int {
    if (yoe + 1) % 4 == 0 && ((yoe + 1) % 100 != 0 || yoe + 1 == 400) then 366 else 365
  }

  /** A day of the era placed by century, four-year group, year and day of year. */
  lemma YearOfEraAt(c: int, q: int, y: int, d: int)
    requires 0 <= c <= 3 && 0 <= q <= 24 && 0 <= y <= 3 && 0 <= d <= 365
    requires d == 365 ==> y == 3 && (q < 24 || c == 3)
    ensures var doe := 36524 * c + 1461 * q + 365 * y + d;
            && YearOfEra(doe) == 100 * c + 4 * q + y
            && YearStart(YearOfEra(doe)) == doe - d
  {
    var s := 365 * y + d;
    var doe := 36524 * c + 1461 * q + s;
    var e := if 24 * c + q + s >= 1460 then 1 else 0;
    FourYearGroups(25 * c + q, 24 * c + q + s);
    assert doe == 1460 * (25 * c + q) + (24 * c + q + s);
    Centuries(c, 1461 * q + s);
    YearsOfDays(100 * c + 4 * q + y, s - e - 365 * y);
    assert doe - doe / 1460 + doe / 36524 - doe / 146096 == 365 * (100 * c + 4 * q + y) + (s - e - 365 * y);
    YearStartAt(c, q, y);
  }

  lemma FourYearGroups(n: int, r: int)
    requires 0 <= r < 2920
    ensures (1460 * n + r) / 1460 == n + if r >= 1460 then 1 else 0
  {
  }

  lemma Centuries(c: int, r: int)
    requires 0 <= c <= 3 && 0 <= r <= 36524 && (r == 36524 ==> c == 3)
    ensures (36524 * c + r) / 36524 - (36524 * c + r) / 146096 == c
  {
  }

  lemma YearsOfDays(n: int, r: int)
    requires 0 <= r < 365
    ensures (365 * n + r) / 365 == n
  {
  }

  lemma YearStartAt(c: int, q: int, y: int)
    requires 0 <= c <= 3 && 0 <= q <= 24 && 0 <= y <= 3
    ensures YearStart(100 * c + 4 * q + y) == 36524 * c + 1461 * q + 365 * y
  {
  }

  /** The year formula lands in the one year that contains the day. */
  lemma YearOfEraContains(doe: int)
    requires 0 <= doe < DAYS_PER_ERA
    ensures 0 <= YearOfEra(doe) <= 399
    ensures 0 <= doe - YearStart(YearOfEra(doe)) < YearLength(YearOfEra(doe))
  {
    hide YearOfEra, YearStart, YearLength;
    var c := if doe == 146096 then 3 else doe / 36524;
    var r := doe - 36524 * c;
    var q := r / 1461;
    var s := r - 1461 * q;
    var y := if s == 1460 then 3 else s / 365;
    var d := s - 365 * y;
    assert s == 1460 ==> q < 24 || c == 3;
    YearOfEraAt(c, q, y, d);
    YearLengthAt(c, q, y);
  }

  lemma YearLengthAt(c: int, q: int, y: int)
    requires 0 <= c <= 3 && 0 <= q <= 24 && 0 <= y <= 3
    ensures YearLength(100 * c + 4 * q + y) >= 365
    ensures y == 3 && (q < 24 || c == 3) ==> YearLength(100 * c + 4 * q + y) == 366
  {
  }

  lemma YearStartNext(a: int)
    requires 0 <= a <= 399
    ensures YearStart(a) + YearLength(a) == if a < 399 then YearStart(a + 1) else DAYS_PER_ERA
  {
  }

  lemma YearStartMonotone(a: int, b: int)
    requires 0 <= a <= 399 && 0 <= b <= 399
    ensures a < b ==> YearStart(a) + YearLength(a) <= YearStart(b)
  {
    if a < b {
      YearStartNext(a);
      assert YearStart(a + 1) <= YearStart(b);
    }
  }

  /** The date of day `doy` of the March-based year `yoe` of an era. */
  function DateAt(era: int, yoe: int, doy: int): Date {
    var mp := MonthIndex(doy);
    var month := if mp < 10 then mp + 3 else mp - 9;
    Date(yoe + era * 400 + (if month <= 2 then 1 else 0), month, doy - (153 * mp + 2) / 5 + 1)
  }

  lemma Residues(x: int, era: int)
    ensures (x + 400 * era) % 4 == x % 4
    ensures (x + 400 * era) % 100 == x % 100
    ensures (x + 400 * era) % 400 == x % 400
  {
    Residue4(x, 100 * era);
    Residue100(x, 4 * era);
    Residue400(x, era);
  }

  lemma Residue4(x: int, k: int)
    ensures (x + 4 * k) % 4 == x % 4
  {
  }

  lemma Residue100(x: int, k: int)
    ensures (x + 100 * k) % 100 == x % 100
  {
  }

  lemma Residue400(x: int, k: int)
    ensures (x + 400 * k) % 400 == x % 400
  {
  }

  lemma LeapAcrossEras(era: int, yoe: int)
    requires 0 <= yoe <= 399
    ensures IsLeap(yoe + era * 400 + 1) <==> YearLength(yoe) == 366
  {
    Residues(yoe + 1, era);
  }

  /** Within a year the algorithm walks the months in order; after its last day it
      has reached the end of February. */
  lemma DateAtStep(era: int, yoe: int, doy: int)
    requires 0 <= yoe <= 399 && 0 <= doy < YearLength(yoe)
    ensures IsDate(DateAt(era, yoe, doy))
    ensures doy + 1 < YearLength(yoe) ==> DateAt(era, yoe, doy + 1) == NextDay(DateAt(era, yoe, doy))
    ensures doy + 1 == YearLength(yoe) ==> NextDay(DateAt(era, yoe, doy)) == Date(yoe + era * 400 + 1, 3, 1)
  {
    LeapAcrossEras(era, yoe);
  }

  lemma EraOfDay(era: int, doe: int)
    requires 0 <= doe < DAYS_PER_ERA
    ensures Era(era * DAYS_PER_ERA + doe) == era
  {
    EraIsFloor(era * DAYS_PER_ERA + doe);
  }

  lemma YearOfDay(yoe: int, doy: int)
    requires 0 <= yoe <= 399 && 0 <= doy < YearLength(yoe)
    ensures 0 <= YearStart(yoe) + doy < DAYS_PER_ERA
    ensures YearOfEra(YearStart(yoe) + doy) == yoe
  {
    hide YearOfEra;
    var doe := YearStart(yoe) + doy;
    YearStartMonotone(yoe, 399);
    assert 0 <= YearStart(yoe);
    YearOfEraContains(doe);
    hide YearStart, YearLength;
    YearStartMonotone(yoe, YearOfEra(doe));
    YearStartMonotone(YearOfEra(doe), yoe);
  }

  /** The algorithm reads off era, year of era and day of year. */
  lemma CivilAt(era: int, yoe: int, doy: int)
    requires 0 <= yoe <= 399 && 0 <= doy < YearLength(yoe)
    ensures CivilFromDays(era * DAYS_PER_ERA + YearStart(yoe) + doy - EPOCH_SHIFT) == DateAt(era, yoe, doy)
  {
    hide YearOfEra, Era, YearStart, MonthIndex;
    YearOfDay(yoe, doy);
    EraOfDay(era, YearStart(yoe) + doy);
    var shifted := era * DAYS_PER_ERA + YearStart(yoe) + doy;
    assert shifted == era * DAYS_PER_ERA + (YearStart(yoe) + doy);
    assert shifted - EPOCH_SHIFT + EPOCH_SHIFT == shifted;
  }

  lemma PlaceDay(z: int) returns (era: int, yoe: int, doy: int)
    ensures 0 <= yoe <= 399 && 0 <= doy < YearLength(yoe)
    ensures z == era * DAYS_PER_ERA + YearStart(yoe) + doy - EPOCH_SHIFT
  {
    era := (z + EPOCH_SHIFT) / DAYS_PER_ERA;
    var doe := (z + EPOCH_SHIFT) % DAYS_PER_ERA;
    YearOfEraContains(doe);
    yoe := YearOfEra(doe);
    doy := doe - YearStart(yoe);
  }

  lemma DayZero()
    ensures CivilFromDays(0) == Date(1970, 1, 1)
  {
  }

  /** The day after (era, yoe, doy), placed again. */
  lemma PlaceNextDay(era: int, yoe: int, doy: int) returns (era': int, yoe': int, doy': int)
    requires 0 <= yoe <= 399 && 0 <= doy < YearLength(yoe)
    ensures 0 <= yoe' <= 399 && 0 <= doy' < YearLength(yoe')
    ensures era' * DAYS_PER_ERA + YearStart(yoe') + doy' == era * DAYS_PER_ERA + YearStart(yoe) + doy + 1
    ensures DateAt(era', yoe', doy') == NextDay(DateAt(era, yoe, doy))
  {
    hide DateAt, NextDay, IsDate, MonthIndex;
    DateAtStep(era, yoe, doy);
    YearStartNext(yoe);
    if doy + 1 < YearLength(yoe) {
      era', yoe', doy' := era, yoe, doy + 1;
    } else if yoe < 399 {
      era', yoe', doy' := era, yoe + 1, 0;
      FirstOfYear(era', yoe');
    } else {
      era', yoe', doy' := era + 1, 0, 0;
      FirstOfYear(era', yoe');
    }
  }

  /** Day zero is the Unix epoch, and every further day is the next calendar day,
      before the epoch as after it. */
  lemma CivilSuccessor(z: int)
    ensures CivilFromDays(0) == Date(1970, 1, 1)
    ensures IsDate(CivilFromDays(z))
    ensures CivilFromDays(z + 1) == NextDay(CivilFromDays(z))
  {
    hide *;
    DayZero();
    var era, yoe, doy := PlaceDay(z);
    CivilAt(era, yoe, doy);
    DateAtStep(era, yoe, doy);
    var era', yoe', doy' := PlaceNextDay(era, yoe, doy);
    CivilAt(era', yoe', doy');
    assert era' * DAYS_PER_ERA + YearStart(yoe') + doy' - EPOCH_SHIFT == z + 1;
  }

  lemma FirstOfYear(era: int, yoe: int)
    ensures DateAt(era, yoe, 0) == Date(yoe + era * 400, 3, 1)
  {
  }

  lemma NextDayIsLater(d: Date)
    requires IsDate(d)
    ensures DateLess(d, NextDay(d))
  {
  }

  /** Later days have later dates, so no two days share one. */
  lemma {:induction false} CivilIncreasing(a: int, b: int)
    requires a < b
    ensures DateLess(CivilFromDays(a), CivilFromDays(b))
    decreases b - a
  {
    hide CivilFromDays;
    CivilSuccessor(b - 1);
    NextDayIsLater(CivilFromDays(b - 1));
    if a < b - 1 {
      CivilIncreasing(a, b - 1);
    }
  }

  // ----- RFC 3339 text -----

  function Digit(v: int): char
    requires 0 <= v <= 9
  {
    '0' + v as char
  }

  function Put2(v: int): (s: string)
    requires v >= 0
    ensures |s| == 2
  {
    [Digit((v / 10) % 10), Digit(v % 10)]
  }

  function Put4(v: int): (s: string)
    requires v >= 0
    ensures |s| == 4
  {
    [Digit((v / 1000) % 10), Digit((v / 100) % 10), Digit((v / 10) % 10), Digit(v % 10)]
  }

  /** Whole days and the second of the day, floored: C truncates toward zero, so a
      negative remainder is moved back across midnight. */
  function SplitInstant(unix: int): (r: (int, int))
    ensures r.0 == unix / 86400 && r.1 == unix % 86400
  {
    var days := TruncDiv(unix, 86400);
    var secs := unix - days * 86400;
    if secs < 0 then (days - 1, secs + 86400) else (days, secs)
  }

  /** A two-digit field, its separator, and what follows. */
  function Field2(v: int, sep: string, rest: string): string
    requires v >= 0
  {
    Put2(v) + (sep + rest)
  }

  function TimeText(secs: int): string
    requires secs >= 0
  {
    Field2(secs / 3600, ":", Field2((secs / 60) % 60, ":", Field2(secs % 60, "Z", "")))
  }

  function InstantText(d: Date, secs: int): string
    requires d.year >= 0 && d.month >= 0 && d.day >= 0 && secs >= 0
  {
    Put4(d.year) + ("-" + Field2(d.month, "-", Field2(d.day, "T", TimeText(secs))))
  }

  /** The text of one instant, or None outside the four-digit years. */
  function FormatRfc3339(unix: int): Option<string> {
    var (days, secs) := SplitInstant(unix);
    var d := CivilFromDays(days);
    if d.year < 0 || d.year > 9999 then None
    else
      CivilSuccessor(days);
      Some(InstantText(d, secs))
  }

  lemma Put2Less(v: int, w: int)
    requires 0 <= v < w <= 99
    ensures Less(Put2(v), Put2(w))
  {
    var a, b := Put2(v), Put2(w);
    assert |a[1..]| == 1 && |b[1..]| == 1 && a[1..][0] == a[1] && b[1..][0] == b[1];
    if v / 10 == w / 10 {
      assert Less(a[1..], b[1..]);
    }
  }

  lemma Put4Split(v: int)
    requires 0 <= v <= 9999
    ensures Put4(v) == Put2(v / 100) + Put2(v % 100)
  {
    hide Digit;
    var a, b, c, d := v / 1000, v / 100 - 10 * (v / 1000), v / 10 - 10 * (v / 100), v - 10 * (v / 10);
    TensOf(a, b);
    TensOf(c, d);
    TensOf(10 * a + b, c);
    TensOf(100 * a + 10 * b + c, d);
    assert v == 100 * (10 * a + b) + (10 * c + d);
    assert v / 100 == 10 * a + b && v % 100 == 10 * c + d;
  }

  lemma TensOf(a: int, b: int)
    requires 0 <= b <= 9
    ensures (10 * a + b) / 10 == a && (10 * a + b) % 10 == b
  {
  }

  lemma Put4Less(v: int, w: int)
    requires 0 <= v < w <= 9999
    ensures Less(Put4(v), Put4(w))
  {
    Put4Split(v);
    Put4Split(w);
    hide Put2, Put4, Less;
    LessFixedWidth(Put2(v / 100), Put2(w / 100), Put2(v % 100), Put2(w % 100));
    if v / 100 < w / 100 {
      Put2Less(v / 100, w / 100);
    } else {
      Put2Less(v % 100, w % 100);
    }
  }

  /** The first differing field decides the order of two texts. */
  lemma Field2Less(v: int, w: int, sep: string, x: string, y: string)
    requires 0 <= v <= 99 && 0 <= w <= 99
    requires v < w || (v == w && Less(x, y))
    ensures Less(Field2(v, sep, x), Field2(w, sep, y))
  {
    hide Put2, Less;
    LessFixedWidth(Put2(v), Put2(w), sep + x, sep + y);
    LessFixedWidth(sep, sep, x, y);
    if v < w { Put2Less(v, w); }
  }

  lemma TimeTextLess(s: int, t: int)
    requires 0 <= s < t < 86400
    ensures Less(TimeText(s), TimeText(t))
  {
    hide Put2, Less, Field2;
    var sh, sm, ss := s / 3600, (s / 60) % 60, s % 60;
    var th, tm, ts := t / 3600, (t / 60) % 60, t % 60;
    SecondsSplit(s);
    SecondsSplit(t);
    if sh == th {
      if sm == tm {
        Field2Less(ss, ts, "Z", "", "");
      }
      Field2Less(sm, tm, ":", Field2(ss, "Z", ""), Field2(ts, "Z", ""));
    }
    Field2Less(sh, th, ":", Field2(sm, ":", Field2(ss, "Z", "")), Field2(tm, ":", Field2(ts, "Z", "")));
  }

  lemma SecondsSplit(s: int)
    requires 0 <= s < 86400
    ensures s == 3600 * (s / 3600) + 60 * ((s / 60) % 60) + s % 60
    ensures 0 <= s / 3600 <= 23 && 0 <= (s / 60) % 60 <= 59
  {
  }

  lemma InstantTextLess(d: Date, s: int, e: Date, t: int)
    requires IsDate(d) && IsDate(e) && 0 <= d.year <= 9999 && 0 <= e.year <= 9999
    requires 0 <= s < 86400 && 0 <= t < 86400
    requires DateLess(d, e) || (d == e && s < t)
    ensures Less(InstantText(d, s), InstantText(e, t))
  {
    hide Put2, Put4, Less, Field2, TimeText;
    assert d.day <= 31 && e.day <= 31;
    var dd, ee := Field2(d.day, "T", TimeText(s)), Field2(e.day, "T", TimeText(t));
    var dm, em := Field2(d.month, "-", dd), Field2(e.month, "-", ee);
    LessFixedWidth(Put4(d.year), Put4(e.year), "-" + dm, "-" + em);
    LessFixedWidth("-", "-", dm, em);
    if d.year < e.year {
      Put4Less(d.year, e.year);
    } else {
      if d.month == e.month {
        if d == e { TimeTextLess(s, t); }
        Field2Less(d.day, e.day, "T", TimeText(s), TimeText(t));
      }
      Field2Less(d.month, e.month, "-", dd, ee);
    }
  }

  /** Over the four-digit years the text is twenty characters and later instants
      sort strictly later, byte by byte. */
  lemma Rfc3339Increasing(a: int, b: int)
    requires a < b && FormatRfc3339(a).Some? && FormatRfc3339(b).Some?
    ensures |FormatRfc3339(a).value| == |FormatRfc3339(b).value| == 20
    ensures Less(FormatRfc3339(a).value, FormatRfc3339(b).value)
  {
    hide CivilFromDays, Less, InstantText, NextDay, IsDate;
    var (da, sa) := SplitInstant(a);
    var (db, sb) := SplitInstant(b);
    CivilSuccessor(da);
    CivilSuccessor(db);
    if da < db { CivilIncreasing(da, db); }
    InstantTextLess(CivilFromDays(da), sa, CivilFromDays(db), sb);
    Rfc3339Width(a);
    Rfc3339Width(b);
  }

  lemma InstantTextWidth(d: Date, s: int)
    requires IsDate(d) && d.year >= 0 && s >= 0
    ensures |InstantText(d, s)| == 20
  {
  }

  lemma Rfc3339Width(unix: int)
    requires FormatRfc3339(unix).Some?
    ensures |FormatRfc3339(unix).value| == 20
  {
    var (days, secs) := SplitInstant(unix);
    CivilSuccessor(days);
    InstantTextWidth(CivilFromDays(days), secs);
  }

  /** Equal texts name the same instant. */
  lemma Rfc3339Injective(a: int, b: int)
    requires FormatRfc3339(a).Some? && FormatRfc3339(a) == FormatRfc3339(b)
    ensures a == b
  {
    hide FormatRfc3339;
    if a < b { Rfc3339Increasing(a, b); LessIrreflexive(FormatRfc3339(a).value); }
    if b < a { Rfc3339Increasing(b, a); LessIrreflexive(FormatRfc3339(a).value); }
  }

  lemma FirstYear()
    ensures CivilFromDays(-719528) == Date(0, 1, 1)
  {
    hide CivilFromDays;
    CivilAt(-1, 399, 306);
  }

  lemma LastYear()
    ensures CivilFromDays(2932896) == Date(9999, 12, 31)
  {
    hide CivilFromDays;
    CivilAt(24, 399, 305);
  }

  /** The formatter refuses exactly the instants outside 0000-01-01T00:00:00Z to
      9999-12-31T23:59:59Z. */
  lemma Rfc3339Domain(unix: int)
    ensures FormatRfc3339(unix).Some? <==> -62167219200 <= unix <= 253402300799
  {
    hide CivilFromDays, InstantText;
    FirstYear();
    LastYear();
    CivilSuccessor(-719529);
    CivilSuccessor(2932896);
    var days := SplitInstant(unix).0;
    if days < -719529 { CivilIncreasing(days, -719529); }
    if -719528 < days { CivilIncreasing(-719528, days); }
    if days < 2932896 { CivilIncreasing(days, 2932896); }
    if 2932897 < days { CivilIncreasing(2932897, days); }
  }
}
