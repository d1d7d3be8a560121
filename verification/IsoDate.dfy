/** Instants as text: `toISOString`, `Date.parse` on its output, and why comparing the texts
    compares the instants. The calendar is the one of section 21.4.1 of ECMA-262 (2024). */
module IsoDate {
  import opened Text

  const MS_PER_DAY := 86_400_000

  predicate Leap(y: int) {
    y % 4 == 0 && (y % 100 != 0 || y % 400 == 0)
  }

  /** DayFromYear of section 21.4.1.3. */
  function DayFromYear(y: int): int {
    365 * (y - 1970) + (y - 1969) / 4 - (y - 1901) / 100 + (y - 1601) / 400
  }

  function DaysBeforeMonth(leap: bool, m: int): int
    requires 1 <= m <= 13
  {
    [0, 31, 59, 90, 120, 151, 181, 212, 243, 273, 304, 334, 365][m - 1] + if leap && m > 2 then 1 else 0
  }

  lemma QuotientStep(x: int, d: int)
    requires d > 0
    ensures (x + 1) / d == x / d + if (x + 1) % d == 0 then 1 else 0
  {
    var q, r := x / d, x % d;
    assert x == d * q + r && 0 <= r < d;
    if r + 1 == d {
      assert x + 1 == d * (q + 1) + 0 by { assert d * (q + 1) == d * q + d; }
      QuotientIs(x + 1, d, q + 1, 0);
    } else {
      QuotientIs(x + 1, d, q, r + 1);
    }
  }

  lemma QuotientIs(x: int, d: int, q: int, r: int)
    requires d > 0 && x == d * q + r && 0 <= r < d
    ensures x / d == q && x % d == r
  {
    var e := q - x / d;
    assert d * e == x % d - r by { assert d * e == d * q - d * (x / d); }
    assert -d < d * e < d;
  }

  /** A count of multiples goes up after a multiple, wherever the count starts. */
  lemma MultipleCounted(y: int, d: int, start: int)
    requires d > 0 && start % d == 0
    ensures (y - start) / d - (y - start - 1) / d == if y % d == 0 then 1 else 0
  {
    QuotientStep(y - start - 1, d);
    var k, q, r := start / d, y / d, y % d;
    assert y - start == d * (q - k) + r by { assert d * (q - k) == d * q - d * k; }
    QuotientIs(y - start, d, q - k, r);
  }

  lemma YearLength(y: int)
    ensures DayFromYear(y + 1) == DayFromYear(y) + DaysBeforeMonth(Leap(y), 13)
  {
    MultipleCounted(y, 4, 1968);
    MultipleCounted(y, 100, 1900);
    MultipleCounted(y, 400, 1600);
    if y % 400 == 0 {
      QuotientIs(y, 100, 4 * (y / 400), 0);
    }
    if y % 100 == 0 {
      QuotientIs(y, 4, 25 * (y / 100), 0);
    }
  }

  lemma {:induction false} YearsInOrder(y: int, z: int)
    requires y <= z
    ensures DayFromYear(y) <= DayFromYear(z)
    decreases z - y
  {
    if y < z {
      YearLength(y);
      YearsInOrder(y + 1, z);
    }
  }

  // ----- instants of the years 0000 to 9999, the fixed-width ones

  const FIRST := -62_167_219_200_000
  const END := 253_402_300_800_000

  type Instant = t: int | FIRST <= t < END witness 0

  lemma YearsOfInstants()
    ensures FIRST == DayFromYear(0) * MS_PER_DAY && END == DayFromYear(10000) * MS_PER_DAY
  {
  }

  function YearOf(day: int, from: int): (y: int)
    requires DayFromYear(from) <= day < DayFromYear(10000) && from < 10000
    ensures from <= y < 10000 && DayFromYear(y) <= day < DayFromYear(y + 1)
    decreases 10000 - from
  {
    if day < DayFromYear(from + 1) then from
    else
      YearsInOrder(from, 10000);
      YearOf(day, from + 1)
  }

  function MonthOf(leap: bool, day: int, from: int): (m: int)
    requires 1 <= from <= 12 && DaysBeforeMonth(leap, from) <= day < DaysBeforeMonth(leap, 13)
    ensures from <= m <= 12 && DaysBeforeMonth(leap, m) <= day < DaysBeforeMonth(leap, m + 1)
    decreases 13 - from
  {
    if day < DaysBeforeMonth(leap, from + 1) then from else MonthOf(leap, day, from + 1)
  }

  predicate ValidDate(f: seq<nat>) {
    && |f| == 3 && f[0] < 10000 && 1 <= f[1] <= 12
    && 1 <= f[2] <= DaysBeforeMonth(Leap(f[0]), f[1] + 1) - DaysBeforeMonth(Leap(f[0]), f[1])
  }

  function DayOf(f: seq<nat>): int
    requires ValidDate(f)
  {
    DayFromYear(f[0]) + DaysBeforeMonth(Leap(f[0]), f[1]) + f[2] - 1
  }

  /** Year, month, day of the month. */
  function DateFields(day: int): (f: seq<nat>)
    requires DayFromYear(0) <= day < DayFromYear(10000)
    ensures ValidDate(f) && DayOf(f) == day
  {
    var y := YearOf(day, 0);
    YearLength(y);
    var m := MonthOf(Leap(y), day - DayFromYear(y), 1);
    [y, m, day - DayFromYear(y) - DaysBeforeMonth(Leap(y), m) + 1]
  }

  predicate ValidClock(f: seq<nat>) {
    |f| == 4 && f[0] < 24 && f[1] < 60 && f[2] < 60 && f[3] < 1000
  }

  function MsOf(f: seq<nat>): int
    requires ValidClock(f)
  {
    f[0] * 3_600_000 + f[1] * 60_000 + f[2] * 1000 + f[3]
  }

  /** Hour, minute, second, millisecond. */
  function ClockFields(ms: int): (f: seq<nat>)
    requires 0 <= ms < MS_PER_DAY
    ensures ValidClock(f) && MsOf(f) == ms
  {
    var s := ms / 1000;
    var m := s / 60;
    [m / 60, m % 60, s % 60, ms % 1000]
  }

  predicate ValidFields(f: seq<nat>) {
    |f| == 7 && ValidDate(f[..3]) && ValidClock(f[3..])
  }

  function TimeOf(f: seq<nat>): int
    requires ValidFields(f)
  {
    DayOf(f[..3]) * MS_PER_DAY + MsOf(f[3..])
  }

  function Fields(t: Instant): (f: seq<nat>)
    ensures ValidFields(f) && TimeOf(f) == t
  {
    YearsOfInstants();
    var date, clock := DateFields(t / MS_PER_DAY), ClockFields(t % MS_PER_DAY);
    assert (date + clock)[..3] == date && (date + clock)[3..] == clock;
    date + clock
  }

  // ----- fixed-width layouts

  function Pow10(w: nat): (p: nat)
    ensures p > 0
  {
    if w == 0 then 1 else 10 * Pow10(w - 1)
  }

  predicate IsDigit(c: char) {
    '0' <= c <= '9'
  }

  predicate AllDigits(s: string) {
    forall i | 0 <= i < |s| :: IsDigit(s[i])
  }

  function DigitValue(c: char): (n: nat)
    requires IsDigit(c)
  {
    c as int - '0' as int
  }

  function Digit(n: nat): (c: char)
    requires n < 10
    ensures IsDigit(c) && DigitValue(c) == n
  {
    (n + '0' as int) as char
  }

  function Digits(n: nat, w: nat): (s: string)
    ensures |s| == w && AllDigits(s)
  {
    if w == 0 then "" else Digits(n / 10, w - 1) + [Digit(n % 10)]
  }

  function Number(s: string): (n: nat)
    requires AllDigits(s)
  {
    if s == "" then 0 else 10 * Number(s[..|s| - 1]) + DigitValue(s[|s| - 1])
  }

  lemma {:induction false} NumberOfDigits(n: nat, w: nat)
    requires n < Pow10(w)
    ensures Number(Digits(n, w)) == n
  {
    if w > 0 {
      NumberOfDigits(n / 10, w - 1);
      assert Digits(n, w)[..w - 1] == Digits(n / 10, w - 1);
    }
  }

  lemma {:induction false} DigitsInOrder(m: nat, n: nat, w: nat)
    requires m < n < Pow10(w)
    ensures LexLess(Digits(m, w), Digits(n, w))
  {
    if w > 0 {
      var p, q := Digits(m / 10, w - 1), Digits(n / 10, w - 1);
      if m / 10 < n / 10 {
        DigitsInOrder(m / 10, n / 10, w - 1);
        LexLessIrreflexive(p);
        LexLessBlock(p, q, [Digit(m % 10)], [Digit(n % 10)]);
      } else {
        LexLessAfter(p, [Digit(m % 10)], [Digit(n % 10)]);
      }
    }
  }

  /** Widths, each with the character that follows the number. */
  type Layout = seq<(nat, char)>

  predicate Fits(layout: Layout, f: seq<nat>) {
    |f| == |layout| && forall i | 0 <= i < |f| :: f[i] < Pow10(layout[i].0)
  }

  function Format(layout: Layout, f: seq<nat>): string
    requires |f| == |layout|
  {
    if layout == [] then ""
    else Digits(f[0], layout[0].0) + ([layout[0].1] + Format(layout[1..], f[1..]))
  }

  datatype Scanned = Fail | Ok(fields: seq<nat>)

  function Scan(layout: Layout, text: string): Scanned {
    if layout == [] then if text == "" then Ok([]) else Fail
    else
      var w := layout[0].0;
      if |text| <= w || !AllDigits(text[..w]) || text[w] != layout[0].1 then Fail
      else
        var rest := Scan(layout[1..], text[w + 1..]);
        if rest.Fail? then Fail else Ok([Number(text[..w])] + rest.fields)
  }

  lemma ScanStep(layout: Layout, n: nat, rest: string)
    requires layout != [] && n < Pow10(layout[0].0)
    ensures var s := Scan(layout[1..], rest);
            Scan(layout, Digits(n, layout[0].0) + ([layout[0].1] + rest)) == if s.Fail? then Fail else Ok([n] + s.fields)
  {
    var w, text := layout[0].0, Digits(n, layout[0].0) + ([layout[0].1] + rest);
    assert text[..w] == Digits(n, w) && text[w] == layout[0].1 && text[w + 1..] == rest;
    NumberOfDigits(n, w);
  }

  lemma {:induction false} ScanOfFormat(layout: Layout, f: seq<nat>)
    requires Fits(layout, f)
    ensures Scan(layout, Format(layout, f)) == Ok(f)
  {
    if layout != [] {
      assert Fits(layout[1..], f[1..]);
      ScanOfFormat(layout[1..], f[1..]);
      ScanStep(layout, f[0], Format(layout[1..], f[1..]));
      assert f == [f[0]] + f[1..];
    }
  }

  /** The first field in which two tuples differ. */
  ghost predicate Below(f: seq<nat>, g: seq<nat>, k: nat) {
    k < |f| == |g| && f[..k] == g[..k] && f[k] < g[k]
  }

  lemma {:induction false} FormatInOrder(layout: Layout, f: seq<nat>, g: seq<nat>, k: nat)
    requires Fits(layout, f) && Fits(layout, g) && Below(f, g, k)
    ensures LexLess(Format(layout, f), Format(layout, g))
  {
    var w := layout[0].0;
    var a, b := [layout[0].1] + Format(layout[1..], f[1..]), [layout[0].1] + Format(layout[1..], g[1..]);
    if k == 0 {
      DigitsInOrder(f[0], g[0], w);
      LexLessIrreflexive(Digits(f[0], w));
      LexLessBlock(Digits(f[0], w), Digits(g[0], w), a, b);
    } else {
      assert f[0] == f[..k][0] == g[..k][0] == g[0];
      assert f[1..][..k - 1] == f[..k][1..] && g[1..][..k - 1] == g[..k][1..];
      assert Fits(layout[1..], f[1..]) && Fits(layout[1..], g[1..]);
      FormatInOrder(layout[1..], f[1..], g[1..], k - 1);
      LexLessAfter([layout[0].1], Format(layout[1..], f[1..]), Format(layout[1..], g[1..]));
      LexLessAfter(Digits(f[0], w), a, b);
    }
  }

  // ----- ISO text

  const ISO: Layout := [(4, '-'), (2, '-'), (2, 'T'), (2, ':'), (2, ':'), (2, '.'), (3, 'Z')]

  function Iso(t: Instant): string {
    Format(ISO, Fields(t))
  }

  datatype Parsed = NotATime | Time(ms: int)

  /** `Date.parse` on texts of the full ISO form; any other text is no time here. */
  function Parse(text: string): Parsed {
    match Scan(ISO, text)
    case Ok(f) => if ValidFields(f) then Time(TimeOf(f)) else NotATime
    case Fail => NotATime
  }

  function Width(layout: Layout): nat {
    if layout == [] then 0 else layout[0].0 + 1 + Width(layout[1..])
  }

  lemma {:induction false} FormatWidth(layout: Layout, f: seq<nat>)
    requires |f| == |layout|
    ensures |Format(layout, f)| == Width(layout)
  {
    if layout != [] {
      FormatWidth(layout[1..], f[1..]);
    }
  }

  /** The text of every instant is as wide as that of any other. */
  lemma IsoIsFixedWidth(t: Instant)
    ensures |Iso(t)| == 24
  {
    FormatWidth(ISO, Fields(t));
    assert Width(ISO[3..]) == 3 + 3 + 3 + 4;
  }

  lemma FieldsFit(f: seq<nat>)
    requires ValidFields(f)
    ensures Fits(ISO, f)
  {
    assert Pow10(2) == 100 && Pow10(3) == 1000 && Pow10(4) == 10 * Pow10(3);
    assert f[..3][0] == f[0] && f[..3][1] == f[1] && f[..3][2] == f[2];
    assert f[3..][0] == f[3] && f[3..][1] == f[4] && f[3..][2] == f[5] && f[3..][3] == f[6];
  }

  // ----- the calendar, day by day

  function MonthLength(y: int, m: int): nat
    requires 1 <= m <= 12
  {
    if m == 2 then if Leap(y) then 29 else 28
    else if m == 4 || m == 6 || m == 9 || m == 11 then 30
    else 31
  }

  function NextDay(f: seq<nat>): seq<nat>
    requires |f| == 3 && 1 <= f[1] <= 12
  {
    if f[2] < MonthLength(f[0], f[1]) then [f[0], f[1], f[2] + 1]
    else if f[1] < 12 then [f[0], f[1] + 1, 1]
    else [f[0] + 1, 1, 1]
  }

  lemma DayAfterDay(f: seq<nat>)
    requires ValidDate(f) && (f[0] < 9999 || f[1] < 12 || f[2] < 31)
    ensures ValidDate(NextDay(f)) && DayOf(NextDay(f)) == DayOf(f) + 1
  {
    YearLength(f[0]);
  }

  /** The fields of an instant are the only ones that make it up. */
  lemma FieldsAre(t: Instant, date: seq<nat>, clock: seq<nat>)
    requires ValidDate(date) && ValidClock(clock) && DayOf(date) * MS_PER_DAY + MsOf(clock) == t
    ensures Fields(t) == date + clock
  {
    var f, g := date + clock, Fields(t);
    assert f[..3] == date && f[3..] == clock;
    if g != f {
      var k := FirstDifference(g, f, 0);
      if Below(f, g, k) {
        TimesInOrder(f, g, k);
      } else {
        TimesInOrder(g, f, k);
      }
    }
  }

  lemma NotTheLastDay(f: seq<nat>)
    requires ValidDate(f) && DayOf(f) + 1 < DayFromYear(10000)
    ensures f[0] < 9999 || f[1] < 12 || f[2] < 31
  {
    YearLength(9999);
  }

  lemma NextDate(date: seq<nat>, clock: seq<nat>)
    requires ValidDate(date) && ValidClock(clock) && DayOf(date) * MS_PER_DAY + MsOf(clock) + MS_PER_DAY < END
    ensures ValidDate(NextDay(date)) && DayOf(NextDay(date)) == DayOf(date) + 1
  {
    YearsOfInstants();
    NotTheLastDay(date);
    DayAfterDay(date);
  }

  lemma NextDaysFields(t: Instant, later: Instant, date: seq<nat>, clock: seq<nat>)
    requires ValidDate(date) && ValidClock(clock) && DayOf(date) * MS_PER_DAY + MsOf(clock) == t && later == t + MS_PER_DAY
    ensures Fields(later) == NextDay(date) + clock
  {
    NextDate(date, clock);
    var day, next := DayOf(date), DayOf(NextDay(date));
    assert next * MS_PER_DAY == day * MS_PER_DAY + MS_PER_DAY;
    FieldsAre(later, NextDay(date), clock);
  }

  /** A day later the date is the next one of the calendar, at the same time of day. */
  lemma NextDaysDate(t: Instant, later: Instant)
    requires later == t + 24 * 60 * 60 * 1000
    ensures Fields(later) == NextDay(Fields(t)[..3]) + Fields(t)[3..]
  {
    NextDaysFields(t, later, Fields(t)[..3], Fields(t)[3..]);
  }

  /** Time is counted from the start of 1970, and the clock of a day in hours, minutes, seconds
      and milliseconds. */
  lemma EpochFields(hour: nat, minute: nat, second: nat, ms: nat, t: Instant)
    requires hour < 24 && minute < 60 && second < 60 && ms < 1000
    requires t == ((hour * 60 + minute) * 60 + second) * 1000 + ms
    ensures Fields(t) == [1970, 1, 1] + [hour, minute, second, ms]
  {
    var date, clock := [1970, 1, 1], [hour, minute, second, ms];
    assert ValidDate(date) && DayOf(date) == 0;
    FieldsAre(t, date, clock);
  }

  /** Where a field starts. */
  function Offset(layout: Layout, i: nat): nat
    requires i <= |layout|
  {
    if i == 0 then 0 else Offset(layout, i - 1) + layout[i - 1].0 + 1
  }

  lemma FieldFirst(layout: Layout, f: seq<nat>, s: string)
    requires |f| == |layout| > 0 && s == Format(layout, f)
    ensures var w := layout[0].0;
            |s| > w && s[..w] == Digits(f[0], w) && s[w] == layout[0].1 && s[w + 1..] == Format(layout[1..], f[1..])
  {
  }

  lemma {:induction false} FormatFrom(layout: Layout, f: seq<nat>, s: string, i: nat)
    requires |f| == |layout| && i <= |f| && s == Format(layout, f)
    ensures Offset(layout, i) <= |s| && s[Offset(layout, i)..] == Format(layout[i..], f[i..])
  {
    if i == 0 {
      assert layout[0..] == layout && f[0..] == f && s[0..] == s;
    } else {
      FormatFrom(layout, f, s, i - 1);
      var at := Offset(layout, i - 1);
      FieldFirst(layout[i - 1..], f[i - 1..], s[at..]);
      assert layout[i - 1..][1..] == layout[i..] && f[i - 1..][1..] == f[i..];
      assert s[at..][layout[i - 1].0 + 1..] == s[Offset(layout, i)..];
    }
  }

  lemma FieldAt(layout: Layout, f: seq<nat>, s: string, i: nat, at: nat)
    requires |f| == |layout| && i < |f| && s == Format(layout, f) && at == Offset(layout, i)
    ensures var w := layout[i].0; at + w < |s| && s[at..at + w] == Digits(f[i], w) && s[at + w] == layout[i].1
  {
    FormatFrom(layout, f, s, i);
    FieldFirst(layout[i..], f[i..], s[at..]);
    assert s[at..][..layout[i].0] == s[at..at + layout[i].0];
  }

  /** The form YYYY-MM-DDTHH:mm:ss.sssZ. */
  lemma IsoLayout(t: Instant)
    ensures var s, f := Iso(t), Fields(t);
            && |s| == 24
            && s[0..4] == Digits(f[0], 4) && s[4] == '-' && s[5..7] == Digits(f[1], 2) && s[7] == '-'
            && s[8..10] == Digits(f[2], 2) && s[10] == 'T' && s[11..13] == Digits(f[3], 2) && s[13] == ':'
            && s[14..16] == Digits(f[4], 2) && s[16] == ':' && s[17..19] == Digits(f[5], 2) && s[19] == '.'
            && s[20..23] == Digits(f[6], 3) && s[23] == 'Z'
  {
    IsoIsFixedWidth(t);
    var s, f := Iso(t), Fields(t);
    IsoOffsets();
    FieldAt(ISO, f, s, 0, 0);
    FieldAt(ISO, f, s, 1, 5);
    FieldAt(ISO, f, s, 2, 8);
    FieldAt(ISO, f, s, 3, 11);
    FieldAt(ISO, f, s, 4, 14);
    FieldAt(ISO, f, s, 5, 17);
    FieldAt(ISO, f, s, 6, 20);
  }

  lemma IsoOffsets()
    ensures Offset(ISO, 0) == 0 && Offset(ISO, 1) == 5 && Offset(ISO, 2) == 8 && Offset(ISO, 3) == 11
    ensures Offset(ISO, 4) == 14 && Offset(ISO, 5) == 17 && Offset(ISO, 6) == 20
  {
    assert Offset(ISO, 2) == Offset(ISO, 1) + 3;
    assert Offset(ISO, 4) == Offset(ISO, 3) + 3 == Offset(ISO, 2) + 6;
  }

  /** Parsing undoes printing. */
  lemma ParseOfIso(t: Instant)
    ensures Parse(Iso(t)) == Time(t)
  {
    FieldsFit(Fields(t));
    ScanOfFormat(ISO, Fields(t));
  }

  lemma DatesInOrder(f: seq<nat>, g: seq<nat>, k: nat)
    requires ValidDate(f) && ValidDate(g) && Below(f, g, k)
    ensures DayOf(f) < DayOf(g)
  {
    YearLength(f[0]);
    if k == 0 {
      YearsInOrder(f[0] + 1, g[0]);
    } else {
      assert f[0] == f[..k][0] == g[..k][0] == g[0];
      if k == 2 {
        assert f[1] == f[..k][1] == g[..k][1] == g[1];
      }
    }
  }

  lemma ClocksInOrder(f: seq<nat>, g: seq<nat>, k: nat)
    requires ValidClock(f) && ValidClock(g) && Below(f, g, k)
    ensures MsOf(f) < MsOf(g)
  {
    assert forall i | 0 <= i < k :: f[i] == f[..k][i] == g[..k][i] == g[i];
  }

  lemma TimesInOrder(f: seq<nat>, g: seq<nat>, k: nat)
    requires ValidFields(f) && ValidFields(g) && Below(f, g, k)
    ensures TimeOf(f) < TimeOf(g)
  {
    if k < 3 {
      assert f[..3][..k] == f[..k] && g[..3][..k] == g[..k];
      DatesInOrder(f[..3], g[..3], k);
    } else {
      assert f[..3] == f[..k][..3] == g[..k][..3] == g[..3];
      assert f[3..][..k - 3] == f[..k][3..] && g[3..][..k - 3] == g[..k][3..];
      ClocksInOrder(f[3..], g[3..], k - 3);
    }
  }

  lemma {:induction false} FirstDifference(f: seq<nat>, g: seq<nat>, from: nat) returns (k: nat)
    requires |f| == |g| && f != g && from <= |f| && f[..from] == g[..from]
    ensures Below(f, g, k) || Below(g, f, k)
    decreases |f| - from
  {
    assert f[..|f|] == f && g[..|g|] == g;
    if from < |f| && f[from] == g[from] {
      assert f[..from + 1] == f[..from] + [f[from]] && g[..from + 1] == g[..from] + [g[from]];
      k := FirstDifference(f, g, from + 1);
    } else {
      k := from;
    }
  }

  lemma EarlierIsLess(s: Instant, t: Instant)
    requires s < t
    ensures LexLess(Iso(s), Iso(t))
  {
    var f, g := Fields(s), Fields(t);
    var k := FirstDifference(f, g, 0);
    if Below(g, f, k) {
      TimesInOrder(g, f, k);
    }
    FieldsFit(f);
    FieldsFit(g);
    FormatInOrder(ISO, f, g, k);
  }

  /** Comparing the texts compares the instants. */
  lemma TextOrderIsTimeOrder(s: Instant, t: Instant)
    ensures LexLess(Iso(s), Iso(t)) <==> s < t
  {
    if s < t {
      EarlierIsLess(s, t);
    } else if t < s {
      EarlierIsLess(t, s);
      LexLessAsymmetric(Iso(t), Iso(s));
    } else {
      LexLessIrreflexive(Iso(s));
    }
  }

  /** What a store needs of its time format: reading undoes writing, and text order is time
      order. */
  ghost predicate Faithful(write: Instant -> string, read: string -> Parsed) {
    && (forall t: Instant :: read(write(t)) == Time(t))
    && (forall s: Instant, t: Instant :: LexLess(write(s), write(t)) <==> s < t)
  }

  lemma IsoIsFaithful()
    ensures Faithful(Iso, Parse)
  {
    forall t: Instant ensures Parse(Iso(t)) == Time(t) {
      ParseOfIso(t);
    }
    forall s: Instant, t: Instant ensures LexLess(Iso(s), Iso(t)) <==> s < t {
      TextOrderIsTimeOrder(s, t);
    }
  }
}
