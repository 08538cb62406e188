/** `parse_iso_ms` (apps/cloud-api/src/forge.rs:568-598): the closed-form day count, a naive calendar, and the text form. */
module IsoTime {
  import opened Text

  // ---- the closed form ------------------------------------------------------------------------

  /** Days since 1970-01-01 of a civil date, as the source computes them. */
  function Days(y: int, m: int, d: int): int
  {
    var shifted := if m <= 2 then y - 1 else y;
    var era := shifted / 400;
    var yoe := shifted % 400;
    var doy := (153 * (if m > 2 then m - 3 else m + 9) + 2) / 5 + d - 1;
    var doe := yoe * 365 + yoe / 4 - yoe / 100 + doy;
    era * 146097 + doe - 719468
  }

  function Millis(y: int, m: int, d: int, h: int, mi: int, s: int): int
  {
    ((Days(y, m, d) * 24 + h) * 60 + mi) * 60000 + s * 1000
  }

  // ---- the naive calendar -----------------------------------------------------------------------

  predicate IsLeap(y: int)
  {
    y % 4 == 0 && (y % 100 != 0 || y % 400 == 0)
  }

  function YearDays(y: int): int
  {
    if IsLeap(y) then 366 else 365
  }

  function MonthDays(y: int, m: int): int
  {
    if m == 2 then (if IsLeap(y) then 29 else 28)
    else if m == 4 || m == 6 || m == 9 || m == 11 then 30
    else 31
  }

  /** Days from 1970-01-01 to the first of January of `y`, year by year in either direction. */
  function DaysToYear(y: int): int
    decreases if y >= 1970 then y - 1970 else 1970 - y
  {
    if y == 1970 then 0
    else if y > 1970 then DaysToYear(y - 1) + YearDays(y - 1)
    else DaysToYear(y + 1) - YearDays(y)
  }

  /** Days of the months before `m`. */
  function DaysToMonth(y: int, m: int): int
    decreases m
  {
    if m <= 1 then 0 else DaysToMonth(y, m - 1) + MonthDays(y, m - 1)
  }

  function NaiveDays(y: int, m: int, d: int): int
  {
    DaysToYear(y) + DaysToMonth(y, m) + d - 1
  }

  predicate ValidDate(y: int, m: int, d: int)
  {
    1 <= m <= 12 && 1 <= d <= MonthDays(y, m)
  }

  // ---- the two agree ------------------------------------------------------------------------------

  /** Leap days in the years up to `n`, counted from year 0 of the 400-year cycle. */
  function Leaps(n: int): int
  {
    n / 4 - n / 100 + n / 400
  }

  lemma LeapStep(y: int)
    ensures Leaps(y) - Leaps(y - 1) == if IsLeap(y) then 1 else 0
  {
    DivStep(y, 4);
    DivStep(y, 100);
    DivStep(y, 400);
    Centuries(y);
  }

  lemma Centuries(y: int)
    ensures y % 400 == 0 ==> y % 100 == 0
    ensures y % 100 == 0 ==> y % 4 == 0
  {
    var q, r := y / 400, y % 400;
    assert y == 100 * (4 * q) + r;
    var q', r' := y / 100, y % 100;
    assert y == 4 * (25 * q') + r';
  }

  lemma DivStep(y: int, k: int)
    requires k == 4 || k == 100 || k == 400
    ensures y / k - (y - 1) / k == if y % k == 0 then 1 else 0
  {
  }

  lemma {:induction false} YearForm(y: int)
    ensures DaysToYear(y) == 365 * y + Leaps(y - 1) - 719527
    decreases if y >= 1970 then y - 1970 else 1970 - y
  {
    if y > 1970 {
      YearForm(y - 1);
      LeapStep(y - 1);
    } else if y < 1970 {
      YearForm(y + 1);
      LeapStep(y);
    }
  }

  lemma {:induction false} MonthForm(y: int, m: int)
    requires 1 <= m <= 12
    ensures m > 2 ==> DaysToMonth(y, m) == (153 * (m - 3) + 2) / 5 + (if IsLeap(y) then 60 else 59)
    ensures m <= 2 ==> DaysToMonth(y, m) == (153 * (m + 9) + 2) / 5 - 306
    decreases m
  {
    if m > 1 {
      MonthForm(y, m - 1);
    }
  }

  /** A 400-year cycle has 146097 days. */
  lemma EraForm(n: int)
    ensures (n / 400) * 146097 + (n % 400) * 365 + (n % 400) / 4 - (n % 400) / 100 == 365 * n + Leaps(n)
  {
    var e, r := n / 400, n % 400;
    assert n == 400 * e + r;
    assert n / 4 == 100 * e + r / 4;
    assert n / 100 == 4 * e + r / 100;
  }

  /** The closed form counts the days a naive calendar counts, for every date of every year. */
  lemma ClosedFormIsNaive(y: int, m: int, d: int)
    requires ValidDate(y, m, d)
    ensures Days(y, m, d) == NaiveDays(y, m, d)
  {
    YearForm(y);
    MonthForm(y, m);
    LeapStep(y);
    EraForm(if m <= 2 then y - 1 else y);
  }

  // ---- order -----------------------------------------------------------------------------------------

  predicate DateBefore(y: int, m: int, d: int, y': int, m': int, d': int)
  {
    y < y' || (y == y' && (m < m' || (m == m' && d < d')))
  }

  lemma {:induction false} MonthsWithinYear(y: int, m: int)
    requires 1 <= m <= 13
    ensures DaysToMonth(y, 13) == YearDays(y)
    ensures DaysToMonth(y, m) <= YearDays(y)
    decreases 13 - m
  {
    if m < 13 {
      MonthsWithinYear(y, m + 1);
    } else {
      MonthForm(y, 12);
    }
  }

  lemma {:induction false} MonthsGrow(y: int, m: int, m': int)
    requires 1 <= m <= m'
    ensures DaysToMonth(y, m) <= DaysToMonth(y, m')
    decreases m' - m
  {
    if m < m' { MonthsGrow(y, m, m' - 1); }
  }

  lemma {:induction false} YearsGrow(y: int, y': int)
    requires y <= y'
    ensures DaysToYear(y) <= DaysToYear(y')
    decreases y' - y
  {
    if y < y' {
      YearsGrow(y, y' - 1);
      YearStep(y' - 1);
    }
  }

  lemma NaiveDaysIncrease(y: int, m: int, d: int, y': int, m': int, d': int)
    requires ValidDate(y, m, d) && ValidDate(y', m', d') && DateBefore(y, m, d, y', m', d')
    ensures NaiveDays(y, m, d) < NaiveDays(y', m', d')
  {
    if y == y' {
      if m < m' { MonthsGrow(y, m + 1, m'); }
    } else {
      MonthsWithinYear(y, m + 1);
      MonthsGrow(y', 1, m');
      YearsGrow(y + 1, y');
      YearStep(y);
    }
  }

  lemma DaysIncrease(y: int, m: int, d: int, y': int, m': int, d': int)
    requires ValidDate(y, m, d) && ValidDate(y', m', d') && DateBefore(y, m, d, y', m', d')
    ensures Days(y, m, d) < Days(y', m', d')
  {
    ClosedFormIsNaive(y, m, d);
    ClosedFormIsNaive(y', m', d');
    NaiveDaysIncrease(y, m, d, y', m', d');
  }

  /** The day after: the next of the month, the first of the next month, or the first of the next year. */
  function NextDay(y: int, m: int, d: int): (int, int, int)
  {
    if d < MonthDays(y, m) then (y, m, d + 1)
    else if m < 12 then (y, m + 1, 1)
    else (y + 1, 1, 1)
  }

  lemma NextDayCounts(y: int, m: int, d: int)
    requires ValidDate(y, m, d)
    ensures var n := NextDay(y, m, d); ValidDate(n.0, n.1, n.2) && NaiveDays(n.0, n.1, n.2) == NaiveDays(y, m, d) + 1
  {
    if NextDay(y, m, d).0 == y + 1 {
      MonthsWithinYear(y, 13);
      YearStep(y);
    }
  }

  lemma YearStep(y: int)
    ensures DaysToYear(y + 1) == DaysToYear(y) + YearDays(y)
  {
    YearForm(y + 1);
    YearForm(y);
    LeapStep(y);
  }

  /** The next day is exactly 86,400,000 milliseconds later at the same time of day. */
  lemma NextDayAdds(y: int, m: int, d: int, h: int, mi: int, s: int)
    requires ValidDate(y, m, d)
    ensures var n := NextDay(y, m, d);
      ValidDate(n.0, n.1, n.2) && Millis(n.0, n.1, n.2, h, mi, s) == Millis(y, m, d, h, mi, s) + 86400000
  {
    var n := NextDay(y, m, d);
    NextDayCounts(y, m, d);
    ClosedFormIsNaive(y, m, d);
    ClosedFormIsNaive(n.0, n.1, n.2);
    var a, b := Days(y, m, d), Days(n.0, n.1, n.2);
    assert b == a + 1;
  }

  predicate ValidTime(h: int, mi: int, s: int)
  {
    0 <= h <= 23 && 0 <= mi <= 59 && 0 <= s <= 59
  }

  /** Later date, or same date and later time of day. */
  predicate Earlier(a: Stamp, b: Stamp)
  {
    DateBefore(a.y, a.m, a.d, b.y, b.m, b.d) ||
    (a.y == b.y && a.m == b.m && a.d == b.d &&
     (a.h < b.h || (a.h == b.h && (a.mi < b.mi || (a.mi == b.mi && a.s < b.s)))))
  }

  datatype Stamp = Stamp(y: int, m: int, d: int, h: int, mi: int, s: int)

  predicate Valid(t: Stamp)
  {
    ValidDate(t.y, t.m, t.d) && ValidTime(t.h, t.mi, t.s)
  }

  function MillisOf(t: Stamp): int
  {
    Millis(t.y, t.m, t.d, t.h, t.mi, t.s)
  }

  /** Milliseconds since the epoch, counted on the naive calendar. */
  function NaiveMillis(t: Stamp): int
  {
    NaiveDays(t.y, t.m, t.d) * 86400000 + t.h * 3600000 + t.mi * 60000 + t.s * 1000
  }

  lemma MillisIsNaive(t: Stamp)
    requires Valid(t)
    ensures MillisOf(t) == NaiveMillis(t)
  {
    ClosedFormIsNaive(t.y, t.m, t.d);
  }

  lemma MillisIncrease(a: Stamp, b: Stamp)
    requires Valid(a) && Valid(b) && Earlier(a, b)
    ensures MillisOf(a) < MillisOf(b)
  {
    if DateBefore(a.y, a.m, a.d, b.y, b.m, b.d) {
      DaysIncrease(a.y, a.m, a.d, b.y, b.m, b.d);
    }
  }

  /** Four-digit years stay far inside a signed 64-bit integer. */
  lemma FourDigitsFit(t: Stamp)
    requires Valid(t) && 0 <= t.y <= 9999
    ensures -0x8000_0000_0000_0000 <= MillisOf(t) < 0x8000_0000_0000_0000
  {
    MillisIsNaive(t);
    YearForm(t.y);
    MonthsWithinYear(t.y, t.m);
  }

  // ---- the text ------------------------------------------------------------------------------------------

  /** The characters `str::trim` removes (Unicode White_Space). */
  predicate IsSpace(c: char)
  {
    || '\t' <= c <= '\r' || c == ' ' || c == '\U{85}' || c == '\U{A0}' || c == '\U{1680}'
    || '\U{2000}' <= c <= '\U{200A}' || c == '\U{2028}' || c == '\U{2029}' || c == '\U{202F}'
    || c == '\U{205F}' || c == '\U{3000}'
  }

  function TrimLeft(t: string): string
  {
    if t != [] && IsSpace(t[0]) then TrimLeft(t[1..]) else t
  }

  function TrimRight(t: string): string
  {
    if t != [] && IsSpace(t[|t|-1]) then TrimRight(t[..|t|-1]) else t
  }

  predicate IsDigit(c: char)
  {
    '0' <= c <= '9'
  }

  predicate AllDigits(t: string)
  {
    forall i | 0 <= i < |t| :: IsDigit(t[i])
  }

  function Value(t: string): nat
    requires AllDigits(t)
  {
    if t == [] then 0 else Value(t[..|t|-1]) * 10 + (t[|t|-1] as int - '0' as int)
  }

  /** `str::parse::<i64>`. */
  function ParseI64(t: string): Option<int>
  {
    var signed := t != [] && (t[0] == '+' || t[0] == '-');
    var body := if signed then t[1..] else t;
    if body == [] || !AllDigits(body) then None
    else
      var magnitude: int := Value(body);
      var v := if t[0] == '-' then -magnitude else magnitude;
      if -0x8000_0000_0000_0000 <= v < 0x8000_0000_0000_0000 then Some(v) else None
  }

  /** `split_once`. */
  function SplitOnce(t: string, c: char): Option<(string, string)>
  {
    if t == [] then None
    else if t[0] == c then Some(("", t[1..]))
    else
      var r := SplitOnce(t[1..], c);
      if r.None? then None else Some(([t[0]] + r.value.0, r.value.1))
  }

  /** The first three pieces, as numbers; later pieces are ignored. */
  function Three(pieces: seq<string>): Option<(int, int, int)>
  {
    if |pieces| < 3 then None else
    var a, b, c := ParseI64(pieces[0]), ParseI64(pieces[1]), ParseI64(pieces[2]);
    if a.None? || b.None? || c.None? then None else Some((a.value, b.value, c.value))
  }

  function Trim(text: string): string
  {
    TrimRight(TrimLeft(text))
  }

  function ParseIsoMs(text: string): Option<int>
  {
    ParseTrimmed(Trim(text))
  }

  function ParseTrimmed(text: string): Option<int>
  {
    var halves := SplitOnce(text, 'T');
    if halves.None? then None else
    var (date, time) := halves.value;
    if time == [] || time[|time|-1] != 'Z' then None else
    var ymd := Three(Split(date, '-'));
    var hms := Three(Split(Split(time[..|time|-1], '.')[0], ':'));
    if ymd.None? || hms.None? then None else
    var (y, m, d) := ymd.value;
    var (h, mi, s) := hms.value;
    if !(1 <= m <= 12) || !(1 <= d <= 31) || h > 23 || mi > 59 || s > 60 then None
    else Some(Millis(y, m, d, h, mi, s))
  }

  // ---- the round trip ----------------------------------------------------------------------------------------

  function Digit(n: nat): (c: char)
    requires n <= 9
    ensures IsDigit(c) && c as int - '0' as int == n
  {
    ('0' as int + n) as char
  }

  function Two(n: nat): string
    requires n <= 99
  {
    [Digit(n / 10), Digit(n % 10)]
  }

  function Four(n: nat): string
    requires n <= 9999
  {
    Two(n / 100) + Two(n % 100)
  }

  lemma TwoParses(n: nat)
    requires n <= 99
    ensures ParseI64(Two(n)) == Some(n)
  {
    var t := Two(n);
    assert t[..1] == [Digit(n / 10)] && t[..1][..0] == [];
    assert Value(t[..1]) == n / 10;
  }

  lemma FourParses(n: nat)
    requires n <= 9999
    ensures ParseI64(Four(n)) == Some(n)
  {
    var t := Four(n);
    assert t[..3][..2] == Two(n / 100) && t[..3] == t[..2] + [t[2]];
    assert Two(n / 100)[..1][..0] == [];
    assert Value(Two(n / 100)[..1]) == n / 100 / 10;
    assert Value(t[..2]) == n / 100;
    assert Value(t[..3]) == n / 100 * 10 + n % 100 / 10;
    assert Value(t) == Value(t[..3]) * 10 + n % 100 % 10;
  }

  /** The stamp can be written with four digits for the year and two for everything else. */
  predicate Writable(t: Stamp)
  {
    0 <= t.y <= 9999 && 0 <= t.m <= 99 && 0 <= t.d <= 99 && 0 <= t.h <= 99 && 0 <= t.mi <= 99 && 0 <= t.s <= 99
  }

  /** `YYYY-MM-DD` and `HH:MM:SS`. */
  function DateText(t: Stamp): string
    requires Writable(t)
  {
    Join([Four(t.y), Two(t.m), Two(t.d)], '-')
  }

  function TimeText(t: Stamp): string
    requires Writable(t)
  {
    Join([Two(t.h), Two(t.mi), Two(t.s)], ':')
  }

  function FractionText(fraction: string): string
  {
    if fraction == "" then "" else "." + fraction
  }

  /** `YYYY-MM-DDTHH:MM:SSZ`, with or without a fraction of a second. */
  function Render(t: Stamp, fraction: string): string
    requires Writable(t)
  {
    DateText(t) + "T" + (TimeText(t) + FractionText(fraction) + "Z")
  }

  lemma TwoPlain(n: nat)
    requires n <= 99
    ensures forall c | c in Two(n) :: IsDigit(c)
  {
  }

  lemma FourPlain(n: nat)
    requires n <= 9999
    ensures forall c | c in Four(n) :: IsDigit(c)
  {
  }

  lemma {:induction false} SplitOnceAt(head: string, tail: string, c: char)
    requires c !in head
    ensures SplitOnce(head + [c] + tail, c) == Some((head, tail))
  {
    var t := head + [c] + tail;
    if head == [] {
      assert t[1..] == tail;
    } else {
      assert head[0] in head && t[0] == head[0] && t[1..] == head[1..] + [c] + tail;
      assert forall x | x in head[1..] :: x in head;
      SplitOnceAt(head[1..], tail, c);
      assert [head[0]] + head[1..] == head;
    }
  }

  /** The date half reads back. */
  lemma DateParses(t: Stamp)
    requires Writable(t)
    ensures Three(Split(DateText(t), '-')) == Some((t.y, t.m, t.d))
    ensures DateText(t) != [] && IsDigit(DateText(t)[0]) && 'T' !in DateText(t)
  {
    var a, b, c := Four(t.y), Two(t.m), Two(t.d);
    FourPlain(t.y); TwoPlain(t.m); TwoPlain(t.d);
    SplitJoin([a, b, c], '-');
    FourParses(t.y); TwoParses(t.m); TwoParses(t.d);
    JoinThree(a, b, c, '-');
  }

  lemma JoinThree(a: string, b: string, c: string, sep: char)
    ensures Join([a, b, c], sep) == a + [sep] + (b + [sep] + c)
  {
    assert [a, b, c][1..] == [b, c] && [b, c][1..] == [c];
    assert Join([b, c], sep) == b + [sep] + c;
  }

  /** The time half reads back. */
  lemma TimeParses(t: Stamp)
    requires Writable(t)
    ensures Three(Split(TimeText(t), ':')) == Some((t.h, t.mi, t.s))
    ensures '.' !in TimeText(t)
  {
    var a, b, c := Two(t.h), Two(t.mi), Two(t.s);
    TwoPlain(t.h); TwoPlain(t.mi); TwoPlain(t.s);
    SplitJoin([a, b, c], ':');
    TwoParses(t.h); TwoParses(t.mi); TwoParses(t.s);
    JoinThree(a, b, c, ':');
  }

  /** The part before a fraction of a second. */
  lemma FractionDropped(clock: string, fraction: string)
    requires '.' !in clock
    ensures Split(clock + FractionText(fraction), '.')[0] == clock
  {
    var text := clock + FractionText(fraction);
    assert text == if fraction == "" then clock else clock + ['.'] + fraction;
    if fraction == "" {
      SplitHead(clock, "", '.');
    } else {
      SplitHead(clock, fraction, '.');
      assert ([clock] + Split(fraction, '.'))[0] == clock;
    }
  }

  lemma NotTrimmed(text: string)
    requires text != [] && !IsSpace(text[0]) && !IsSpace(text[|text|-1])
    ensures Trim(text) == text
  {
  }

  lemma RenderSplits(t: Stamp, fraction: string)
    requires Writable(t)
    ensures SplitOnce(Trim(Render(t, fraction)), 'T')
      == Some((DateText(t), TimeText(t) + FractionText(fraction) + "Z"))
  {
    DateParses(t);
    var date := DateText(t);
    var time := TimeText(t) + FractionText(fraction) + "Z";
    var text := Render(t, fraction);
    assert text == date + ['T'] + time;
    assert text[0] == date[0] && text[|text|-1] == 'Z';
    NotTrimmed(text);
    SplitOnceAt(date, time, 'T');
  }

  /** What the parser accepts of the fields it reads. */
  predicate InRange(t: Stamp)
  {
    1 <= t.m <= 12 && 1 <= t.d <= 31 && t.h <= 23 && t.mi <= 59 && t.s <= 60
  }

  /** Every `YYYY-MM-DDTHH:MM:SSZ`, with or without a fraction of a second, is read exactly when its fields are in
      range, whatever the digits. */
  lemma ReadsBack(t: Stamp, fraction: string)
    requires Writable(t)
    ensures ParseIsoMs(Render(t, fraction)) == if InRange(t) then Some(MillisOf(t)) else None
  {
    RenderSplits(t, fraction);
    DateParses(t);
    TimeParses(t);
    var clock := TimeText(t);
    var time := clock + FractionText(fraction) + "Z";
    assert time[..|time|-1] == clock + FractionText(fraction);
    FractionDropped(clock, fraction);
  }

  /** A valid stamp of a four-digit year reads back as the milliseconds the naive calendar counts. */
  lemma RoundTrip(t: Stamp, fraction: string)
    requires Valid(t) && 0 <= t.y <= 9999
    ensures ParseIsoMs(Render(t, fraction)) == Some(NaiveMillis(t))
  {
    ReadsBack(t, fraction);
    MillisIsNaive(t);
  }

  /** The day check does not know the month: a day past the end of a short month is read as the day it would be
      counted on into the next month. */
  lemma ShortMonthRollsOver(y: int, m: int, d: int)
    requires 1 <= m <= 12 && MonthDays(y, m) < d <= 31
    ensures m < 12 && ValidDate(y, m + 1, d - MonthDays(y, m))
    ensures Days(y, m, d) == NaiveDays(y, m + 1, d - MonthDays(y, m))
  {
    ClosedFormIsNaive(y, m, 1);
    ClosedFormIsNaive(y, m + 1, d - MonthDays(y, m));
  }

  // ---- every text that is read -------------------------------------------------------------------------

  predicate AllSpace(t: string)
  {
    forall i | 0 <= i < |t| :: IsSpace(t[i])
  }

  lemma {:induction false} TrimLeftPad(left: string, t: string)
    requires AllSpace(left) && (t == [] || !IsSpace(t[0]))
    ensures TrimLeft(left + t) == t
  {
    if left == [] {
      assert left + t == t;
    } else {
      assert (left + t)[1..] == left[1..] + t;
      TrimLeftPad(left[1..], t);
    }
  }

  lemma {:induction false} TrimRightPad(t: string, right: string)
    requires AllSpace(right) && (t == [] || !IsSpace(t[|t|-1]))
    ensures TrimRight(t + right) == t
  {
    if right == [] {
      assert t + right == t;
    } else {
      var n := |right| - 1;
      assert (t + right)[..|t| + n] == t + right[..n];
      TrimRightPad(t, right[..n]);
    }
  }

  lemma TrimPad(left: string, text: string, right: string)
    requires AllSpace(left) && AllSpace(right) && text != [] && !IsSpace(text[0]) && !IsSpace(text[|text|-1])
    ensures Trim(left + text + right) == text
  {
    assert left + text + right == left + (text + right) && (text + right)[0] == text[0];
    TrimLeftPad(left, text + right);
    TrimRightPad(text, right);
  }

  lemma RenderEnds(t: Stamp, fraction: string)
    requires Writable(t)
    ensures var text := Render(t, fraction); text != [] && !IsSpace(text[0]) && !IsSpace(text[|text|-1])
  {
    DateParses(t);
    var text := Render(t, fraction);
    assert text[0] == DateText(t)[0] && text[|text|-1] == 'Z';
  }

  /** White space around the stamp is ignored. */
  lemma PaddedReads(t: Stamp, fraction: string, left: string, right: string)
    requires Writable(t)
    requires forall i | 0 <= i < |left| :: left[i] in " \t\r\n" || IsSpace(left[i])
    requires forall i | 0 <= i < |right| :: right[i] in " \t\r\n" || IsSpace(right[i])
    ensures ParseIsoMs(left + Render(t, fraction) + right) == if InRange(t) then Some(MillisOf(t)) else None
  {
    var text := Render(t, fraction);
    RenderEnds(t, fraction);
    TrimPad(left, text, right);
    NotTrimmed(text);
    ReadsBack(t, fraction);
  }

  lemma {:induction false} TrimLeftIs(t: string) returns (left: string)
    ensures t == left + TrimLeft(t) && AllSpace(left)
  {
    if t != [] && IsSpace(t[0]) {
      left := TrimLeftIs(t[1..]);
      left := [t[0]] + left;
    } else {
      left := [];
    }
  }

  lemma {:induction false} TrimRightIs(t: string) returns (right: string)
    ensures t == TrimRight(t) + right && AllSpace(right)
  {
    if t != [] && IsSpace(t[|t|-1]) {
      right := TrimRightIs(t[..|t|-1]);
      right := right + [t[|t|-1]];
    } else {
      right := [];
    }
  }

  lemma {:induction false} SplitOnceIs(t: string, c: char)
    requires SplitOnce(t, c).Some?
    ensures var (a, b) := SplitOnce(t, c).value; t == a + [c] + b && c !in a
  {
    if t[0] != c { SplitOnceIs(t[1..], c); }
  }

  /** The first piece of a split, and what follows it. */
  lemma FirstPiece(t: string, c: char) returns (rest: string)
    ensures t == Split(t, c)[0] + rest && c !in Split(t, c)[0] && (rest == [] || rest[0] == c)
  {
    var pieces := Split(t, c);
    assert pieces[0] in pieces;
    if |pieces| == 1 {
      rest := [];
    } else {
      rest := [c] + Join(pieces[1..], c);
      assert t == pieces[0] + [c] + Join(pieces[1..], c);
    }
  }

  /** The text splits at `c` into at least three pieces, of which the first three are these numbers. */
  ghost predicate ReadsThree(text: string, c: char, x: int, y: int, z: int)
  {
    exists pieces ::
      (&& |pieces| >= 3 && (forall p | p in pieces :: c !in p) && Join(pieces, c) == text
       && ParseI64(pieces[0]) == Some(x) && ParseI64(pieces[1]) == Some(y) && ParseI64(pieces[2]) == Some(z))
  }

  lemma ThreeIs(text: string, c: char)
    requires Three(Split(text, c)).Some?
    ensures var v := Three(Split(text, c)).value; ReadsThree(text, c, v.0, v.1, v.2)
  {
  }

  lemma TrimIs(text: string) returns (left: string, right: string)
    ensures text == left + Trim(text) + right && AllSpace(left) && AllSpace(right)
  {
    left := TrimLeftIs(text);
    right := TrimRightIs(TrimLeft(text));
  }

  /** The halves of a text that is read. */
  lemma HalvesRead(core: string)
    requires ParseTrimmed(core).Some?
    ensures SplitOnce(core, 'T').Some?
    ensures var time := SplitOnce(core, 'T').value.1; time != [] && time[|time|-1] == 'Z'
  {
  }

  lemma EndsInZ(text: string) returns (time: string)
    requires text != [] && text[|text|-1] == 'Z'
    ensures text == time + "Z"
  {
    time := text[..|text|-1];
  }

  lemma CoreForm(core: string) returns (date: string, time: string)
    requires ParseTrimmed(core).Some?
    ensures core == date + "T" + (time + "Z") && 'T' !in date
    ensures SplitOnce(core, 'T') == Some((date, time + "Z"))
  {
    HalvesRead(core);
    date, time := HalvesAt(core);
  }

  lemma HalvesAt(core: string) returns (date: string, time: string)
    requires SplitOnce(core, 'T').Some?
    requires var time := SplitOnce(core, 'T').value.1; time != [] && time[|time|-1] == 'Z'
    ensures core == date + "T" + (time + "Z") && 'T' !in date
    ensures SplitOnce(core, 'T') == Some((date, time + "Z"))
  {
    SplitOnceIs(core, 'T');
    date := SplitOnce(core, 'T').value.0;
    time := EndsInZ(SplitOnce(core, 'T').value.1);
  }

  lemma CoreFields(core: string, date: string, time: string) returns (t: Stamp)
    requires ParseTrimmed(core).Some? && SplitOnce(core, 'T') == Some((date, time + "Z"))
    ensures ReadsThree(date, '-', t.y, t.m, t.d) && ReadsThree(Split(time, '.')[0], ':', t.h, t.mi, t.s)
    ensures InRange(t) && ParseTrimmed(core) == Some(MillisOf(t))
  {
    assert (time + "Z")[..|time|] == time;
    ThreeIs(date, '-');
    ThreeIs(Split(time, '.')[0], ':');
    var ymd, hms := Three(Split(date, '-')).value, Three(Split(Split(time, '.')[0], ':')).value;
    t := Stamp(ymd.0, ymd.1, ymd.2, hms.0, hms.1, hms.2);
  }

  /** Whatever is read has a date, a `T`, a clock, perhaps a fraction, and a `Z`, with white space around at most; its
      fields are in range, and their closed-form count is the result. */
  lemma AcceptedForm(text: string) returns (left: string, date: string, clock: string, rest: string, right: string, t: Stamp)
    requires ParseIsoMs(text).Some?
    ensures text == left + (date + "T" + (clock + rest + "Z")) + right && AllSpace(left) && AllSpace(right)
    ensures 'T' !in date && '.' !in clock && (rest == "" || rest[0] == '.')
    ensures ReadsThree(date, '-', t.y, t.m, t.d) && ReadsThree(clock, ':', t.h, t.mi, t.s)
    ensures InRange(t) && ParseIsoMs(text) == Some(MillisOf(t))
  {
    left, right := TrimIs(text);
    var time: string;
    date, time := CoreForm(Trim(text));
    t := CoreFields(Trim(text), date, time);
    rest := FirstPiece(time, '.');
    clock := Split(time, '.')[0];
  }

  // ---- numbers ---------------------------------------------------------------------------------------------

  /** The decimal digits of a number, without leading zeros. */
  function Decimal(n: nat): string
  {
    if n < 10 then [Digit(n)] else Decimal(n / 10) + [Digit(n % 10)]
  }

  lemma {:induction false} DecimalValue(n: nat)
    ensures Decimal(n) != [] && AllDigits(Decimal(n)) && Value(Decimal(n)) == n
  {
    if n >= 10 {
      DecimalValue(n / 10);
      assert Decimal(n)[..|Decimal(n)|-1] == Decimal(n / 10);
    } else {
      assert Decimal(n)[..0] == [];
    }
  }

  lemma Unsigned(t: string)
    requires t != [] && AllDigits(t)
    ensures ParseI64(t) == if Value(t) < 0x8000_0000_0000_0000 then Some(Value(t)) else None
  {
    assert IsDigit(t[0]);
  }

  lemma Signed(t: string, c: char)
    requires t != [] && AllDigits(t) && (c == '+' || c == '-')
    ensures var v: int := if c == '-' then 0 - Value(t) else Value(t);
      ParseI64([c] + t) == if -0x8000_0000_0000_0000 <= v < 0x8000_0000_0000_0000 then Some(v) else None
  {
    assert ([c] + t)[1..] == t;
  }

  /** A field is a decimal number with an optional sign, read exactly when it fits a signed 64-bit integer. */
  lemma NumbersRead(n: nat)
    ensures ParseI64(Decimal(n)) == ParseI64(['+'] + Decimal(n)) == if n < 0x8000_0000_0000_0000 then Some(n) else None
    ensures var m: int := 0 - n; ParseI64(['-'] + Decimal(n)) == if n <= 0x8000_0000_0000_0000 then Some(m) else None
  {
    DecimalValue(n);
    Unsigned(Decimal(n));
    Signed(Decimal(n), '+');
    Signed(Decimal(n), '-');
  }
}
