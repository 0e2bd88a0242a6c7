/** Day counting of src/key.rs: `days_from_civil` against a year-by-year, month-by-month account of the Gregorian
    calendar (section 3.2.1 of ISO 8601:2004), and `string_to_time`. */
module Calendar {
  import opened Wrappers
  import opened Numbers

  /** Rust's `/` on `i64`: truncation toward zero. */
  function TruncDiv(a: int, b: int): int
    requires b > 0
  {
    if a >= 0 then a / b else -((-a) / b)
  }

  /** Rust's `%` on `i64`: the sign of the dividend. */
  function TruncRem(a: int, b: int): int
    requires b > 0
  {
    a - b * TruncDiv(a, b)
  }

  function DaysFromCivil(year: int, m: int, d: int): int {
    var y := if m <= 2 then year - 1 else year;
    var era := TruncDiv(if y >= 0 then y else y - 399, 400);
    var yoe := y - era * 400;
    var mp := TruncRem(m + 9, 12);
    var doy := TruncDiv(153 * mp + 2, 5) + d - 1;
    var doe := yoe * 365 + TruncDiv(yoe, 4) - TruncDiv(yoe, 100) + doy;
    era * 146097 + doe - 719468
  }

  // ---------------------------------------------------------------------------------------------
  // The calendar
  // ---------------------------------------------------------------------------------------------

  predicate IsLeap(y: int) {
    y % 4 == 0 && (y % 100 != 0 || y % 400 == 0)
  }

  function YearLength(y: int): int {
    if IsLeap(y) then 366 else 365
  }

  function MonthLength(y: int, m: int): int {
    if m == 2 then if IsLeap(y) then 29 else 28
    else if m in {4, 6, 9, 11} then 30
    else 31
  }

  datatype Date = Date(y: int, m: int, d: int)

  predicate Valid(date: Date) {
    1 <= date.m <= 12 && 1 <= date.d <= MonthLength(date.y, date.m)
  }

  function NextDay(date: Date): Date {
    if date.d < MonthLength(date.y, date.m) then Date(date.y, date.m, date.d + 1)
    else if date.m < 12 then Date(date.y, date.m + 1, 1)
    else Date(date.y + 1, 1, 1)
  }

  /** Day number of 1 January: the lengths of the years in between, summed up from 1970. */
  function YearStart(y: int): int
    decreases if y < 1970 then 1970 - y else y - 1970
  {
    if y == 1970 then 0
    else if y > 1970 then YearStart(y - 1) + YearLength(y - 1)
    else YearStart(y + 1) - YearLength(y)
  }

  /** Days of the year before the first of the month. */
  function MonthStart(y: int, m: int): int
    requires 1 <= m <= 13
  {
    if m == 1 then 0 else MonthStart(y, m - 1) + MonthLength(y, m - 1)
  }

  /** Day number of a date, counted day by day from 1970-01-01. */
  function DayNumber(date: Date): int
    requires Valid(date)
  {
    YearStart(date.y) + MonthStart(date.y, date.m) + date.d - 1
  }

  // ---------------------------------------------------------------------------------------------
  // The closed form is the day-by-day count
  // ---------------------------------------------------------------------------------------------

  /** `era` is the floor of the division by 400, for negative years too. */
  lemma {:induction false} EraIsFloor(y: int)
    ensures var era := TruncDiv(if y >= 0 then y else y - 399, 400); 0 <= y - era * 400 < 400 && era == y / 400
  {
  }

  /** Days from the start of a computational year, which begins on 1 March, to the next. */
  function MarchYear(y: int): int {
    y / 400 * 146097 + (y % 400) * 365 + (y % 400) / 4 - (y % 400) / 100
  }

  lemma {:induction false} RemainderBy100(y: int, q: int, r: int)
    requires y == 100 * q + r
    ensures y % 100 == r % 100
  {
  }

  lemma {:induction false} RemainderBy4(y: int, q: int, r: int)
    requires y == 4 * q + r
    ensures y % 4 == r % 4
  {
  }

  /** Quotient and remainder by 400 are determined by the number, and so are the remainders by 100 and by 4. */
  lemma {:induction false} SplitBy400(y: int, q: int, r: int)
    requires y == 400 * q + r && 0 <= r < 400
    ensures y / 400 == q && y % 400 == r && y % 100 == r % 100 && y % 4 == r % 4
  {
    RemainderBy100(y, 4 * q, r);
    RemainderBy4(y, 100 * q, r);
  }

  lemma {:induction false} MarchYearStep(y: int)
    ensures MarchYear(y) == MarchYear(y - 1) + YearLength(y)
  {
    var q, r := y / 400, y % 400;
    SplitBy400(y, q, r);
    if r == 0 {
      SplitBy400(y - 1, q - 1, 399);
    } else {
      SplitBy400(y - 1, q, r - 1);
      MarchYearCarry(r);
    }
  }

  lemma {:induction false} MarchYearCarry(r: int)
    requires 0 < r < 400
    ensures r / 4 - (r - 1) / 4 == (if r % 4 == 0 then 1 else 0)
    ensures r / 100 - (r - 1) / 100 == (if r % 100 == 0 then 1 else 0)
  {
  }

  lemma {:induction false} ClosedForm(y: int, m: int, d: int)
    requires 1 <= m <= 12
    ensures DaysFromCivil(y, m, d) ==
            MarchYear(if m <= 2 then y - 1 else y) + (153 * (if m <= 2 then m + 9 else m - 3) + 2) / 5 + d - 1 - 719468
  {
    EraIsFloor(if m <= 2 then y - 1 else y);
  }

  lemma {:induction false} MonthStartIs(y: int, m: int)
    requires 1 <= m <= 12
    ensures MonthStart(y, m) + (if m <= 2 then 0 else 365 - YearLength(y)) == [0, 31, 59, 90, 120, 151, 181, 212, 243, 273, 304, 334][m - 1]
  {
    assert MonthStart(y, 2) == 31;
    assert m >= 3 ==> MonthStart(y, 3) == 59 + YearLength(y) - 365;
    assert m >= 4 ==> MonthStart(y, 4) == 90 + YearLength(y) - 365;
    assert m >= 5 ==> MonthStart(y, 5) == 120 + YearLength(y) - 365;
    assert m >= 6 ==> MonthStart(y, 6) == 151 + YearLength(y) - 365;
    assert m >= 7 ==> MonthStart(y, 7) == 181 + YearLength(y) - 365;
    assert m >= 8 ==> MonthStart(y, 8) == 212 + YearLength(y) - 365;
    assert m >= 9 ==> MonthStart(y, 9) == 243 + YearLength(y) - 365;
    assert m >= 10 ==> MonthStart(y, 10) == 273 + YearLength(y) - 365;
    assert m >= 11 ==> MonthStart(y, 11) == 304 + YearLength(y) - 365;
    assert m >= 12 ==> MonthStart(y, 12) == 334 + YearLength(y) - 365;
  }

  /** The day of the computational year on which a month starts. */
  lemma {:induction false} MarchMonthIs(m: int)
    requires 1 <= m <= 12
    ensures (153 * (if m <= 2 then m + 9 else m - 3) + 2) / 5 ==
            [0, 31, 59, 90, 120, 151, 181, 212, 243, 273, 304, 334][m - 1] + if m <= 2 then 306 else -59
  {
  }

  /** Within a year the closed form counts the days of the months. */
  lemma {:induction false} WithinYear(y: int, m: int, d: int)
    requires 1 <= m <= 12
    ensures DaysFromCivil(y, m, d) == DaysFromCivil(y, 1, 1) + MonthStart(y, m) + d - 1
  {
    ClosedForm(y, m, d);
    ClosedForm(y, 1, 1);
    MarchYearStep(y);
    MarchMonthIs(m);
    MarchMonthIs(1);
    MonthStartIs(y, m);
  }

  lemma {:induction false} YearStartIs(y: int)
    ensures DaysFromCivil(y, 1, 1) == YearStart(y)
    decreases if y < 1970 then 1970 - y else y - 1970
  {
    if y > 1970 {
      YearStartIs(y - 1);
      ClosedForm(y, 1, 1);
      ClosedForm(y - 1, 1, 1);
      MarchYearStep(y - 1);
    } else if y < 1970 {
      YearStartIs(y + 1);
      ClosedForm(y, 1, 1);
      ClosedForm(y + 1, 1, 1);
      MarchYearStep(y);
    }
  }

  /** `days_from_civil` is the day-by-day count from 1970-01-01, for every valid date of every year. */
  lemma {:induction false} DaysFromCivilCountsDays(date: Date)
    requires Valid(date)
    ensures DaysFromCivil(date.y, date.m, date.d) == DayNumber(date)
  {
    WithinYear(date.y, date.m, date.d);
    YearStartIs(date.y);
  }

  lemma {:induction false} MonthsFillYear(y: int)
    ensures MonthStart(y, 13) == YearLength(y)
  {
    MonthStartIs(y, 12);
    assert MonthStart(y, 13) == MonthStart(y, 12) + 31;
  }

  /** The next day of the calendar is always exactly one more, and 1970-01-01 is day 0. */
  lemma {:induction false} NextDayIsOneMore(date: Date)
    requires Valid(date)
    ensures Valid(NextDay(date))
    ensures var next := NextDay(date); DaysFromCivil(next.y, next.m, next.d) == DaysFromCivil(date.y, date.m, date.d) + 1
    ensures DaysFromCivil(1970, 1, 1) == 0
  {
    NextDayCounts(date);
    DaysFromCivilCountsDays(date);
    DaysFromCivilCountsDays(NextDay(date));
    DaysFromCivilCountsDays(Date(1970, 1, 1));
  }

  lemma {:induction false} NextDayCounts(date: Date)
    requires Valid(date)
    ensures Valid(NextDay(date)) && DayNumber(NextDay(date)) == DayNumber(date) + 1
  {
    MonthsFillYear(date.y);
    YearStartStep(date.y);
  }

  lemma {:induction false} YearStartStep(y: int)
    ensures YearStart(y + 1) == YearStart(y) + YearLength(y)
  {
  }

  lemma {:induction false} MonthStartGrows(y: int, m: int, n: int)
    requires 1 <= m < n <= 13
    ensures MonthStart(y, m) + MonthLength(y, m) <= MonthStart(y, n)
    decreases n
  {
    if m < n - 1 { MonthStartGrows(y, m, n - 1); }
  }

  lemma {:induction false} YearStartGrows(y: int, z: int)
    requires y < z
    ensures YearStart(y) + YearLength(y) <= YearStart(z)
    decreases z - y
  {
    YearStartStep(z - 1);
    if y < z - 1 { YearStartGrows(y, z - 1); }
  }

  predicate Earlier(a: Date, b: Date) {
    a.y < b.y || (a.y == b.y && (a.m < b.m || (a.m == b.m && a.d < b.d)))
  }

  lemma {:induction false} DayOfYearFits(date: Date)
    requires Valid(date)
    ensures 0 <= DayNumber(date) - YearStart(date.y) < YearLength(date.y)
  {
    if date.m > 1 { MonthStartGrows(date.y, 1, date.m); }
    MonthStartGrows(date.y, date.m, 13);
    MonthsFillYear(date.y);
  }

  /** Later dates have larger numbers; so no two dates share one. */
  lemma {:induction false} DaysAreOrdered(a: Date, b: Date)
    requires Valid(a) && Valid(b) && Earlier(a, b)
    ensures DaysFromCivil(a.y, a.m, a.d) < DaysFromCivil(b.y, b.m, b.d)
  {
    DaysFromCivilCountsDays(a);
    DaysFromCivilCountsDays(b);
    if a.y < b.y {
      DayOfYearFits(a);
      DayOfYearFits(b);
      YearStartGrows(a.y, b.y);
    } else if a.m < b.m {
      MonthStartGrows(a.y, a.m, b.m);
    }
  }

  // ---------------------------------------------------------------------------------------------
  // Time stamps
  // ---------------------------------------------------------------------------------------------

  function Position(s: string, c: char): (n: nat)
    ensures n <= |s| && c !in s[..n] && (n < |s| ==> s[n] == c)
  {
    if s == "" || s[0] == c then 0
    else
      var n := 1 + Position(s[1..], c);
      assert s[..n] == [s[0]] + s[1..][..n - 1];
      n
  }

  /** `split(c)` */
  function Split(s: string, c: char): seq<string>
    decreases |s|
  {
    var n := Position(s, c);
    if n == |s| then [s] else [s[..n]] + Split(s[n + 1..], c)
  }

  /** The first three parts, parsed; further parts are ignored. */
  function Triple(s: string, c: char): Option<(int, int, int)> {
    var parts := Split(s, c);
    if |parts| < 3 then None
    else
      match (ParseI64(parts[0]), ParseI64(parts[1]), ParseI64(parts[2]))
      case (Some(p), Some(q), Some(r)) => Some((p, q, r))
      case _ => None
  }

  function SecondsOf(date: Date, h: int, mi: int, sec: int): int {
    DaysFromCivil(date.y, date.m, date.d) * 86400 + h * 3600 + mi * 60 + sec
  }

  function StringToTime(s: string): Option<int> {
    var n := Position(s, ' ');
    if n == |s| then None
    else
      match (Triple(s[..n], '-'), Triple(s[n + 1..], ':'))
      case (Some((y, m, d)), Some((h, mi, sec))) => Some(SecondsOf(Date(y, m, d), h, mi, sec))
      case _ => None
  }

  lemma {:induction false} PositionIs(a: string, c: char, b: string)
    requires c !in a
    ensures Position(a + [c] + b, c) == |a| && Position(a, c) == |a|
  {
    if a == "" {
    } else {
      assert (a + [c] + b)[1..] == a[1..] + [c] + b;
      PositionIs(a[1..], c, b);
    }
  }

  lemma {:induction false} SplitAt(a: string, c: char, b: string)
    requires c !in a
    ensures Split(a, c) == [a] && Split(a + [c] + b, c) == [a] + Split(b, c)
  {
    PositionIs(a, c, b);
    assert (a + [c] + b)[..|a|] == a && (a + [c] + b)[|a| + 1..] == b;
  }

  lemma {:induction false} ParsedHasNoSeparator(s: string)
    requires ParseI64(s).Some?
    ensures ' ' !in s && ':' !in s
  {
    forall k | 0 <= k < |s| ensures s[k] != ' ' && s[k] != ':' {
      if k > 0 && (s[0] == '+' || s[0] == '-') { assert s[k] == s[1..][k - 1]; }
    }
  }

  lemma {:induction false} TripleOf(a: string, b: string, d: string, c: char)
    requires c !in a && c !in b && c !in d && ParseI64(a).Some? && ParseI64(b).Some? && ParseI64(d).Some?
    ensures Triple(a + [c] + (b + [c] + d), c) == Some((ParseI64(a).value, ParseI64(b).value, ParseI64(d).value))
  {
    SplitAt(a, c, b + [c] + d);
    SplitAt(b, c, d);
    SplitAt(d, c, "");
  }

  /** The date a string that is read starts with. */
  function DateOf(s: string): Option<(int, int, int)> {
    var n := Position(s, ' ');
    if n == |s| then None else Triple(s[..n], '-')
  }

  /** The six fields of a time stamp, as they are written. */
  datatype Stamp = Stamp(y: string, m: string, d: string, h: string, mi: string, sec: string)

  function Written(st: Stamp): string {
    (st.y + "-" + (st.m + "-" + st.d)) + " " + (st.h + ":" + (st.mi + ":" + st.sec))
  }

  /** Every field is a number, and no dash gets between those of the date. */
  predicate Parses(st: Stamp) {
    && ParseI64(st.y).Some? && ParseI64(st.m).Some? && ParseI64(st.d).Some?
    && ParseI64(st.h).Some? && ParseI64(st.mi).Some? && ParseI64(st.sec).Some?
    && '-' !in st.y && '-' !in st.m && '-' !in st.d
  }

  function Day(st: Stamp): Date
    requires Parses(st)
  {
    Date(ParseI64(st.y).value, ParseI64(st.m).value, ParseI64(st.d).value)
  }

  /** Time strings like those of the key table parse into their six fields. */
  lemma {:induction false} StampParses(st: Stamp)
    requires Parses(st)
    ensures StringToTime(Written(st)) ==
            Some(SecondsOf(Day(st), ParseI64(st.h).value, ParseI64(st.mi).value, ParseI64(st.sec).value))
    ensures DateOf(Written(st)) == Some((Day(st).y, Day(st).m, Day(st).d))
  {
    var date, time := st.y + "-" + (st.m + "-" + st.d), st.h + ":" + (st.mi + ":" + st.sec);
    FieldsAreClean(st);
    TripleOf(st.y, st.m, st.d, '-');
    TripleOf(st.h, st.mi, st.sec, ':');
    SplitAtBlank(date, time);
  }

  lemma {:induction false} SplitAtBlank(date: string, time: string)
    requires ' ' !in date
    ensures var n := Position(date + " " + time, ' ');
      n == |date| < |date + " " + time| && (date + " " + time)[..n] == date && (date + " " + time)[n + 1..] == time
  {
    PositionIs(date, ' ', time);
  }

  // ---------------------------------------------------------------------------------------------
  // Which strings are read
  // ---------------------------------------------------------------------------------------------

  /** Something that the parser ignores behind the last field. */
  predicate Ignored(tail: string, c: char) {
    tail == "" || tail[0] == c
  }

  function Fields(a: string, b: string, d: string, c: char, tail: string): string {
    a + [c] + (b + [c] + (d + tail))
  }

  /** `s` is the stamp as written, but for ignored text behind the date and behind the time. */
  predicate Spells(s: string, st: Stamp, dateTail: string, timeTail: string) {
    && Parses(st) && ' ' !in dateTail && Ignored(dateTail, '-') && Ignored(timeTail, ':')
    && s == Fields(st.y, st.m, st.d, '-', dateTail) + " " + Fields(st.h, st.mi, st.sec, ':', timeTail)
  }

  lemma {:induction false} FirstPart(a: string, c: char, tail: string)
    requires c !in a && Ignored(tail, c)
    ensures |Split(a + tail, c)| >= 1 && Split(a + tail, c)[0] == a
  {
    SplitAt(a, c, "");
    if tail == "" {
      assert a + tail == a;
    } else {
      SplitAt(a, c, tail[1..]);
      assert a + tail == a + [c] + tail[1..];
    }
  }

  lemma {:induction false} TripleOfFields(a: string, b: string, d: string, c: char, tail: string)
    requires c !in a && c !in b && c !in d && Ignored(tail, c)
    requires ParseI64(a).Some? && ParseI64(b).Some? && ParseI64(d).Some?
    ensures Triple(Fields(a, b, d, c, tail), c) == Some((ParseI64(a).value, ParseI64(b).value, ParseI64(d).value))
  {
    SplitAt(a, c, b + [c] + (d + tail));
    SplitAt(b, c, d + tail);
    FirstPart(d, c, tail);
  }

  lemma {:induction false} FieldsHaveNoBlank(a: string, b: string, d: string, c: char, tail: string)
    requires c != ' '
    ensures ' ' !in Fields(a, b, d, c, tail) <==> ' ' !in a && ' ' !in b && ' ' !in d && ' ' !in tail
  {
  }

  /** Where a string is cut first. */
  lemma {:induction false} FirstCut(s: string, c: char) returns (a: string, rest: string)
    ensures c !in a && |Split(s, c)| >= 1 && a == Split(s, c)[0]
    ensures |Split(s, c)| > 1 ==> s == a + [c] + rest && Split(s, c)[1..] == Split(rest, c)
    ensures |Split(s, c)| == 1 ==> s == a && rest == ""
  {
    var n := Position(s, c);
    a := s[..n];
    rest := if n < |s| then s[n + 1..] else "";
    if n < |s| {
      assert s == s[..n] + [c] + s[n + 1..];
      assert |Split(rest, c)| >= 1;
    } else {
      assert s[..n] == s;
    }
  }

  /** What is behind the first part is ignored, if no more parts are wanted. */
  lemma {:induction false} LastCut(s: string, c: char) returns (a: string, tail: string)
    ensures c !in a && |Split(s, c)| >= 1 && a == Split(s, c)[0] && Ignored(tail, c) && s == a + tail
  {
    var rest;
    a, rest := FirstCut(s, c);
    tail := "";
    if |Split(s, c)| > 1 {
      tail := [c] + rest;
      assert a + [c] + rest == a + tail;
    }
  }

  lemma {:induction false} PiecesOfTriple(s: string, c: char) returns (a: string, b: string, d: string, tail: string)
    requires Triple(s, c).Some?
    ensures c !in a && c !in b && c !in d && Ignored(tail, c) && s == Fields(a, b, d, c, tail)
    ensures ParseI64(a).Some? && ParseI64(b).Some? && ParseI64(d).Some?
  {
    var rest, rest';
    ghost var parts := Split(s, c);
    a, rest := FirstCut(s, c);
    assert Split(rest, c) == parts[1..];
    b, rest' := FirstCut(rest, c);
    assert Split(rest', c) == parts[1..][1..];
    d, tail := LastCut(rest', c);
    assert b == parts[1] && d == parts[2];
  }

  lemma {:induction false} FieldsAreClean(st: Stamp)
    requires Parses(st)
    ensures ' ' !in st.y && ' ' !in st.m && ' ' !in st.d && ' ' !in st.h && ' ' !in st.mi && ' ' !in st.sec
    ensures ':' !in st.h && ':' !in st.mi && ':' !in st.sec
  {
    ParsedHasNoSeparator(st.y);
    ParsedHasNoSeparator(st.m);
    ParsedHasNoSeparator(st.d);
    ParsedHasNoSeparator(st.h);
    ParsedHasNoSeparator(st.mi);
    ParsedHasNoSeparator(st.sec);
  }

  /** Spelled strings are read as their stamp is. */
  lemma {:induction false} SpelledIsRead(s: string, st: Stamp, dateTail: string, timeTail: string)
    requires Spells(s, st, dateTail, timeTail)
    ensures StringToTime(s).Some? && StringToTime(s) == StringToTime(Written(st))
  {
    StampParses(st);
    FieldsAreClean(st);
    TripleOfFields(st.y, st.m, st.d, '-', dateTail);
    TripleOfFields(st.h, st.mi, st.sec, ':', timeTail);
    FieldsHaveNoBlank(st.y, st.m, st.d, '-', dateTail);
    ReadInTwo(Fields(st.y, st.m, st.d, '-', dateTail), Fields(st.h, st.mi, st.sec, ':', timeTail), Day(st),
              (ParseI64(st.h).value, ParseI64(st.mi).value, ParseI64(st.sec).value));
  }

  lemma {:induction false} ReadInTwo(date: string, time: string, day: Date, clock: (int, int, int))
    requires ' ' !in date && Triple(date, '-') == Some((day.y, day.m, day.d)) && Triple(time, ':') == Some(clock)
    ensures StringToTime(date + " " + time) == Some(SecondsOf(day, clock.0, clock.1, clock.2))
  {
    SplitAtBlank(date, time);
  }

  lemma {:induction false} ReadIsInTwo(s: string) returns (date: string, time: string)
    requires StringToTime(s).Some?
    ensures s == date + " " + time && ' ' !in date && Triple(date, '-').Some? && Triple(time, ':').Some?
  {
    var n := Position(s, ' ');
    date, time := s[..n], s[n + 1..];
  }

  lemma {:induction false} ReadIsSpelled(s: string) returns (st: Stamp, dateTail: string, timeTail: string)
    requires StringToTime(s).Some?
    ensures Spells(s, st, dateTail, timeTail)
  {
    var date, time := ReadIsInTwo(s);
    var y, m, d, h, mi, sec;
    y, m, d, dateTail := PiecesOfTriple(date, '-');
    h, mi, sec, timeTail := PiecesOfTriple(time, ':');
    FieldsHaveNoBlank(y, m, d, '-', dateTail);
    st := Stamp(y, m, d, h, mi, sec);
  }

  /** What is read: exactly the strings that spell a stamp, each as that stamp alone; everything else is refused. */
  lemma {:induction false} IsReadIff(s: string)
    ensures StringToTime(s).Some? <==> exists st, dateTail, timeTail :: Spells(s, st, dateTail, timeTail)
    ensures forall st, dateTail, timeTail :: Spells(s, st, dateTail, timeTail) ==> StringToTime(s) == StringToTime(Written(st))
  {
    if StringToTime(s).Some? {
      var st, dateTail, timeTail := ReadIsSpelled(s);
    }
    forall st, dateTail, timeTail | Spells(s, st, dateTail, timeTail)
      ensures StringToTime(s).Some? && StringToTime(s) == StringToTime(Written(st))
    {
      SpelledIsRead(s, st, dateTail, timeTail);
    }
  }

  // ---------------------------------------------------------------------------------------------
  // Which dates can be read
  // ---------------------------------------------------------------------------------------------

  lemma {:induction false} PartsHaveNoSeparator(s: string, c: char)
    ensures forall k :: 0 <= k < |Split(s, c)| ==> c !in Split(s, c)[k]
    decreases |s|
  {
    var n := Position(s, c);
    assert c !in s[..n];
    if n == |s| {
      assert s[..n] == s;
    } else {
      PartsHaveNoSeparator(s[n + 1..], c);
    }
  }

  /** Negative years are not read, although `days_from_civil` counts them, because the date is split at dashes: in
      every string that is read, wherever its dashes are, year, month and day are not negative. */
  lemma {:induction false} NegativeYearsFail(s: string)
    requires StringToTime(s).Some?
    ensures DateOf(s).Some?
    ensures var (y, m, d) := DateOf(s).value; 0 <= y <= I64_MAX && 0 <= m <= I64_MAX && 0 <= d <= I64_MAX
  {
    PartsHaveNoSeparator(s[..Position(s, ' ')], '-');
  }

  lemma {:induction false} DecimalParses(n: nat)
    requires n <= I64_MAX
    ensures ParseI64(Decimal(n)) == Some(n) && '-' !in Decimal(n)
  {
    ValueOfDecimal(n);
    ParsesSigned("", Decimal(n));
    assert "" + Decimal(n) == Decimal(n);
  }

  /** A date can be read from some string if and only if its year is not negative, nor its month and day, and all fit
      into 64 bits. */
  lemma {:induction false} DateIsReadableIff(y: int, m: int, d: int)
    ensures (exists s :: StringToTime(s).Some? && DateOf(s) == Some((y, m, d))) <==>
            0 <= y <= I64_MAX && 0 <= m <= I64_MAX && 0 <= d <= I64_MAX
  {
    if exists s :: StringToTime(s).Some? && DateOf(s) == Some((y, m, d)) {
      var s :| StringToTime(s).Some? && DateOf(s) == Some((y, m, d));
      NegativeYearsFail(s);
    }
    if 0 <= y <= I64_MAX && 0 <= m <= I64_MAX && 0 <= d <= I64_MAX {
      var st := Stamp(Decimal(y), Decimal(m), Decimal(d), Decimal(0), Decimal(0), Decimal(0));
      DecimalParses(y);
      DecimalParses(m);
      DecimalParses(d);
      DecimalParses(0);
      StampParses(st);
      assert StringToTime(Written(st)).Some? && DateOf(Written(st)) == Some((y, m, d));
    }
  }

  // ---------------------------------------------------------------------------------------------
  // The order of time stamps
  // ---------------------------------------------------------------------------------------------

  predicate ValidTime(h: int, mi: int, sec: int) {
    0 <= h < 24 && 0 <= mi < 60 && 0 <= sec < 60
  }

  /** A point in time, by its six numbers. */
  datatype Moment = Moment(day: Date, h: int, mi: int, sec: int)

  predicate InRange(t: Moment) {
    Valid(t.day) && ValidTime(t.h, t.mi, t.sec)
  }

  predicate Before(a: Moment, b: Moment) {
    Earlier(a.day, b.day) ||
    (a.day == b.day && (a.h < b.h || (a.h == b.h && (a.mi < b.mi || (a.mi == b.mi && a.sec < b.sec)))))
  }

  function Seconds(t: Moment): int {
    SecondsOf(t.day, t.h, t.mi, t.sec)
  }

  lemma {:induction false} SecondsIncrease(a: Moment, b: Moment)
    requires InRange(a) && InRange(b) && Before(a, b)
    ensures Seconds(a) < Seconds(b)
  {
    if Earlier(a.day, b.day) {
      DaysAreOrdered(a.day, b.day);
    }
  }

  function MomentOf(st: Stamp): Moment
    requires Parses(st)
  {
    Moment(Day(st), ParseI64(st.h).value, ParseI64(st.mi).value, ParseI64(st.sec).value)
  }

  lemma {:induction false} StampSeconds(st: Stamp)
    requires Parses(st)
    ensures StringToTime(Written(st)) == Some(Seconds(MomentOf(st)))
  {
    StampParses(st);
  }

  /** Of two time stamps with fields in range, the one that comes first in the calendar is read as the smaller number,
      and only that one: `string_to_time` is strictly increasing in the six fields. */
  lemma {:induction false} TimeIsIncreasing(a: Stamp, b: Stamp)
    requires Parses(a) && Parses(b) && InRange(MomentOf(a)) && InRange(MomentOf(b))
    ensures StringToTime(Written(a)).Some? && StringToTime(Written(b)).Some?
    ensures StringToTime(Written(a)).value < StringToTime(Written(b)).value <==> Before(MomentOf(a), MomentOf(b))
  {
    StampSeconds(a);
    StampSeconds(b);
    var t, u := MomentOf(a), MomentOf(b);
    if Before(t, u) {
      SecondsIncrease(t, u);
    } else if t != u {
      SecondsIncrease(u, t);
    }
  }

  /** One second later on the clock and the calendar. */
  function NextSecond(t: Moment): Moment {
    if t.sec < 59 then t.(sec := t.sec + 1)
    else if t.mi < 59 then t.(mi := t.mi + 1, sec := 0)
    else if t.h < 23 then t.(h := t.h + 1, mi := 0, sec := 0)
    else Moment(NextDay(t.day), 0, 0, 0)
  }

  /** A stamp one second later, across the ends of minutes, hours, days, months and years, is read as the next number,
      and midnight of 1 January 1970 as 0: `string_to_time` counts seconds. */
  lemma {:induction false} TimeCountsSeconds(a: Stamp, b: Stamp) returns (n: int)
    requires Parses(a) && Parses(b) && InRange(MomentOf(a)) && MomentOf(b) == NextSecond(MomentOf(a))
    ensures InRange(MomentOf(b))
    ensures StringToTime(Written(a)) == Some(n) && StringToTime(Written(b)) == Some(n + 1)
    ensures MomentOf(a) == Moment(Date(1970, 1, 1), 0, 0, 0) ==> n == 0
  {
    SecondsCount(MomentOf(a));
    n := Seconds(MomentOf(a));
    ReadsAs(a, n);
    ReadsAs(b, n + 1);
  }

  lemma {:induction false} ReadsAs(st: Stamp, n: int)
    requires Parses(st) && Seconds(MomentOf(st)) == n
    ensures StringToTime(Written(st)) == Some(n)
  {
    StampSeconds(st);
  }

  lemma {:induction false} SecondsCount(t: Moment)
    requires InRange(t)
    ensures InRange(NextSecond(t)) && Seconds(NextSecond(t)) == Seconds(t) + 1
    ensures t == Moment(Date(1970, 1, 1), 0, 0, 0) ==> Seconds(t) == 0
  {
    NextDayIsOneMore(t.day);
    var days, next := DaysFromCivil(t.day.y, t.day.m, t.day.d), NextDay(t.day);
    SecondsOfDay(days, t.h, t.mi, t.sec);
    assert DaysFromCivil(next.y, next.m, next.d) == days + 1;
  }

  lemma {:induction false} SecondsOfDay(days: int, h: int, mi: int, sec: int)
    ensures sec == 59 && mi == 59 && h == 23 ==> days * 86400 + h * 3600 + mi * 60 + sec + 1 == (days + 1) * 86400
  {
  }

  /** The years within 290 thousand million of year 0. */
  predicate NearYear(y: int) {
    -290_000_000_000 <= y <= 290_000_000_000
  }

  /** No 64-bit overflow in `days_from_civil` near year 0: every intermediate result fits... */
  lemma {:induction false} NoOverflowInDays(date: Date)
    requires Valid(date) && NearYear(date.y)
    ensures var y := if date.m <= 2 then date.y - 1 else date.y;
      var era := TruncDiv(if y >= 0 then y else y - 399, 400);
      var yoe := y - era * 400;
      var mp := TruncRem(date.m + 9, 12);
      var doy := TruncDiv(153 * mp + 2, 5) + date.d - 1;
      var doe := yoe * 365 + TruncDiv(yoe, 4) - TruncDiv(yoe, 100) + doy;
      && FitsI64(y) && FitsI64(y - 399) && FitsI64(era) && FitsI64(era * 400) && FitsI64(yoe)
      && FitsI64(153 * mp + 2) && FitsI64(TruncDiv(153 * mp + 2, 5) + date.d) && FitsI64(doy)
      && FitsI64(yoe * 365) && FitsI64(yoe * 365 + TruncDiv(yoe, 4)) && FitsI64(yoe * 365 + TruncDiv(yoe, 4) - TruncDiv(yoe, 100))
      && FitsI64(doe) && FitsI64(era * 146097) && FitsI64(era * 146097 + doe) && FitsI64(DaysFromCivil(date.y, date.m, date.d))
    ensures -106_000_000_000_000 <= DaysFromCivil(date.y, date.m, date.d) <= 106_000_000_000_000
  {
    EraIsFloor(if date.m <= 2 then date.y - 1 else date.y);
  }

  /** ... and so does every one of `string_to_time`. */
  lemma {:induction false} NoOverflow(t: Moment)
    requires InRange(t) && NearYear(t.day.y)
    ensures var days := DaysFromCivil(t.day.y, t.day.m, t.day.d);
      && FitsI64(days * 86400) && FitsI64(t.h * 3600) && FitsI64(days * 86400 + t.h * 3600) && FitsI64(t.mi * 60)
      && FitsI64(days * 86400 + t.h * 3600 + t.mi * 60) && FitsI64(Seconds(t))
  {
    NoOverflowInDays(t.day);
  }
}
