/** Timestamps as text. isoformat drops the fraction when microseconds are zero and ends in the UTC
    offset; SQLite compares the text byte by byte. */
module Timestamps {
  import opened Domain

  // ---------------------------------------------------------------- calendar

  predicate IsLeap(y: int) {
    y % 4 == 0 && (y % 100 != 0 || y % 400 == 0)
  }

  function DaysInMonth(y: int, m: int): int {
    if m == 2 then (if IsLeap(y) then 29 else 28)
    else if m == 4 || m == 6 || m == 9 || m == 11 then 30
    else 31
  }

  /** A local date and time; offset is the UTC offset in minutes. */
  datatype Moment = Moment(
    year: int, month: int, day: int, hour: int, minute: int, second: int, micro: int, offset: int)

  predicate IsMoment(t: Moment) {
    && 1 <= t.year <= 9999 && 1 <= t.month <= 12 && 1 <= t.day <= DaysInMonth(t.year, t.month)
    && 0 <= t.hour < 24 && 0 <= t.minute < 60 && 0 <= t.second < 60 && 0 <= t.micro < 1000000
    && -1440 < t.offset < 1440
  }

  type DateTime = t: Moment | IsMoment(t) witness Moment(1, 1, 1, 0, 0, 0, 0, 0)

  function DaysBeforeYear(y: int): int {
    (y - 1) * 365 + (y - 1) / 4 - (y - 1) / 100 + (y - 1) / 400
  }

  function DaysBeforeMonth(y: int, m: int): (d: int)
    requires 1 <= m <= 12
  {
    if m == 1 then 0 else DaysBeforeMonth(y, m - 1) + DaysInMonth(y, m - 1)
  }

  function DayNumber(t: DateTime): int {
    DaysBeforeYear(t.year) + DaysBeforeMonth(t.year, t.month) + t.day
  }

  function SecondOfDay(t: DateTime): int {
    t.hour * 3600 + t.minute * 60 + t.second
  }

  /** Microseconds on the UTC time line. */
  function Instant(t: DateTime): int {
    (DayNumber(t) * 86400 + SecondOfDay(t) - t.offset * 60) * 1000000 + t.micro
  }

  // ---------------------------------------------------------------- text

  function Digit(d: int): (c: char)
    requires 0 <= d <= 9
    ensures '0' <= c <= '9'
  {
    ('0' as int + d) as char
  }

  function Power10(w: nat): (p: int)
    ensures p >= 1
  {
    if w == 0 then 1 else 10 * Power10(w - 1)
  }

  /** n in decimal, padded with zeros to width w. */
  function Padded(n: int, w: nat): (s: string)
    requires 0 <= n < Power10(w)
    ensures |s| == w
  {
    if w == 0 then ""
    else Padded(n / 10, w - 1) + [Digit(n % 10)]
  }

  function Fraction(micro: int): string
    requires 0 <= micro < 1000000
  {
    assert Power10(6) == 1000000;
    if micro == 0 then "" else "." + Padded(micro, 6)
  }

  function OffsetText(offset: int): string
    requires -1440 < offset < 1440
  {
    var m := if offset < 0 then -offset else offset;
    assert Power10(2) == 100;
    (if offset < 0 then "-" else "+") + Padded(m / 60, 2) + ":" + Padded(m % 60, 2)
  }

  /** datetime.isoformat() of an aware datetime. */
  function Format(t: DateTime): string {
    assert Power10(4) == 10000 && Power10(2) == 100;
    Padded(t.year, 4) + ("-" + (Padded(t.month, 2) + ("-" + (Padded(t.day, 2) + ("T" +
    (Padded(t.hour, 2) + (":" + (Padded(t.minute, 2) + (":" + (Padded(t.second, 2) +
    (Fraction(t.micro) + OffsetText(t.offset))))))))))))
  }

  /** _dt_to_str: a naive datetime, which has no offset, is taken to be UTC. */
  function DtToStr(local: DateTime, aware: bool): string {
    Format(if aware then local else local.(offset := 0))
  }

  // ---------------------------------------------------------------- text order

  /** Byte order, as SQLite's default collation sorts text. */
  predicate TextLess(s: string, t: string) {
    if t == "" then false
    else if s == "" then true
    else s[0] < t[0] || (s[0] == t[0] && TextLess(s[1..], t[1..]))
  }

  lemma TextLessSkips(p: string, s: string, t: string)
    ensures TextLess(p + s, p + t) <==> TextLess(s, t)
  {
    if p == "" {
      assert p + s == s && p + t == t;
    } else {
      TextLessSkips(p[1..], s, t);
      assert (p + s)[1..] == p[1..] + s && (p + t)[1..] == p[1..] + t;
    }
  }

  lemma TextLessByFirst(c: char, d: char, s: string, t: string)
    requires c != d
    ensures TextLess([c] + s, [d] + t) <==> c < d
  {
  }

  /** Fixed-width decimals order first; what follows them decides ties. */
  lemma {:induction false} PaddedOrders(m: int, n: int, w: nat, s: string, t: string)
    requires 0 <= m < Power10(w) && 0 <= n < Power10(w)
    ensures TextLess(Padded(m, w) + s, Padded(n, w) + t) <==> m < n || (m == n && TextLess(s, t))
    decreases w
  {
    if w == 0 {
      assert "" + s == s && "" + t == t;
    } else {
      var a, b := [Digit(m % 10)], [Digit(n % 10)];
      PaddedOrders(m / 10, n / 10, w - 1, a + s, b + t);
      assert Padded(m, w) + s == Padded(m / 10, w - 1) + (a + s);
      assert Padded(n, w) + t == Padded(n / 10, w - 1) + (b + t);
      if m % 10 != n % 10 {
        TextLessByFirst(a[0], b[0], s, t);
      } else {
        TextLessSkips(a, s, t);
      }
    }
  }

  lemma OffsetStartsWithSign(offset: int)
    requires -1440 < offset < 1440
    ensures OffsetText(offset) != "" && OffsetText(offset)[0] < '.'
  {
  }

  lemma MissingFractionIsFirst(o: string, f: string)
    requires o != "" && o[0] < '.'
    ensures TextLess("" + o, "." + f) && !TextLess("." + f, "" + o)
  {
    assert "" + o == [o[0]] + o[1..];
    TextLessByFirst(o[0], '.', o[1..], f);
    TextLessByFirst('.', o[0], f, o[1..]);
  }

  /** A missing fraction orders before any fraction, because the sign of the offset, '+' or '-',
      sorts before the decimal point. */
  lemma FractionOrders(m: int, n: int, o: string)
    requires 0 <= m < 1000000 && 0 <= n < 1000000 && o != "" && o[0] < '.'
    ensures TextLess(Fraction(m) + o, Fraction(n) + o) <==> m < n
  {
    assert Power10(6) == 1000000;
    NotLessThanItself(o);
    if m == 0 && n == 0 {
      assert "" + o == o;
    } else if m == 0 {
      FractionText(n, o);
      MissingFractionIsFirst(o, Padded(n, 6) + o);
    } else if n == 0 {
      FractionText(m, o);
      MissingFractionIsFirst(o, Padded(m, 6) + o);
    } else {
      FractionText(m, o);
      FractionText(n, o);
      TextLessSkips(".", Padded(m, 6) + o, Padded(n, 6) + o);
      PaddedOrders(m, n, 6, o, o);
    }
  }

  lemma FractionText(m: int, o: string)
    requires 0 < m < 1000000 && Power10(6) == 1000000
    ensures Fraction(m) + o == "." + (Padded(m, 6) + o)
  {
  }

  lemma NotLessThanItself(s: string)
    ensures !TextLess(s, s)
  {
  }

  lemma FieldOrders(m: int, n: int, w: nat, sep: string, s: string, t: string)
    requires 0 <= m < Power10(w) && 0 <= n < Power10(w)
    ensures TextLess(Padded(m, w) + (sep + s), Padded(n, w) + (sep + t)) <==> m < n || (m == n && TextLess(s, t))
  {
    PaddedOrders(m, n, w, sep + s, sep + t);
    TextLessSkips(sep, s, t);
  }

  // ---------------------------------------------------------------- chronological order

  lemma YearsAreOrdered(y: int, z: int)
    requires 1 <= y < z
    ensures DaysBeforeYear(z) >= DaysBeforeYear(y) + 365 + if IsLeap(y) then 1 else 0
    decreases z - y
  {
    if z == y + 1 {
      OneYear(y);
    } else {
      YearsAreOrdered(y, z - 1);
      OneYear(z - 1);
    }
  }

  lemma FoursPassed(y: int)
    requires y >= 1
    ensures y / 4 == (y - 1) / 4 + if y % 4 == 0 then 1 else 0
  {
  }

  lemma CenturiesPassed(y: int)
    requires y >= 1
    ensures y / 100 == (y - 1) / 100 + if y % 100 == 0 then 1 else 0
  {
  }

  lemma FourCenturiesPassed(y: int)
    requires y >= 1
    ensures y / 400 == (y - 1) / 400 + if y % 400 == 0 then 1 else 0
  {
  }

  lemma FourTimes(m: int)
    ensures (4 * m) % 4 == 0
  {
  }

  lemma HundredTimes(m: int)
    ensures (100 * m) % 100 == 0
  {
  }

  lemma CenturiesAreFours(y: int)
    requires y % 100 == 0
    ensures y % 4 == 0
  {
    FourTimes(25 * (y / 100));
  }

  lemma FourCenturiesAreCenturies(y: int)
    requires y % 400 == 0
    ensures y % 100 == 0
  {
    HundredTimes(4 * (y / 400));
  }

  lemma OneYear(y: int)
    requires y >= 1
    ensures DaysBeforeYear(y + 1) == DaysBeforeYear(y) + 365 + if IsLeap(y) then 1 else 0
  {
    FoursPassed(y);
    CenturiesPassed(y);
    FourCenturiesPassed(y);
    if y % 400 == 0 { FourCenturiesAreCenturies(y); }
    if y % 100 == 0 { CenturiesAreFours(y); }
  }

  lemma {:induction false} MonthsAreOrdered(y: int, m: int, k: int)
    requires 1 <= m < k <= 12
    ensures DaysBeforeMonth(y, k) >= DaysBeforeMonth(y, m) + DaysInMonth(y, m)
    decreases k
  {
    if k > m + 1 { MonthsAreOrdered(y, m, k - 1); }
  }

  lemma YearIsFull(y: int)
    ensures DaysBeforeMonth(y, 12) + DaysInMonth(y, 12) == 365 + if IsLeap(y) then 1 else 0
  {
    var d := if IsLeap(y) then 29 else 28;
    assert DaysBeforeMonth(y, 2) == 31 && DaysBeforeMonth(y, 3) == 31 + d;
    assert DaysBeforeMonth(y, 5) == 92 + d;
    assert DaysBeforeMonth(y, 7) == 153 + d;
    assert DaysBeforeMonth(y, 9) == 215 + d;
    assert DaysBeforeMonth(y, 11) == 276 + d;
  }

  lemma {:induction false} YearHoldsMonths(y: int, m: int)
    requires 1 <= m <= 12
    ensures 0 <= DaysBeforeMonth(y, m)
    ensures DaysBeforeMonth(y, m) + DaysInMonth(y, m) <= 365 + if IsLeap(y) then 1 else 0
  {
    YearIsFull(y);
    if m < 12 { MonthsAreOrdered(y, m, 12); }
    if m > 1 { MonthsAreOrdered(y, 1, m); }
  }

  predicate DateLess(a: DateTime, b: DateTime) {
    a.year < b.year || (a.year == b.year && (a.month < b.month || (a.month == b.month && a.day < b.day)))
  }

  lemma DatesAreOrdered(a: DateTime, b: DateTime)
    requires DateLess(a, b)
    ensures DayNumber(a) < DayNumber(b)
  {
    if a.year < b.year {
      YearsAreOrdered(a.year, b.year);
      YearHoldsMonths(a.year, a.month);
      YearHoldsMonths(b.year, b.month);
    } else if a.month < b.month {
      MonthsAreOrdered(a.year, a.month, b.month);
    }
  }

  predicate SameDate(a: DateTime, b: DateTime) {
    a.year == b.year && a.month == b.month && a.day == b.day
  }

  predicate ClockLess(a: DateTime, b: DateTime) {
    a.hour < b.hour || (a.hour == b.hour && (a.minute < b.minute || (a.minute == b.minute &&
    (a.second < b.second || (a.second == b.second && a.micro < b.micro)))))
  }

  /** Field by field comparison of two local times. */
  predicate FieldsLess(a: DateTime, b: DateTime) {
    DateLess(a, b) || (SameDate(a, b) && ClockLess(a, b))
  }

  lemma FieldsLessMeansEarlier(a: DateTime, b: DateTime)
    requires a.offset == b.offset && FieldsLess(a, b)
    ensures Instant(a) < Instant(b)
  {
    if DateLess(a, b) { DatesAreOrdered(a, b); }
  }

  /** At equal offsets the instants are ordered as the fields are. */
  lemma InstantOrder(a: DateTime, b: DateTime)
    requires a.offset == b.offset
    ensures Instant(a) < Instant(b) <==> FieldsLess(a, b)
  {
    if FieldsLess(a, b) {
      FieldsLessMeansEarlier(a, b);
    } else if FieldsLess(b, a) {
      FieldsLessMeansEarlier(b, a);
    } else {
      assert a == b;
    }
  }

  /** b is the day after a. */
  predicate IsNextDay(a: DateTime, b: DateTime) {
    if a.day < DaysInMonth(a.year, a.month) then b.year == a.year && b.month == a.month && b.day == a.day + 1
    else if a.month < 12 then b.year == a.year && b.month == a.month + 1 && b.day == 1
    else b.year == a.year + 1 && b.month == 1 && b.day == 1
  }

  /** Days are numbered one by one over the ends of months, leap years and centuries, from the first of
      January of the year 1. */
  lemma EveryDayCounts(a: DateTime, b: DateTime)
    requires IsNextDay(a, b)
    ensures DayNumber(b) == DayNumber(a) + 1
    ensures DayNumber(Moment(1, 1, 1, 0, 0, 0, 0, 0)) == 1
  {
    if a.day == DaysInMonth(a.year, a.month) && a.month == 12 {
      OneYear(a.year);
      YearIsFull(a.year);
    }
  }

  // ---------------------------------------------------------------- the two orders

  function DateTail(t: DateTime): string {
    assert Power10(2) == 100;
    Padded(t.month, 2) + ("-" + (Padded(t.day, 2) + ("T" + ClockText(t))))
  }

  function ClockText(t: DateTime): string {
    assert Power10(2) == 100;
    Padded(t.hour, 2) + (":" + (Padded(t.minute, 2) + (":" + (Padded(t.second, 2) + (Fraction(t.micro) + OffsetText(t.offset))))))
  }

  function TailText(t: DateTime): string {
    Fraction(t.micro) + OffsetText(t.offset)
  }

  /** The text of the clock orders by hour, minute and second, then by what follows. */
  lemma ClockTextOrders(a: DateTime, b: DateTime)
    ensures TextLess(ClockText(a), ClockText(b)) <==>
      a.hour < b.hour || (a.hour == b.hour && (a.minute < b.minute || (a.minute == b.minute &&
      (a.second < b.second || (a.second == b.second && TextLess(TailText(a), TailText(b)))))))
  {
    assert Power10(2) == 100;
    PaddedOrders(a.second, b.second, 2, TailText(a), TailText(b));
    var sa, sb := Padded(a.second, 2) + TailText(a), Padded(b.second, 2) + TailText(b);
    FieldOrders(a.minute, b.minute, 2, ":", sa, sb);
    FieldOrders(a.hour, b.hour, 2, ":", Padded(a.minute, 2) + (":" + sa), Padded(b.minute, 2) + (":" + sb));
  }

  /** The whole text orders by the date, then by the text of the clock. */
  lemma DateTextOrders(a: DateTime, b: DateTime)
    ensures TextLess(Format(a), Format(b)) <==>
      DateLess(a, b) || (SameDate(a, b) && TextLess(ClockText(a), ClockText(b)))
  {
    assert Power10(4) == 10000 && Power10(2) == 100;
    var da, db := Padded(a.day, 2) + ("T" + ClockText(a)), Padded(b.day, 2) + ("T" + ClockText(b));
    FieldOrders(a.day, b.day, 2, "T", ClockText(a), ClockText(b));
    FieldOrders(a.month, b.month, 2, "-", da, db);
    FieldOrders(a.year, b.year, 4, "-", DateTail(a), DateTail(b));
  }

  lemma TextOrders(a: DateTime, b: DateTime)
    requires a.offset == b.offset
    ensures TextLess(Format(a), Format(b)) <==> FieldsLess(a, b)
  {
    DateTextOrders(a, b);
    ClockTextOrders(a, b);
    OffsetStartsWithSign(a.offset);
    FractionOrders(a.micro, b.micro, OffsetText(a.offset));
  }

  /** Text order is time order for datetimes of one offset, in particular for naive and UTC ones. */
  lemma TextOrderIsTimeOrder(a: DateTime, b: DateTime)
    requires a.offset == b.offset
    ensures TextLess(Format(a), Format(b)) <==> Instant(a) < Instant(b)
  {
    TextOrders(a, b);
    InstantOrder(a, b);
  }

  /** Rows sorted by the text column are in chronological order. */
  lemma OrderByTextIsChronological(ts: seq<DateTime>)
    requires forall i, j :: 0 <= i < |ts| && 0 <= j < |ts| ==> ts[i].offset == ts[j].offset
    requires forall i, j :: 0 <= i < j < |ts| ==> !TextLess(Format(ts[j]), Format(ts[i]))
    ensures forall i, j :: 0 <= i < j < |ts| ==> Instant(ts[i]) <= Instant(ts[j])
  {
    forall i, j | 0 <= i < j < |ts| ensures Instant(ts[i]) <= Instant(ts[j]) {
      TextOrderIsTimeOrder(ts[j], ts[i]);
    }
  }

  /** Text order and time order agree on all pairs of datetimes with these two offsets. */
  ghost predicate OrdersAgree(o: int, o': int) {
    forall a: DateTime, b: DateTime :: a.offset == o && b.offset == o' ==>
      (TextLess(Format(a), Format(b)) <==> Instant(a) < Instant(b))
  }

  function Noon(second: int, offset: int): DateTime
    requires 0 <= second < 60 && -1440 < offset < 1440
  {
    Moment(2024, 6, 15, 12, 0, second, 0, offset)
  }

  lemma NoonTextOrder(s: int, o: int, s': int, o': int)
    requires 0 <= s < 60 && 0 <= s' < 60 && s != s' && -1440 < o < 1440 && -1440 < o' < 1440
    ensures TextLess(Format(Noon(s, o)), Format(Noon(s', o'))) <==> s < s'
  {
    DateTextOrders(Noon(s, o), Noon(s', o'));
    ClockTextOrders(Noon(s, o), Noon(s', o'));
  }

  /** Sorting by text is sorting by time exactly when the two datetimes share their UTC offset. */
  lemma OrdersAgreeIff(o: int, o': int)
    requires -1440 < o < 1440 && -1440 < o' < 1440
    ensures OrdersAgree(o, o') <==> o == o'
  {
    if o == o' {
      forall a: DateTime, b: DateTime | a.offset == o && b.offset == o'
        ensures TextLess(Format(a), Format(b)) <==> Instant(a) < Instant(b)
      {
        TextOrderIsTimeOrder(a, b);
      }
    } else {
      var a, b := Noon(if o > o' then 1 else 0, o), Noon(if o > o' then 0 else 1, o');
      NoonTextOrder(a.second, o, b.second, o');
      assert Instant(a) < Instant(b) <==> o > o';
    }
  }

  // ---------------------------------------------------------------- reading back

  function Value(s: string): int
    requires forall i :: 0 <= i < |s| ==> '0' <= s[i] <= '9'
  {
    if s == "" then 0 else Value(s[..|s| - 1]) * 10 + (s[|s| - 1] as int - '0' as int)
  }

  predicate IsDigits(s: string) {
    forall i :: 0 <= i < |s| ==> '0' <= s[i] <= '9'
  }

  /** A number of exactly w digits, and what follows it. */
  function TakeNumber(s: string, w: nat): Option<(int, string)> {
    if |s| >= w && IsDigits(s[..w]) then Some((Value(s[..w]), s[w..])) else None
  }

  /** A number of exactly w digits followed by a separator. */
  function TakeField(s: string, w: nat, sep: char): Option<(int, string)> {
    match TakeNumber(s, w)
    case None => None
    case Some((n, rest)) => if rest != "" && rest[0] == sep then Some((n, rest[1..])) else None
  }

  function ParseOffset(s: string): Option<int> {
    if s == "" || (s[0] != '+' && s[0] != '-') then None
    else
      match TakeField(s[1..], 2, ':')
      case None => None
      case Some((h, rest)) =>
        match TakeNumber(rest, 2)
        case None => None
        case Some((m, end)) =>
          if end != "" || h >= 24 || m >= 60 then None
          else Some(if s[0] == '-' then -(h * 60 + m) else h * 60 + m)
  }

  /** The part from the seconds on: an optional six-digit fraction and the offset. */
  function ParseTail(s: string): Option<(int, int)> {
    if s != "" && s[0] == '.' then
      match TakeNumber(s[1..], 6)
      case None => None
      case Some((micro, rest)) =>
        match ParseOffset(rest)
        case None => None
        case Some(o) => Some((micro, o))
    else
      match ParseOffset(s)
      case None => None
      case Some(o) => Some((0, o))
  }

  function ParseClock(s: string): Option<(int, int, int, int, int)> {
    match TakeField(s, 2, ':')
    case None => None
    case Some((hour, s1)) =>
      match TakeField(s1, 2, ':')
      case None => None
      case Some((minute, s2)) =>
        match TakeNumber(s2, 2)
        case None => None
        case Some((second, s3)) =>
          match ParseTail(s3)
          case None => None
          case Some((micro, offset)) => Some((hour, minute, second, micro, offset))
  }

  /** datetime.fromisoformat on texts of isoformat's shape. */
  function Parse(s: string): Option<DateTime> {
    match TakeField(s, 4, '-')
    case None => None
    case Some((year, s1)) =>
      match TakeField(s1, 2, '-')
      case None => None
      case Some((month, s2)) =>
        match TakeField(s2, 2, 'T')
        case None => None
        case Some((day, s3)) =>
          match ParseClock(s3)
          case None => None
          case Some((hour, minute, second, micro, offset)) =>
            var t := Moment(year, month, day, hour, minute, second, micro, offset);
            if IsMoment(t) then Some(t) else None
  }

  lemma {:induction false} PaddedReadsBack(n: int, w: nat)
    requires 0 <= n < Power10(w)
    ensures IsDigits(Padded(n, w)) && Value(Padded(n, w)) == n
  {
    if w > 0 {
      PaddedReadsBack(n / 10, w - 1);
      assert Padded(n, w)[..w - 1] == Padded(n / 10, w - 1);
    }
  }

  lemma NumberReadsBack(n: int, w: nat, rest: string)
    requires 0 <= n < Power10(w)
    ensures TakeNumber(Padded(n, w) + rest, w) == Some((n, rest))
  {
    PaddedReadsBack(n, w);
    assert (Padded(n, w) + rest)[..w] == Padded(n, w) && (Padded(n, w) + rest)[w..] == rest;
  }

  lemma FieldReadsBack(n: int, w: nat, sep: char, rest: string)
    requires 0 <= n < Power10(w)
    ensures TakeField(Padded(n, w) + ([sep] + rest), w, sep) == Some((n, rest))
  {
    NumberReadsBack(n, w, [sep] + rest);
  }

  lemma OffsetReadsBack(offset: int)
    requires -1440 < offset < 1440
    ensures ParseOffset(OffsetText(offset)) == Some(offset)
  {
    assert Power10(2) == 100;
    var m := if offset < 0 then -offset else offset;
    var body := Padded(m / 60, 2) + ([':'] + Padded(m % 60, 2));
    assert OffsetText(offset) == [if offset < 0 then '-' else '+'] + body;
    FieldReadsBack(m / 60, 2, ':', Padded(m % 60, 2));
    NumberReadsBack(m % 60, 2, "");
    assert Padded(m % 60, 2) + "" == Padded(m % 60, 2);
  }

  lemma TailReadsBack(micro: int, offset: int)
    requires 0 <= micro < 1000000 && -1440 < offset < 1440
    ensures ParseTail(Fraction(micro) + OffsetText(offset)) == Some((micro, offset))
  {
    assert Power10(6) == 1000000;
    OffsetReadsBack(offset);
    OffsetStartsWithSign(offset);
    if micro == 0 {
      assert "" + OffsetText(offset) == OffsetText(offset);
    } else {
      FractionText(micro, OffsetText(offset));
      NumberReadsBack(micro, 6, OffsetText(offset));
      assert ("." + (Padded(micro, 6) + OffsetText(offset)))[1..] == Padded(micro, 6) + OffsetText(offset);
    }
  }

  lemma ClockReadsBack(t: DateTime)
    ensures ParseClock(ClockText(t)) == Some((t.hour, t.minute, t.second, t.micro, t.offset))
  {
    assert Power10(2) == 100;
    var tail := Fraction(t.micro) + OffsetText(t.offset);
    TailReadsBack(t.micro, t.offset);
    NumberReadsBack(t.second, 2, tail);
    FieldReadsBack(t.minute, 2, ':', Padded(t.second, 2) + tail);
    FieldReadsBack(t.hour, 2, ':', Padded(t.minute, 2) + (":" + (Padded(t.second, 2) + tail)));
  }

  /** What is stored reads back as the same datetime. */
  lemma FormatReadsBack(t: DateTime)
    ensures Parse(Format(t)) == Some(t)
  {
    assert Power10(4) == 10000 && Power10(2) == 100;
    ClockReadsBack(t);
    FieldReadsBack(t.day, 2, 'T', ClockText(t));
    FieldReadsBack(t.month, 2, '-', Padded(t.day, 2) + ("T" + ClockText(t)));
    FieldReadsBack(t.year, 4, '-', DateTail(t));
  }

  /** A naive datetime comes back as the UTC datetime of its fields, an aware one as itself. */
  lemma StoredDatetimeReadsBack(local: DateTime, aware: bool)
    ensures Parse(DtToStr(local, aware)) == Some(if aware then local else local.(offset := 0))
  {
    FormatReadsBack(if aware then local else local.(offset := 0));
  }

  // ---------------------------------------------------------------- the shape of the text

  /** The text at these places is the number in decimal. */
  predicate ShowsNumber(s: string, from: nat, to: nat, n: int) {
    from <= to <= |s| && IsDigits(s[from..to]) && Value(s[from..to]) == n
  }

  lemma FieldShows(n: int, w: nat, sep: char, rest: string)
    requires 0 <= n < Power10(w)
    ensures var s := Padded(n, w) + ([sep] + rest);
      ShowsNumber(s, 0, w, n) && s[w] == sep && s[w + 1..] == rest
  {
    PaddedReadsBack(n, w);
    var s := Padded(n, w) + ([sep] + rest);
    assert s[0..w] == Padded(n, w) && s[w..] == [sep] + rest;
  }

  lemma ShiftedShows(s: string, k: nat, from: nat, to: nat, n: int)
    requires k <= |s| && ShowsNumber(s[k..], from, to, n)
    ensures ShowsNumber(s, k + from, k + to, n)
  {
    assert s[k..][from..to] == s[k + from..k + to];
  }

  /** isoformat's shape: the fields in decimal at fixed places with their separators. */
  lemma DateShape(t: DateTime)
    ensures var s := Format(t);
      && ShowsNumber(s, 0, 4, t.year) && s[4] == '-' && ShowsNumber(s, 5, 7, t.month) && s[7] == '-'
      && ShowsNumber(s, 8, 10, t.day) && s[10] == 'T' && s[11..] == ClockText(t)
  {
    assert Power10(4) == 10000 && Power10(2) == 100;
    var s, days := Format(t), Padded(t.day, 2) + (['T'] + ClockText(t));
    FieldShows(t.year, 4, '-', DateTail(t));
    assert s == Padded(t.year, 4) + (['-'] + DateTail(t));
    FieldShows(t.month, 2, '-', days);
    assert DateTail(t) == Padded(t.month, 2) + (['-'] + days);
    FieldShows(t.day, 2, 'T', ClockText(t));
    ShiftedShows(s, 5, 0, 2, t.month);
    assert s[8..] == days;
    ShiftedShows(s, 8, 0, 2, t.day);
  }

  /** And the clock: a fraction of six digits only if it is not zero, then the offset. */
  lemma ClockShape(t: DateTime)
    ensures var s := ClockText(t);
      && ShowsNumber(s, 0, 2, t.hour) && s[2] == ':' && ShowsNumber(s, 3, 5, t.minute) && s[5] == ':'
      && ShowsNumber(s, 6, 8, t.second)
      && if t.micro == 0 then s[8..] == OffsetText(t.offset)
         else |s| > 15 && s[8] == '.' && ShowsNumber(s, 9, 15, t.micro) && s[15..] == OffsetText(t.offset)
  {
    assert Power10(2) == 100 && Power10(6) == 1000000;
    var s, seconds := ClockText(t), Padded(t.second, 2) + TailText(t);
    var minutes := Padded(t.minute, 2) + ([':'] + seconds);
    FieldShows(t.hour, 2, ':', minutes);
    assert s == Padded(t.hour, 2) + ([':'] + minutes);
    FieldShows(t.minute, 2, ':', seconds);
    ShiftedShows(s, 3, 0, 2, t.minute);
    assert s[6..] == seconds;
    SecondsShape(t.second, t.micro, t.offset);
    ShiftedShows(s, 6, 0, 2, t.second);
    if t.micro != 0 { ShiftedShows(s, 6, 3, 9, t.micro); }
  }

  lemma SecondsShape(second: int, micro: int, offset: int)
    requires 0 <= second < 60 && 0 <= micro < 1000000 && -1440 < offset < 1440
    requires Power10(2) == 100 && Power10(6) == 1000000
    ensures var s := Padded(second, 2) + (Fraction(micro) + OffsetText(offset));
      && ShowsNumber(s, 0, 2, second)
      && if micro == 0 then s[2..] == OffsetText(offset)
         else |s| > 9 && s[2] == '.' && ShowsNumber(s, 3, 9, micro) && s[9..] == OffsetText(offset)
  {
    var o := OffsetText(offset);
    var s := Padded(second, 2) + (Fraction(micro) + o);
    PaddedReadsBack(second, 2);
    assert s[0..2] == Padded(second, 2) && s[2..] == Fraction(micro) + o;
    OffsetStartsWithSign(offset);
    if micro != 0 {
      PaddedReadsBack(micro, 6);
      FractionText(micro, o);
      assert s[3..] == Padded(micro, 6) + o;
      assert s[3..9] == Padded(micro, 6) && s[9..] == o;
    }
  }

  lemma OffsetShape(offset: int)
    requires -1440 < offset < 1440
    ensures var s, m := OffsetText(offset), if offset < 0 then -offset else offset;
      && |s| == 6 && s[0] == (if offset < 0 then '-' else '+')
      && ShowsNumber(s, 1, 3, m / 60) && s[3] == ':' && ShowsNumber(s, 4, 6, m % 60)
  {
    assert Power10(2) == 100;
    var s, m := OffsetText(offset), if offset < 0 then -offset else offset;
    FieldShows(m / 60, 2, ':', Padded(m % 60, 2));
    PaddedReadsBack(m % 60, 2);
    assert s[1..] == Padded(m / 60, 2) + ([':'] + Padded(m % 60, 2));
    ShiftedShows(s, 1, 0, 2, m / 60);
    assert s[4..6] == Padded(m % 60, 2);
  }
}
