/** The date helpers of the schedule screen: the request date format
    `dd.mm.yyyy` (`formatDate`), shifting a date by whole days (`addDays`),
    the day heading text (`formatHumanReadableDate`) and the body of the
    schedule request with its 7-day window. */
module ScheduleDates {
  import opened Text
  import opened Calendar

  /** A JavaScript `Date` seen as a local calendar day: `ordinal` is the day
      count of `Calendar`; the time of day plays no part in these helpers. */
  class LocalDate {
    var ordinal: int

    constructor (ordinal: int)
      ensures this.ordinal == ordinal
    {
      this.ordinal := ordinal;
    }

    /** `new Date(other)`: a separate object on the same day */
    constructor Copy(other: LocalDate)
      ensures ordinal == other.ordinal
    {
      ordinal := other.ordinal;
    }

    /** `getDate()`: the day of the month, 1..31 */
    function GetDate(): (d: int)
      reads this
      ensures 1 <= d <= DaysInMonth(CivilOf(ordinal).year, CivilOf(ordinal).month) && d <= 31
    {
      CivilOf(ordinal).day
    }

    /** `getMonth()`: the month counted from 0 */
    function GetMonth(): (m: int)
      reads this
      ensures 0 <= m < 12
    {
      CivilOf(ordinal).month - 1
    }

    /** `getFullYear()`: the year whose days include this one */
    function GetFullYear(): (y: int)
      reads this
      ensures DaysBeforeYear(y) <= ordinal < DaysBeforeYear(y + 1)
    {
      OrdinalInYear(CivilOf(ordinal));
      CivilOf(ordinal).year
    }

    /** `setDate(d)`: day `d` counted from the first of the current month, so a
        `d` beyond the month's end (or below 1) rolls into the next (or previous)
        months. */
    method SetDate(d: int)
      modifies this
      ensures ordinal == old(ordinal) - old(GetDate()) + d
    {
      ordinal := ordinal - GetDate() + d;
    }
  }

  /** `setDate` with a day inside the current month keeps its year and month:
      from the date `c`, `setDate(d)` moves to day `m` (the day count of `c`,
      less its day of the month, plus `d`), and that is day `d` of the same
      month. */
  lemma SetDateInMonth(c: CivilDate, d: int, m: int)
    requires Valid(c) && 1 <= d <= DaysInMonth(c.year, c.month)
    requires m == Ordinal(c) - c.day + d
    ensures CivilOf(m) == CivilDate(c.year, c.month, d)
  {
    OrdinalSameMonth(c, d);
    DateOfDay(m, CivilDate(c.year, c.month, d));
  }

  /** `addDays`: a copy of `date` moved `days` days on; `date`
      itself is left as it was. */
  method AddDays(date: LocalDate, days: int) returns (result: LocalDate)
    ensures fresh(result)
    ensures result.ordinal == date.ordinal + days
  {
    result := new LocalDate.Copy(date);
    result.SetDate(result.GetDate() + days);
  }

  /** The calendar's next day applied `k` times */
  function NextDays(c: CivilDate, k: nat): (r: CivilDate)
    requires Valid(c)
    decreases k
    ensures Valid(r)
  {
    if k == 0 then c
    else
      NextDayOrdinal(c);
      NextDays(NextDay(c), k - 1)
  }

  /** Stepping `k` times to the next day adds `k` to the day count. */
  lemma {:induction false} NextDaysOrdinal(c: CivilDate, k: nat)
    requires Valid(c)
    ensures Ordinal(NextDays(c, k)) == Ordinal(c) + k
    decreases k
  {
    if k > 0 {
      NextDayOrdinal(c);
      NextDaysOrdinal(NextDay(c), k - 1);
    }
  }

  /** Moving a day count `n` by `k` days on, to `m`, is stepping `k` times to
      the calendar's next day, so `addDays` agrees with the calendar over month
      and year ends. */
  lemma AddDaysIsCalendarDays(n: int, k: nat, m: int)
    requires m == n + k
    ensures CivilOf(m) == NextDays(CivilOf(n), k)
  {
    NextDaysOrdinal(CivilOf(n), k);
    DateOfDay(m, NextDays(CivilOf(n), k));
  }

  /** Day or month in two digits, left-padded with '0' */
  function Pad2(n: nat): string
  {
    PadStart(NatToString(n), 2, '0')
  }

  /** Two-digit padding of a number below 100 gives two digits that read back
      as that number. */
  lemma Pad2Digits(n: nat)
    requires n < 100
    ensures |Pad2(n)| == 2
    ensures forall i :: 0 <= i < 2 ==> IsDigit(Pad2(n)[i])
    ensures DigitsToNat(Pad2(n)) == n
  {
    if n < 10 {
      var p := Pad2(n);
      assert p == ['0', DigitChar(n)];
      assert p[..1] == ['0'] && p[..1][..0] == [];
      assert DigitsToNat(p[..1]) == 0;
      assert DigitValue(p[1]) == n;
    } else {
      assert NatToString(n) == NatToString(n / 10) + [DigitChar(n % 10)];
      NatToStringRoundTrip(n);
    }
  }

  /** `formatDate` on the date fields: `DD.MM.YYYY`, the month counted from 1,
      the year not padded. */
  function FormatCivil(c: CivilDate): (r: string)
    requires Valid(c)
    ensures |r| >= 7 && r[2] == '.' && r[5] == '.'
    ensures IsDigit(r[0]) && IsDigit(r[1]) && IsDigit(r[3]) && IsDigit(r[4])
    ensures r[6..] == IntToString(c.year)
  {
    Pad2Digits(c.day);
    Pad2Digits(c.month);
    DottedShape(Pad2(c.day), Pad2(c.month), IntToString(c.year));
    Pad2(c.day) + "." + Pad2(c.month) + "." + IntToString(c.year)
  }

  /** Two two-digit fields and a non-empty third, joined by dots */
  lemma DottedShape(dd: string, mm: string, yy: string)
    requires |dd| == 2 && |mm| == 2 && |yy| >= 1
    requires IsDigit(dd[0]) && IsDigit(dd[1]) && IsDigit(mm[0]) && IsDigit(mm[1])
    ensures var r := dd + "." + mm + "." + yy;
      |r| >= 7 && r[2] == '.' && r[5] == '.' &&
      IsDigit(r[0]) && IsDigit(r[1]) && IsDigit(r[3]) && IsDigit(r[4]) &&
      r[6..] == yy
  {
    var r := dd + "." + mm + "." + yy;
    assert r[6..] == yy;
  }

  /** `formatDate`: splitting on '.' gives the padded day, the padded month and
      the year of the date, and reading it back gives the date. */
  function FormatDate(date: LocalDate): (r: string)
    reads date
    ensures var c := CivilOf(date.ordinal); Split(r, '.') == [Pad2(c.day), Pad2(c.month), IntToString(c.year)]
    ensures ParseRequestDate(r) == Some(CivilOf(date.ordinal))
  {
    var c := CivilOf(date.ordinal);
    FormatCivilRoundTrip(c);
    FormatCivil(c)
  }

  /** `formatDate` renders the month from `getMonth() + 1`. */
  lemma FormatDateFields(date: LocalDate)
    ensures FormatDate(date) ==
      Pad2(date.GetDate()) + "." + Pad2(date.GetMonth() + 1) + "." + IntToString(date.GetFullYear())
  {
  }

  /** Reads a `DD.MM.YYYY` request date back: three pieces around the dots, the
      first two of exactly two digits, the third an integer, forming a valid
      date. */
  function ParseRequestDate(s: string): (r: Option<CivilDate>)
    ensures r.Some? ==> Valid(r.value)
  {
    var parts := Split(s, '.');
    if |parts| == 3 && |parts[0]| == 2 && |parts[1]| == 2 &&
       (forall i :: 0 <= i < 2 ==> IsDigit(parts[0][i])) &&
       (forall i :: 0 <= i < 2 ==> IsDigit(parts[1][i])) &&
       ParseInt(parts[2]).Some?
    then
      var c := CivilDate(ParseInt(parts[2]).value, DigitsToNat(parts[1]), DigitsToNat(parts[0]));
      if Valid(c) then Some(c) else None
    else None
  }

  /** The request date splits on '.' into the two-digit day, the two-digit
      month and the unpadded year, and reading it back gives the date. */
  lemma FormatCivilRoundTrip(c: CivilDate)
    requires Valid(c)
    ensures Split(FormatCivil(c), '.') == [Pad2(c.day), Pad2(c.month), IntToString(c.year)]
    ensures |Pad2(c.day)| == 2 && |Pad2(c.month)| == 2
    ensures ParseRequestDate(FormatCivil(c)) == Some(c)
  {
    var dd, mm, yy := Pad2(c.day), Pad2(c.month), IntToString(c.year);
    Pad2Digits(c.day);
    Pad2Digits(c.month);
    IntToStringRoundTrip(c.year);
    FormatSplits(c);
    ParseParts(FormatCivil(c), dd, mm, yy);
  }

  lemma FormatSplits(c: CivilDate)
    requires Valid(c)
    ensures Split(FormatCivil(c), '.') == [Pad2(c.day), Pad2(c.month), IntToString(c.year)]
  {
    var dd, mm, yy := Pad2(c.day), Pad2(c.month), IntToString(c.year);
    Pad2Digits(c.day);
    Pad2Digits(c.month);
    NoDot(dd);
    NoDot(mm);
    var joined := dd + ['.'] + mm + ['.'] + yy;
    assert FormatCivil(c) == joined;
    SplitJoin3(dd, mm, yy, '.');
  }

  lemma NoDot(s: string)
    requires forall i :: 0 <= i < |s| ==> IsDigit(s[i])
    ensures '.' !in s
  {
  }

  lemma ParseParts(s: string, dd: string, mm: string, yy: string)
    requires Split(s, '.') == [dd, mm, yy]
    requires |dd| == 2 && |mm| == 2
    requires forall i :: 0 <= i < 2 ==> IsDigit(dd[i]) && IsDigit(mm[i])
    requires ParseInt(yy).Some?
    ensures var c := CivilDate(ParseInt(yy).value, DigitsToNat(mm), DigitsToNat(dd));
      ParseRequestDate(s) == if Valid(c) then Some(c) else None
  {
  }

  /** Distinct dates give distinct request dates. */
  lemma FormatCivilInjective(a: CivilDate, b: CivilDate)
    requires Valid(a) && Valid(b) && a != b
    ensures FormatCivil(a) != FormatCivil(b)
  {
    FormatCivilRoundTrip(a);
    FormatCivilRoundTrip(b);
  }

  /** The body of the schedule request the screen sends */
  datatype ScheduleRequest = ScheduleRequest(id: string, dateBegin: string, dateEnd: string)

  const GroupId := "18792"
  const WindowDays := 7

  /** The request the screen sends: the fixed group id, today as the first day
      and the day 7 days later as the last; `today` stands for `new Date()`. */
  method BuildRequest(today: LocalDate) returns (req: ScheduleRequest)
    ensures req.id == GroupId
    ensures req.dateBegin == FormatCivil(CivilOf(today.ordinal))
    ensures req.dateEnd == FormatCivil(CivilOf(today.ordinal + WindowDays))
  {
    var begin := FormatDate(today);
    var later := AddDays(today, WindowDays);
    var end := FormatDate(later);
    req := ScheduleRequest(GroupId, begin, end);
  }

  /** The two dates of the request read back as dates exactly 7 calendar days
      apart: the end date is the begin date stepped to the next day 7 times. */
  lemma RequestWindowSpan(n: int)
    ensures var b := ParseRequestDate(FormatCivil(CivilOf(n)));
      var e := ParseRequestDate(FormatCivil(CivilOf(n + WindowDays)));
      b.Some? && e.Some? && Ordinal(e.value) == Ordinal(b.value) + WindowDays &&
      e.value == NextDays(b.value, WindowDays)
  {
    FormatCivilRoundTrip(CivilOf(n));
    FormatCivilRoundTrip(CivilOf(n + WindowDays));
    AddDaysIsCalendarDays(n, WindowDays, n + WindowDays);
  }

  const DaysOfWeek := ["Воскресенье", "Понедельник", "Вторник", "Среда", "Четверг", "Пятница", "Суббота"]
  const MonthsGenitive := ["января", "февраля", "марта", "апреля", "мая", "июня", "июля", "августа", "сентября", "октября", "ноября", "декабря"]

  /** The text part of `formatHumanReadableDate` on the decomposed date:
      `<weekday>, <day> <month>`, the weekday counted from Sunday = 0 and the
      month from January = 0. The heading determines the weekday, the day and
      the month it was made of. */
  function HumanDate(weekday: nat, day: nat, month: nat): (r: string)
    requires weekday < 7 && month < 12
    ensures ParseHumanDate(r) == Some((weekday, day, month))
  {
    var name, digits, mon := DaysOfWeek[weekday], NatToString(day), MonthsGenitive[month];
    var s := name + ", " + digits + " " + mon;
    HeadingSplits(name, digits, mon);
    WeekdayIndex(weekday);
    MonthIndex(month);
    NatToStringRoundTrip(day);
    HeadingParses(s, name, digits, mon);
    s
  }

  /** The position of `s` in `names`, if it is there */
  function IndexIn(names: seq<string>, s: string): (r: Option<nat>)
    ensures r.Some? ==> r.value < |names| && names[r.value] == s
    ensures r.None? ==> s !in names
  {
    if names == [] then None
    else if names[|names| - 1] == s then Some(|names| - 1)
    else IndexIn(names[..|names| - 1], s)
  }

  /** Reads a day heading back into weekday, day and month indices */
  function ParseHumanDate(s: string): Option<(nat, nat, nat)>
  {
    var name := BeforeFirst(s, ',');
    if |name| + 2 <= |s| && s[|name|..|name| + 2] == ", " then
      var rest := s[|name| + 2..];
      var digits := BeforeFirst(rest, ' ');
      if 1 <= |digits| < |rest| && (forall i :: 0 <= i < |digits| ==> IsDigit(digits[i])) then
        var w := IndexIn(DaysOfWeek, name);
        var m := IndexIn(MonthsGenitive, rest[|digits| + 1..]);
        if w.Some? && m.Some? then Some((w.value, DigitsToNat(digits), m.value)) else None
      else None
    else None
  }

  /** The weekday names are distinct, so a name finds its own index. */
  lemma WeekdayIndex(weekday: nat)
    requires weekday < 7
    ensures IndexIn(DaysOfWeek, DaysOfWeek[weekday]) == Some(weekday)
  {
    IndexInDistinct(DaysOfWeek, weekday);
  }

  /** The month names are distinct, so a name finds its own index. */
  lemma MonthIndex(month: nat)
    requires month < 12
    ensures IndexIn(MonthsGenitive, MonthsGenitive[month]) == Some(month)
  {
    IndexInDistinct(MonthsGenitive, month);
  }

  lemma {:induction false} IndexInDistinct(names: seq<string>, i: nat)
    requires i < |names|
    requires forall j, k :: 0 <= j < k < |names| ==> names[j] != names[k]
    ensures IndexIn(names, names[i]) == Some(i)
  {
    if i < |names| - 1 {
      IndexInDistinct(names[..|names| - 1], i);
    }
  }


  /** The weekday names hold no comma and the day digits no space, so the
      heading comes apart at its first comma and the first space after it. */
  lemma HeadingSplits(name: string, digits: string, mon: string)
    requires name in DaysOfWeek
    requires forall i :: 0 <= i < |digits| ==> IsDigit(digits[i])
    ensures var s := name + ", " + digits + " " + mon;
      BeforeFirst(s, ',') == name && s[|name|..|name| + 2] == ", " &&
      s[|name| + 2..] == digits + " " + mon
    ensures BeforeFirst(digits + " " + mon, ' ') == digits
    ensures (digits + " " + mon)[|digits| + 1..] == mon
  {
    WeekdayNoComma(name);
    HeadSplits(name, digits + " " + mon);
    assert name + ", " + digits + " " + mon == name + ", " + (digits + " " + mon);
    assert ' ' !in digits;
    BeforeFirstOf(digits, " " + mon, ' ');
    assert digits + " " + mon == digits + (" " + mon);
  }

  lemma WeekdayNoComma(name: string)
    requires name in DaysOfWeek
    ensures ',' !in name
  {
  }

  /** A name without a comma, then ", " and a tail: the name comes first. */
  lemma HeadSplits(name: string, tail: string)
    requires ',' !in name
    ensures var s := name + ", " + tail;
      BeforeFirst(s, ',') == name && s[|name|..|name| + 2] == ", " && s[|name| + 2..] == tail
  {
    var s := name + ", " + tail;
    assert s == name + (", " + tail);
    BeforeFirstOf(name, ", " + tail, ',');
  }

  lemma HeadingParses(s: string, name: string, digits: string, mon: string)
    requires s == name + ", " + digits + " " + mon
    requires 1 <= |digits| && forall i :: 0 <= i < |digits| ==> IsDigit(digits[i])
    requires BeforeFirst(s, ',') == name && s[|name|..|name| + 2] == ", "
    requires s[|name| + 2..] == digits + " " + mon
    requires BeforeFirst(digits + " " + mon, ' ') == digits
    requires (digits + " " + mon)[|digits| + 1..] == mon
    requires IndexIn(DaysOfWeek, name).Some? && IndexIn(MonthsGenitive, mon).Some?
    ensures ParseHumanDate(s) ==
      Some((IndexIn(DaysOfWeek, name).value, DigitsToNat(digits), IndexIn(MonthsGenitive, mon).value))
  {
  }
}
