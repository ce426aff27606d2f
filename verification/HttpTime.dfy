/**
  ngx_parse_http_time of src/core/ngx_parse_time.c: the three date formats of section 7.1.1.1 of
  RFC 7231, and Gauss' formula for the days since the epoch.
 */
module HttpTime {
  import opened Octets
  import opened Wrappers

  const TWO64 := 0x1_0000_0000_0000_0000

  const SP: Byte := 32
  const COMMA: Byte := 44
  const DASH: Byte := 45
  const COLON: Byte := 58

  /** A date and a time of day; months count from 0. */
  datatype Fields = Fields(year: nat, month: nat, day: nat, hour: nat, min: nat, sec: nat)

  // ---------- the calendar ----------

  predicate Leap(year: int) {
    year % 4 == 0 && (year % 100 != 0 || year % 400 == 0)
  }

  /** mday */
  const MDAY: seq<nat> := [31, 28, 31, 30, 31, 30, 31, 31, 30, 31, 30, 31]

  function DaysIn(year: int, month: nat): nat
    requires month < 12
  {
    if month == 1 && Leap(year) then 29 else MDAY[month]
  }

  /** The days of all years before this one, from year 0 on. */
  function DaysBeforeYear(year: nat): nat {
    if year == 0 then 0 else DaysBeforeYear(year - 1) + if Leap(year - 1) then 366 else 365
  }

  /** The days of all months before this one. */
  function DaysBeforeMonth(year: int, month: nat): nat
    requires month <= 12
  {
    if month == 0 then 0 else DaysBeforeMonth(year, month - 1) + DaysIn(year, month - 1)
  }

  /** The days from January 1, 1970 to a date, counted along the calendar. */
  function Days(year: nat, month: nat, day: int): int
    requires month < 12
  {
    DaysBeforeYear(year) + DaysBeforeMonth(year, month) + day - 1 - DaysBeforeYear(1970)
  }

  /** The calendar of 12 months has all the days of the year. */
  lemma YearOfMonths(year: nat)
    ensures DaysBeforeMonth(year, 12) == if Leap(year) then 366 else 365
  {
    MonthsBefore(year, 12);
  }

  /** The next day's number is the next number. */
  lemma DaysCount(year: nat, month: nat, day: nat)
    requires month < 12 && 1 <= day <= DaysIn(year, month)
    ensures day < DaysIn(year, month) ==> Days(year, month, day + 1) == Days(year, month, day) + 1
    ensures day == DaysIn(year, month) && month < 11 ==> Days(year, month + 1, 1) == Days(year, month, day) + 1
    ensures day == DaysIn(year, month) && month == 11 ==> Days(year + 1, 0, 1) == Days(year, month, day) + 1
    ensures Days(1970, 0, 1) == 0
  {
    hide Leap;
    YearOfMonths(year);
  }

  lemma {:induction false} MonthsBefore(year: int, month: nat)
    requires month <= 12
    ensures DaysBeforeMonth(year, month) ==
      [0, 31, 59, 90, 120, 151, 181, 212, 243, 273, 304, 334, 365][month] + if month > 1 && Leap(year) then 1 else 0
  {
    hide Leap;
    if month > 0 {
      MonthsBefore(year, month - 1);
    }
  }

  lemma {:induction false} YearsBefore(year: nat)
    ensures DaysBeforeYear(year) ==
      if year == 0 then 0 else 365 * year + (year - 1) / 4 - (year - 1) / 100 + (year - 1) / 400 + 1
  {
    if year > 1 {
      YearsBefore(year - 1);
      LeapStep(year - 1);
    }
  }

  lemma LeapStep(y: nat)
    requires y > 0
    ensures y / 4 - y / 100 + y / 400 == (y - 1) / 4 - (y - 1) / 100 + (y - 1) / 400 + if Leap(y) then 1 else 0
  {
    DivStep(y, 4);
    DivStep(y, 100);
    DivStep(y, 400);
    Multiples(y);
  }

  lemma DivStep(y: nat, n: nat)
    requires y > 0 && (n == 4 || n == 100 || n == 400)
    ensures y / n == (y - 1) / n + if y % n == 0 then 1 else 0
  {
  }

  lemma Multiples(y: nat)
    ensures y % 400 == 0 ==> y % 100 == 0
    ensures y % 100 == 0 ==> y % 4 == 0
  {
    if y % 400 == 0 {
      assert y == 100 * (4 * (y / 400));
    }
    if y % 100 == 0 {
      assert y == 4 * (25 * (y / 100));
    }
  }

  // ---------- the formula ----------

  /** Arithmetic of ngx_uint_t. */
  function Wrap(x: int): (r: nat)
    ensures r < TWO64
    ensures 0 <= x < TWO64 ==> r == x
  {
    x % TWO64
  }

  /** The cast to time_t. */
  function Signed(x: nat): int {
    if x < TWO64 / 2 then x else x - TWO64
  }

  /** Gauss' formula: the days since the epoch, with the year starting in March as month 1. */
  function Gauss(year: nat, month: nat, day: nat): int {
    365 * year + year / 4 - year / 100 + year / 400 + 367 * month / 12 - 30 + day - 1 - 719527 + 31 + 28
  }

  function Time(f: Fields): int {
    var m := f.month - 1;
    var month, year := if m <= 0 then m + 12 else m, if m <= 0 then Wrap(f.year - 1) else f.year;
    Signed(Wrap(Gauss(year, month, f.day) * 86400 + f.hour * 3600 + f.min * 60 + f.sec))
  }

  /** What the code accepts. */
  predicate Accepted(f: Fields) {
    && f.hour <= 23 && f.min <= 59 && f.sec <= 59 && f.month < 12
    && f.day <= DaysIn(f.year, f.month)
  }

  /** The seconds from the epoch by counting days. */
  function Seconds(f: Fields): int
    requires f.month < 12
  {
    Days(f.year, f.month, f.day) * 86400 + f.hour * 3600 + f.min * 60 + f.sec
  }

  lemma SignedWrap(x: int)
    requires -TWO64 / 2 <= x < TWO64 / 2
    ensures Signed(Wrap(x)) == x
  {
  }

  lemma MonthTerm(month: nat)
    requires 1 <= month <= 12
    ensures 367 * month / 12 - 30 == [0, 31, 61, 92, 122, 153, 184, 214, 245, 275, 306, 337][month - 1]
  {
  }

  lemma GaussFromMarch(year: nat, month: nat, day: nat)
    requires 2 <= month < 12
    ensures Gauss(year, month - 1, day) == Days(year, month, day)
  {
    hide Leap, DaysBeforeYear, DaysBeforeMonth;
    YearsBefore(year);
    YearsBefore(1970);
    MonthsBefore(year, month);
    MonthTerm(month - 1);
    if year > 0 {
      LeapStep(year);
    } else {
      assert Leap(0) by { LeapZero(); }
    }
  }

  lemma LeapZero()
    ensures Leap(0)
  {
  }

  lemma GaussToMarch(year: nat, month: nat, day: nat)
    requires month < 2 && year > 0
    ensures Gauss(year - 1, month + 11, day) == Days(year, month, day)
  {
    hide Leap, DaysBeforeYear, DaysBeforeMonth;
    YearsBefore(year);
    YearsBefore(1970);
    MonthsBefore(year, month);
    MonthTerm(month + 11);
  }

  lemma DaysBounds(year: nat, month: nat, day: nat)
    requires month < 12 && year <= 9999 && day <= 31
    ensures -800000 <= Days(year, month, day) <= 4000000
  {
    hide Leap;
    YearsBefore(year);
    YearsBefore(1970);
    MonthsBefore(year, month);
  }

  /** Gauss' formula counts the days of the calendar. */
  lemma GaussIsCounting(f: Fields)
    requires Accepted(f) && f.year <= 9999 && (f.year >= 1 || f.month >= 2)
    ensures Time(f) == Seconds(f)
  {
    hide Leap, Signed, Wrap, Gauss, Days, DaysIn;
    AcceptedDay(f);
    DaysBounds(f.year, f.month, f.day);
    SignedWrap(Seconds(f));
    if f.month >= 2 {
      GaussFromMarch(f.year, f.month, f.day);
    } else {
      GaussToMarch(f.year, f.month, f.day);
    }
  }

  lemma AcceptedDay(f: Fields)
    requires Accepted(f)
    ensures f.day <= 31
  {
  }

  lemma WrapIs(x: int)
    requires 31556951 * TWO64 <= x < 31556952 * TWO64
    ensures Wrap(x) == x - 31556951 * TWO64
  {
  }

  lemma GaussWrapped(month: nat, day: nat)
    requires month == 11 || month == 12
    ensures Gauss(TWO64 - 1, month, day) == 6737534922341860186578 + (if month == 12 then 31 else 0) + day
  {
  }

  lemma DaysOfYearZero(month: nat, day: nat)
    requires month < 2
    ensures Days(0, month, day) == (if month == 1 then 31 else 0) + day - 1 - 719528
  {
    hide Leap;
    YearsBefore(1970);
    MonthsBefore(0, month);
  }

  /** In January and February of year 0 the year wraps round, and the result is wrong. */
  lemma YearZeroWraps(f: Fields)
    requires Accepted(f) && f.year == 0 && f.month < 2
    ensures Time(f) != Seconds(f)
  {
    hide Leap, Days, DaysIn, Gauss, Wrap;
    AcceptedDay(f);
    DaysOfYearZero(f.month, f.day);
    WrapMinusOne();
    GaussWrapped(f.month + 11, f.day);
    WrapIs(Gauss(TWO64 - 1, f.month + 11, f.day) * 86400 + f.hour * 3600 + f.min * 60 + f.sec);
  }

  lemma WrapMinusOne()
    ensures Wrap(-1) == TWO64 - 1
  {
  }

  /** So the formula counts the days exactly for the other dates. */
  lemma GaussIsCountingIff(f: Fields)
    requires Accepted(f) && f.year <= 9999
    ensures Time(f) == Seconds(f) <==> f.year >= 1 || f.month >= 2
  {
    if f.year >= 1 || f.month >= 2 {
      GaussIsCounting(f);
    } else {
      YearZeroWraps(f);
    }
  }

  // ---------- reading a date ----------

  predicate Digit(c: Byte) {
    48 <= c <= 57
  }

  /** The value of a digit. */
  function Val(c: Byte): int {
    var n: int := c;
    n - 48
  }

  predicate TwoDigits(s: Bytes, p: nat)
    requires p + 2 <= |s|
  {
    Digit(s[p]) && Digit(s[p + 1])
  }

  function Two(s: Bytes, p: nat): (n: nat)
    requires p + 2 <= |s| && TwoDigits(s, p)
    ensures n <= 99
  {
    Val(s[p]) * 10 + Val(s[p + 1])
  }

  predicate FourDigits(s: Bytes, p: nat)
    requires p + 4 <= |s|
  {
    TwoDigits(s, p) && TwoDigits(s, p + 2)
  }

  function Four(s: Bytes, p: nat): (n: nat)
    requires p + 4 <= |s| && FourDigits(s, p)
    ensures n <= 9999
  {
    Two(s, p) * 100 + Two(s, p + 2)
  }

  /** The month by its first letters; 12 for none. */
  function Month(a: Byte, b: Byte, c: Byte): (m: nat)
    ensures m <= 12
  {
    if a == 74 then (if b == 97 then 0 else if c == 110 then 5 else 6)       // J: Jan, Jun, Jul
    else if a == 70 then 1                                                   // F
    else if a == 77 then (if c == 114 then 2 else 4)                         // M: Mar, May
    else if a == 65 then (if b == 112 then 3 else 7)                         // A: Apr, Aug
    else if a == 83 then 8                                                   // S
    else if a == 79 then 9                                                   // O
    else if a == 78 then 10                                                  // N
    else if a == 68 then 11                                                  // D
    else 12
  }

  /** A time of day " hh:mm:ss" at p. */
  predicate ClockAt(s: Bytes, p: nat)
    requires p + 9 <= |s|
  {
    && s[p] == SP && TwoDigits(s, p + 1)
    && s[p + 3] == COLON && TwoDigits(s, p + 4) && s[p + 6] == COLON && TwoDigits(s, p + 7)
  }

  function WithClock(year: nat, month: nat, day: nat, s: Bytes, p: nat): Fields
    requires p + 9 <= |s| && ClockAt(s, p)
  {
    Fields(year, month, day, Two(s, p + 1), Two(s, p + 4), Two(s, p + 7))
  }

  /** "10 Nov 2002 23:50:13" */
  function Rfc822(s: Bytes): Result<Fields>
    requires |s| >= 18 && TwoDigits(s, 0) && s[2] == SP
  {
    if |s| < 20 || Month(s[3], s[4], s[5]) == 12 || s[6] != SP || !FourDigits(s, 7) || !ClockAt(s, 11) then Error
    else Ok(WithClock(Four(s, 7), Month(s[3], s[4], s[5]), Two(s, 0), s, 11))
  }

  /** "10-Dec-02 23:50:13", of the years from 1970 to 2069 */
  function Rfc850(s: Bytes): Result<Fields>
    requires |s| >= 18 && TwoDigits(s, 0) && s[2] == DASH
  {
    if Month(s[3], s[4], s[5]) == 12 || s[6] != DASH || !TwoDigits(s, 7) || !ClockAt(s, 9) then Error
    else
      var y := Two(s, 7);
      Ok(WithClock(if y < 70 then y + 2000 else y + 1900, Month(s[3], s[4], s[5]), Two(s, 0), s, 9))
  }

  /** "Dec 10 23:50:13 2002", or with a space for the first digit of the day */
  function Isoc(s: Bytes): Result<Fields>
    requires |s| >= 18
  {
    var p := if s[4] == SP then 5 else 4;
    if Month(s[0], s[1], s[2]) == 12 || !Digit(s[p]) || (s[p + 1] != SP && !Digit(s[p + 1])) then Error
    else
      var q, day := if s[p + 1] == SP then p + 1 else p + 2,
                    if s[p + 1] == SP then Val(s[p]) else Val(s[p]) * 10 + Val(s[p + 1]);
      if |s| - q < 14 || !ClockAt(s, q) || s[q + 9] != SP || !FourDigits(s, q + 10) then Error
      else Ok(WithClock(Four(s, q + 10), Month(s[0], s[1], s[2]), day, s, q))
  }

  /** The date that starts here; in the asctime format if `isoc`. */
  function Date(s: Bytes, isoc: bool): Result<Fields> {
    if |s| < 18 then Error
    else if isoc then Isoc(s)
    else if !TwoDigits(s, 0) then Error
    else if s[2] == SP then Rfc822(s)
    else if s[2] == DASH then Rfc850(s)
    else Error
  }

  /** Where the first comma or space is. */
  function Mark(s: Bytes): (i: nat)
    ensures i <= |s| && (i < |s| ==> s[i] == COMMA || s[i] == SP)
    ensures forall k :: 0 <= k < i ==> s[k] != COMMA && s[k] != SP
  {
    if s == [] || s[0] == COMMA || s[0] == SP then 0 else 1 + Mark(s[1..])
  }

  /** s without leading spaces. */
  function SkipSpaces(s: Bytes): (r: Bytes)
    ensures |r| <= |s| && s[|s| - |r|..] == r
    ensures forall k :: 0 <= k < |s| - |r| ==> s[k] == SP
    ensures r != [] ==> r[0] != SP
  {
    if s == [] || s[0] != SP then s else SkipSpaces(s[1..])
  }

  /** What a value says, and whether it is a date. */
  function Reading(value: Bytes): Result<Fields> {
    var i := Mark(value);
    if i == |value| then Error else Date(SkipSpaces(value[i + 1..]), value[i] == SP)
  }

  /** The two loops: where the date starts, and whether its format is asctime's. */
  method FindStart(value: Bytes) returns (p: nat, isoc: bool)
    ensures var i := Mark(value);
      if i == |value| then p > |value|
      else p <= |value| && value[p..] == SkipSpaces(value[i + 1..]) && isoc == (value[i] == SP)
  {
    hide Mark, SkipSpaces;
    p, isoc := 0, false;
    while p < |value|
      invariant p <= |value| && forall k :: 0 <= k < p ==> value[k] != COMMA && value[k] != SP
    {
      if value[p] == COMMA {
        break;
      }
      if value[p] == SP {
        isoc := true;
        break;
      }
      p := p + 1;
    }
    MarkIs(value, p);
    if p == |value| {
      p := p + 1;
    } else {
      p := SkipLoop(value, p + 1);
    }
  }

  /** The second loop. */
  method SkipLoop(value: Bytes, start: nat) returns (p: nat)
    requires start <= |value|
    ensures p <= |value| && value[p..] == SkipSpaces(value[start..])
  {
    hide SkipSpaces;
    p := start;
    while p < |value|
      invariant p <= |value| && SkipSpaces(value[p..]) == SkipSpaces(value[start..])
    {
      SkipOne(value, p);
      if value[p] != SP {
        return;
      }
      p := p + 1;
    }
    SkipOne(value, p);
  }

  lemma MarkIs(s: Bytes, i: nat)
    requires i <= |s| && (i < |s| ==> s[i] == COMMA || s[i] == SP)
    requires forall k :: 0 <= k < i ==> s[k] != COMMA && s[k] != SP
    ensures Mark(s) == i
  {
  }

  lemma SkipOne(s: Bytes, p: nat)
    requires p <= |s|
    ensures p < |s| && s[p] == SP ==> SkipSpaces(s[p..]) == SkipSpaces(s[p + 1..])
    ensures p == |s| || s[p] != SP ==> SkipSpaces(s[p..]) == s[p..]
  {
    if p < |s| {
      assert s[p..][1..] == s[p + 1..];
    }
  }

  /** The time of day at p. */
  method ReadClock(s: Bytes, p0: nat) returns (ok: bool, hour: nat, min: nat, sec: nat, p: nat)
    requires p0 + 9 <= |s|
    ensures ok <==> ClockAt(s, p0)
    ensures ok ==> p == p0 + 7 && hour == Two(s, p0 + 1) && min == Two(s, p0 + 4) && sec == Two(s, p0 + 7)
  {
    ok, hour, min, sec, p := false, 0, 0, 0, p0;
    if s[p] != SP {
      return;
    }
    p := p + 1;
    if s[p] < 48 || s[p] > 57 || s[p + 1] < 48 || s[p + 1] > 57 {
      return;
    }
    hour := Val(s[p]) * 10 + Val(s[p + 1]);
    p := p + 2;
    if s[p] != COLON {
      return;
    }
    p := p + 1;
    if s[p] < 48 || s[p] > 57 || s[p + 1] < 48 || s[p + 1] > 57 {
      return;
    }
    min := Val(s[p]) * 10 + Val(s[p + 1]);
    p := p + 2;
    if s[p] != COLON {
      return;
    }
    p := p + 1;
    if s[p] < 48 || s[p] > 57 || s[p + 1] < 48 || s[p + 1] > 57 {
      return;
    }
    sec := Val(s[p]) * 10 + Val(s[p + 1]);
    ok := true;
  }

  /** The year of four digits at p. */
  method ReadYear(s: Bytes, p: nat) returns (r: Result<nat>)
    requires p + 4 <= |s|
    ensures r == if FourDigits(s, p) then Ok(Four(s, p)) else Error
  {
    if s[p] < 48 || s[p] > 57 || s[p + 1] < 48 || s[p + 1] > 57
       || s[p + 2] < 48 || s[p + 2] > 57 || s[p + 3] < 48 || s[p + 3] > 57 {
      return Error;
    }
    return Ok(Val(s[p]) * 1000 + Val(s[p + 1]) * 100 + Val(s[p + 2]) * 10 + Val(s[p + 3]));
  }

  /** A date that starts with its day: of RFC 822, or of RFC 850. */
  method ReadDayFirst(s: Bytes) returns (r: Result<Fields>)
    requires |s| >= 18
    ensures r == Date(s, false)
  {
    hide ClockAt, FourDigits, Four, Month;
    var p: nat, rfc822 := 0, false;
    if s[p] < 48 || s[p] > 57 || s[p + 1] < 48 || s[p + 1] > 57 {
      return Error;
    }
    var day := Val(s[p]) * 10 + Val(s[p + 1]);
    p := p + 2;
    if s[p] == SP {
      if |s| - p < 18 {
        return Error;
      }
      rfc822 := true;
    } else if s[p] != DASH {
      return Error;
    }
    p := p + 1;
    var month := Month(s[p], s[p + 1], s[p + 2]);
    if month == 12 {
      return Error;
    }
    p := p + 3;
    if (rfc822 && s[p] != SP) || (!rfc822 && s[p] != DASH) {
      return Error;
    }
    p := p + 1;
    var year: nat;
    if rfc822 {
      var y := ReadYear(s, p);
      if y.Error? {
        return Error;
      }
      year := y.value;
      p := p + 4;
    } else {
      if s[p] < 48 || s[p] > 57 || s[p + 1] < 48 || s[p + 1] > 57 {
        return Error;
      }
      year := Val(s[p]) * 10 + Val(s[p + 1]);
      year := year + if year < 70 then 2000 else 1900;
      p := p + 2;
    }
    var ok, hour, min, sec, _ := ReadClock(s, p);
    return if ok then Ok(Fields(year, month, day, hour, min, sec)) else Error;
  }

  /** A date of asctime. */
  method ReadIsoc(s: Bytes) returns (r: Result<Fields>)
    requires |s| >= 18
    ensures r == Isoc(s)
  {
    hide ClockAt, FourDigits, Four, Month;
    var p: nat := 0;
    var month := Month(s[p], s[p + 1], s[p + 2]);
    if month == 12 {
      return Error;
    }
    p := p + 4;
    if s[p] == SP {
      p := p + 1;
    }
    if s[p] < 48 || s[p] > 57 {
      return Error;
    }
    var day := Val(s[p]);
    p := p + 1;
    if s[p] != SP {
      if s[p] < 48 || s[p] > 57 {
        return Error;
      }
      day := day * 10 + Val(s[p]);
      p := p + 1;
    }
    if |s| - p < 14 {
      return Error;
    }
    var ok, hour, min, sec, p' := ReadClock(s, p);
    if !ok {
      return Error;
    }
    p := p' + 2;
    if s[p] != SP {
      return Error;
    }
    p := p + 1;
    var year := ReadYear(s, p);
    return if year.Ok? then Ok(Fields(year.value, month, day, hour, min, sec)) else Error;
  }

  /** Everything from the first letter of the date on; s is what is left of the value. */
  method ReadDate(s: Bytes, isoc: bool) returns (r: Result<Fields>)
    ensures r == Date(s, isoc)
  {
    hide Isoc, Rfc822, Rfc850;
    if |s| < 18 {
      return Error;
    }
    if isoc {
      r := ReadIsoc(s);
    } else {
      r := ReadDayFirst(s);
    }
  }

  /** ngx_parse_http_time */
  method ParseHttpTime(value: Bytes) returns (r: Result<int>)
    ensures r == match Reading(value)
                 case Ok(f) => if Accepted(f) then Ok(Time(f)) else Error
                 case Error => Error
  {
    hide Date, Time, Mark, SkipSpaces, Accepted;
    var p, isoc := FindStart(value);
    if p > |value| {
      return Error;
    }
    var d := ReadDate(value[p..], isoc);
    if d.Error? {
      return Error;
    }
    var f := d.value;
    MonthIs(value[p..], isoc);
    AcceptedIs(f);
    if f.hour > 23 || f.min > 59 || f.sec > 59 {
      return Error;
    }
    if f.day == 29 && f.month == 1 {
      if f.year % 4 != 0 || (f.year % 100 == 0 && f.year % 400 != 0) {
        return Error;
      }
    } else if f.day > MDAY[f.month] {
      return Error;
    }
    return Ok(Time(f));
  }

  lemma AcceptedIs(f: Fields)
    requires f.month < 12
    ensures Accepted(f) <==>
      && f.hour <= 23 && f.min <= 59 && f.sec <= 59
      && if f.day == 29 && f.month == 1 then !(f.year % 4 != 0 || (f.year % 100 == 0 && f.year % 400 != 0))
         else f.day <= MDAY[f.month]
  {
  }

  lemma MonthIs(s: Bytes, isoc: bool)
    requires Date(s, isoc).Ok?
    ensures Date(s, isoc).value.month < 12 && Date(s, isoc).value.year <= 9999
  {
  }

  // ---------- writing a date ----------

  /** A digit. */
  function Dec(n: nat): (c: Byte)
    requires n <= 9
    ensures Digit(c) && Val(c) == n
  {
    48 + n
  }

  const NAMES: seq<Bytes> := [
    [74, 97, 110], [70, 101, 98], [77, 97, 114], [65, 112, 114], [77, 97, 121], [74, 117, 110],
    [74, 117, 108], [65, 117, 103], [83, 101, 112], [79, 99, 116], [78, 111, 118], [68, 101, 99]]

  function Name(month: nat): (n: Bytes)
    requires month < 12
    ensures |n| == 3
  {
    NAMES[month]
  }

  /** The names of the months are told apart by the letters that are looked at. */
  lemma MonthOfName(month: nat)
    requires month < 12
    ensures Month(Name(month)[0], Name(month)[1], Name(month)[2]) == month
    ensures Name(month)[0] != SP
  {
    assert NAMES[month] in NAMES;
  }

  function Clock(f: Fields): (s: Bytes)
    requires f.hour <= 99 && f.min <= 99 && f.sec <= 99
    ensures |s| == 9
  {
    [SP, Dec(f.hour / 10), Dec(f.hour % 10), COLON,
     Dec(f.min / 10), Dec(f.min % 10), COLON, Dec(f.sec / 10), Dec(f.sec % 10)]
  }

  predicate Writable(f: Fields) {
    f.year <= 9999 && f.month < 12 && f.day <= 99 && f.hour <= 99 && f.min <= 99 && f.sec <= 99
  }

  /** "06 Nov 1994 08:49:37" */
  function AsRfc822(f: Fields): (s: Bytes)
    requires Writable(f)
    ensures |s| == 20
  {
    [Dec(f.day / 10), Dec(f.day % 10), SP] + Name(f.month) +
    [SP, Dec(f.year / 1000), Dec(f.year / 100 % 10), Dec(f.year / 10 % 10), Dec(f.year % 10)] + Clock(f)
  }

  /** "06-Nov-94 08:49:37" */
  function AsRfc850(f: Fields): (s: Bytes)
    requires Writable(f)
    ensures |s| == 18
  {
    [Dec(f.day / 10), Dec(f.day % 10), DASH] + Name(f.month) +
    [DASH, Dec(f.year / 10 % 10), Dec(f.year % 10)] + Clock(f)
  }

  /** "Nov  6 08:49:37 1994" */
  function AsAsctime(f: Fields): (s: Bytes)
    requires Writable(f)
    ensures |s| == 20
  {
    Name(f.month) + [SP, if f.day <= 9 then SP else Dec(f.day / 10), Dec(f.day % 10)] + Clock(f) +
    [SP, Dec(f.year / 1000), Dec(f.year / 100 % 10), Dec(f.year / 10 % 10), Dec(f.year % 10)]
  }

  lemma YearDigits(y: nat)
    requires y <= 9999
    ensures (y / 1000 * 10 + y / 100 % 10) * 100 + (y / 10 % 10 * 10 + y % 10) == y
    ensures y / 1000 <= 9
    ensures 1970 <= y <= 2069 ==> var t := y / 10 % 10 * 10 + y % 10; y == t + if t < 70 then 2000 else 1900
  {
    var a, b, c, d := y / 1000, y / 100 % 10, y / 10 % 10, y % 10;
    assert y / 10 == y / 100 * 10 + c;
    assert y / 100 == a * 10 + b;
    assert y == 1000 * a + 100 * b + 10 * c + d;
  }

  lemma ClockReads(f: Fields, s: Bytes, p: nat)
    requires f.hour <= 99 && f.min <= 99 && f.sec <= 99
    requires p + 9 <= |s| && s[p..p + 9] == Clock(f)
    ensures ClockAt(s, p) && Two(s, p + 1) == f.hour && Two(s, p + 4) == f.min && Two(s, p + 7) == f.sec
  {
    var c := s[p..p + 9];
    assert c[0] == s[p] && c[1] == s[p + 1] && c[2] == s[p + 2] && c[3] == s[p + 3] && c[4] == s[p + 4];
    assert c[5] == s[p + 5] && c[6] == s[p + 6] && c[7] == s[p + 7] && c[8] == s[p + 8];
  }

  lemma Rfc822Reads(f: Fields, tail: Bytes)
    requires Writable(f)
    ensures Date(AsRfc822(f) + tail, false) == Ok(f)
  {
    hide Month, Clock, ClockAt, Name;
    var s, c := AsRfc822(f) + tail, Clock(f);
    var n := Name(f.month);
    assert s[0] == Dec(f.day / 10) && s[1] == Dec(f.day % 10) && s[2] == SP;
    assert s[3] == n[0] && s[4] == n[1] && s[5] == n[2] && s[6] == SP;
    assert s[7] == Dec(f.year / 1000) && s[8] == Dec(f.year / 100 % 10);
    assert s[9] == Dec(f.year / 10 % 10) && s[10] == Dec(f.year % 10);
    assert s[11..20] == c;
    MonthOfName(f.month);
    ClockReads(f, s, 11);
    YearDigits(f.year);
  }

  lemma Rfc850Reads(f: Fields, tail: Bytes)
    requires Writable(f) && 1970 <= f.year <= 2069
    ensures Date(AsRfc850(f) + tail, false) == Ok(f)
  {
    hide Month, Clock, ClockAt, Name;
    var s, c := AsRfc850(f) + tail, Clock(f);
    var n := Name(f.month);
    assert s[0] == Dec(f.day / 10) && s[1] == Dec(f.day % 10) && s[2] == DASH;
    assert s[3] == n[0] && s[4] == n[1] && s[5] == n[2] && s[6] == DASH;
    assert s[7] == Dec(f.year / 10 % 10) && s[8] == Dec(f.year % 10);
    assert s[9..18] == c;
    MonthOfName(f.month);
    ClockReads(f, s, 9);
    YearDigits(f.year);
  }

  lemma AsctimeReads(f: Fields, tail: Bytes)
    requires Writable(f)
    ensures Date(AsAsctime(f) + tail, true) == Ok(f)
  {
    hide Month, Clock, ClockAt, Name;
    var s, c := AsAsctime(f) + tail, Clock(f);
    var n := Name(f.month);
    assert s[0] == n[0] && s[1] == n[1] && s[2] == n[2] && s[3] == SP;
    assert s[4] == (if f.day <= 9 then SP else Dec(f.day / 10)) && s[5] == Dec(f.day % 10);
    assert s[6..15] == c;
    assert s[6] == c[0];
    assert c[0] == SP by { ClockStarts(f); }
    assert s[15] == SP && s[16] == Dec(f.year / 1000) && s[17] == Dec(f.year / 100 % 10);
    assert s[18] == Dec(f.year / 10 % 10) && s[19] == Dec(f.year % 10);
    MonthOfName(f.month);
    ClockReads(f, s, 6);
    YearDigits(f.year);
  }

  lemma ClockStarts(f: Fields)
    requires f.hour <= 99 && f.min <= 99 && f.sec <= 99
    ensures Clock(f)[0] == SP
  {
  }

  /** The name of a day: it has no comma and no space. */
  predicate DayName(s: Bytes) {
    forall i :: 0 <= i < |s| ==> s[i] != COMMA && s[i] != SP
  }

  /** Behind the name of the day, its comma or space, and further spaces the date starts. */
  lemma DateStarts(wday: Bytes, mark: Byte, spaces: Bytes, date: Bytes)
    requires DayName(wday) && (mark == COMMA || mark == SP)
    requires forall i :: 0 <= i < |spaces| ==> spaces[i] == SP
    requires date != [] && date[0] != SP
    ensures Reading(wday + [mark] + spaces + date) == Date(date, mark == SP)
  {
    hide Date, Mark, SkipSpaces;
    var value := wday + [mark] + spaces + date;
    MarkIs(value, |wday|);
    assert value[|wday|] == mark && value[|wday| + 1..] == spaces + date;
    SkipsAll(spaces, date);
  }

  lemma {:induction false} SkipsAll(spaces: Bytes, date: Bytes)
    requires forall i :: 0 <= i < |spaces| ==> spaces[i] == SP
    requires date != [] && date[0] != SP
    ensures SkipSpaces(spaces + date) == date
  {
    if spaces == [] {
      assert spaces + date == date;
    } else {
      SkipsAll(spaces[1..], date);
      assert (spaces + date)[1..] == spaces[1..] + date;
    }
  }

  /** The three formats of one instant are all read as it, and give the seconds that counting days gives. */
  lemma FormatsAgree(wday: Bytes, f: Fields, tail: Bytes)
    requires DayName(wday) && Accepted(f) && 1970 <= f.year <= 2069
    ensures f.day <= 31
    ensures Reading(wday + [COMMA] + [SP] + (AsRfc822(f) + tail)) == Ok(f)
    ensures Reading(wday + [COMMA] + [SP] + (AsRfc850(f) + tail)) == Ok(f)
    ensures Reading(wday + [SP] + [] + (AsAsctime(f) + tail)) == Ok(f)
    ensures Time(f) == Seconds(f)
  {
    hide Reading, Date, Time, Seconds, Accepted;
    AcceptedDay(f);
    assert Writable(f) by { AcceptedWritable(f); }
    GaussIsCounting(f);
    FirstByte(f);
    Rfc822Reads(f, tail);
    DateStarts(wday, COMMA, [SP], AsRfc822(f) + tail);
    Rfc850Reads(f, tail);
    DateStarts(wday, COMMA, [SP], AsRfc850(f) + tail);
    AsctimeReads(f, tail);
    DateStarts(wday, SP, [], AsAsctime(f) + tail);
  }

  lemma AcceptedWritable(f: Fields)
    requires Accepted(f) && f.year <= 9999
    ensures Writable(f)
  {
  }

  lemma FirstByte(f: Fields)
    requires Writable(f)
    ensures AsRfc822(f)[0] != SP && AsRfc850(f)[0] != SP && AsAsctime(f)[0] != SP
  {
    MonthOfName(f.month);
  }

  // ---------- what is taken for a date ----------

  /** The letters that begin a month's name. */
  lemma MonthLetters(a: Byte, b: Byte, c: Byte)
    ensures Month(a, b, c) < 12 <==> a in [74, 70, 77, 65, 83, 79, 78, 68]
    ensures Month(a, b, c) < 12 ==> Name(Month(a, b, c))[0] == a
  {
    assert NAMES[Month(a, b, c) % 12] in NAMES;
  }

  lemma DigitsOf(a: Byte, b: Byte)
    requires Digit(a) && Digit(b)
    ensures var n := Val(a) * 10 + Val(b); 0 <= n <= 99 && Dec(n / 10) == a && Dec(n % 10) == b
  {
  }

  lemma TwoIs(s: Bytes, p: nat)
    requires p + 2 <= |s| && TwoDigits(s, p)
    ensures s[p..p + 2] == [Dec(Two(s, p) / 10), Dec(Two(s, p) % 10)]
  {
    DigitsOf(s[p], s[p + 1]);
  }

  lemma FourIs(s: Bytes, p: nat)
    requires p + 4 <= |s| && FourDigits(s, p)
    ensures var y := Four(s, p);
      s[p..p + 4] == [Dec(y / 1000), Dec(y / 100 % 10), Dec(y / 10 % 10), Dec(y % 10)]
  {
    DigitsOf(s[p], s[p + 1]);
    DigitsOf(s[p + 2], s[p + 3]);
    var a, b := Two(s, p), Two(s, p + 2);
    YearParts(a, b);
  }

  lemma YearParts(a: nat, b: nat)
    requires a <= 99 && b <= 99
    ensures var y := a * 100 + b;
      y / 1000 == a / 10 && y / 100 % 10 == a % 10 && y / 10 % 10 == b / 10 && y % 10 == b % 10
  {
    var a1, a0, b1, b0 := a / 10, a % 10, b / 10, b % 10;
    var y := a * 100 + b;
    assert y == 1000 * a1 + (100 * a0 + b) && y == 100 * a + b && y == 10 * (10 * a + b1) + b0;
    assert y / 100 == a && y / 10 == 10 * a + b1;
  }

  lemma ClockIs(s: Bytes, p: nat, f: Fields)
    requires p + 9 <= |s| && ClockAt(s, p) && f == WithClock(f.year, f.month, f.day, s, p)
    ensures f.hour <= 99 && f.min <= 99 && f.sec <= 99 && s[p..p + 9] == Clock(f)
  {
    DigitsOf(s[p + 1], s[p + 2]);
    DigitsOf(s[p + 4], s[p + 5]);
    DigitsOf(s[p + 7], s[p + 8]);
  }

  /** Whatever is read as a date of RFC 822 is written as one, but for two letters of the month. */
  lemma OnlyRfc822(s: Bytes)
    requires |s| >= 18 && TwoDigits(s, 0) && s[2] == SP && Rfc822(s).Ok?
    ensures var f := Rfc822(s).value;
      Writable(f) && |s| >= 20 && s[..3] + Name(f.month) + s[6..20] == AsRfc822(f)
  {
    hide Month, Two, Four, ClockAt, Clock;
    var f := Rfc822(s).value;
    TwoIs(s, 0);
    FourIs(s, 7);
    ClockIs(s, 11, f);
    assert s[..3] == s[0..2] + [SP];
    assert s[6..20] == [SP] + s[7..11] + s[11..20];
  }

  /** So is a date of RFC 850, with the century that makes the year one of 1970 to 2069. */
  lemma OnlyRfc850(s: Bytes)
    requires |s| >= 18 && TwoDigits(s, 0) && s[2] == DASH && Rfc850(s).Ok?
    ensures var f := Rfc850(s).value;
      Writable(f) && 1970 <= f.year <= 2069 && s[..3] + Name(f.month) + s[6..18] == AsRfc850(f)
  {
    hide Month, Two, Four, ClockAt, Clock;
    var f := Rfc850(s).value;
    TwoIs(s, 0);
    TwoIs(s, 7);
    ClockIs(s, 9, f);
    assert s[..3] == s[0..2] + [DASH];
    assert s[6..18] == [DASH] + s[7..9] + s[9..18];
    Century(Two(s, 7));
  }

  lemma Century(t: nat)
    requires t <= 99
    ensures var y := if t < 70 then t + 2000 else t + 1900; y / 10 % 10 == t / 10 && y % 10 == t % 10
  {
  }

  /** And one of asctime, whose day has one digit or two, and may have a space more before it. */
  lemma OnlyAsctime(s: Bytes) returns (sp: Bytes, day: Bytes, q: nat)
    requires |s| >= 18 && Isoc(s).Ok?
    ensures sp in {[], [SP]} && q == 4 + |sp| + |day| && q + 14 <= |s|
    ensures var f := Isoc(s).value;
      && Writable(f) && day == (if |day| == 1 then [Dec(f.day % 10)] else [Dec(f.day / 10), Dec(f.day % 10)])
      && (|day| == 1 ==> f.day <= 9)
      && s[4..q + 14] == sp + day + Clock(f)
           + [SP, Dec(f.year / 1000), Dec(f.year / 100 % 10), Dec(f.year / 10 % 10), Dec(f.year % 10)]
  {
    hide Isoc, Month, Four, ClockAt, Clock;
    var f := Isoc(s).value;
    var p := if s[4] == SP then 5 else 4;
    q := if s[p + 1] == SP then p + 1 else p + 2;
    sp, day := s[4..p], s[p..q];
    IsocParts(s);
    DayIs(s, p, q, f.day);
    ClockIs(s, q, f);
    FourIs(s, q + 10);
    assert sp == if p == 5 then [SP] else [];
    FiveParts(s, p, q);
  }

  lemma IsocParts(s: Bytes)
    requires |s| >= 18 && Isoc(s).Ok?
    ensures var f, p := Isoc(s).value, if s[4] == SP then 5 else 4;
      var q := if s[p + 1] == SP then p + 1 else p + 2;
      && q + 14 <= |s| && Digit(s[p]) && (s[p + 1] == SP || Digit(s[p + 1])) && ClockAt(s, q)
      && s[q + 9] == SP && FourDigits(s, q + 10) && f.year == Four(s, q + 10) && f.month < 12
      && f == WithClock(f.year, f.month, f.day, s, q)
      && f.day == (if s[p + 1] == SP then Val(s[p]) else Val(s[p]) * 10 + Val(s[p + 1]))
  {
    hide Month, Four, ClockAt, FourDigits;
  }

  lemma DayIs(s: Bytes, p: nat, q: nat, day: nat)
    requires p + 2 <= |s| && Digit(s[p]) && (s[p + 1] == SP || Digit(s[p + 1]))
    requires q == if s[p + 1] == SP then p + 1 else p + 2
    requires day == if s[p + 1] == SP then Val(s[p]) else Val(s[p]) * 10 + Val(s[p + 1])
    ensures day <= 99 && (q == p + 1 ==> day <= 9)
    ensures s[p..q] == if q == p + 1 then [Dec(day % 10)] else [Dec(day / 10), Dec(day % 10)]
  {
    if s[p + 1] != SP {
      DigitsOf(s[p], s[p + 1]);
    }
    assert s[p..q] == if q == p + 1 then [s[p]] else [s[p], s[p + 1]];
  }

  lemma FiveParts(s: Bytes, p: nat, q: nat)
    requires 4 <= p <= q && q + 14 <= |s|
    ensures s[4..q + 14] == s[4..p] + s[p..q] + s[q..q + 9] + ([s[q + 9]] + s[q + 10..q + 14])
  {
  }
}
