/** Civil dates from day numbers, against the proleptic Gregorian calendar counted day by day. */
module Calendar {

  datatype Date = Date(year: int, month: int, day: int)

  // ---------------------------------------------------------------- the calendar

  predicate Leap(y: int) {
    y % 4 == 0 && (y % 100 != 0 || y % 400 == 0)
  }

  function DaysInMonth(y: int, m: int): int {
    if m == 2 then (if Leap(y) then 29 else 28)
    else if m == 4 || m == 6 || m == 9 || m == 11 then 30
    else 31
  }

  predicate ValidDate(d: Date) {
    1 <= d.month <= 12 && 1 <= d.day <= DaysInMonth(d.year, d.month)
  }

  function NextDay(d: Date): Date {
    if d.day < DaysInMonth(d.year, d.month) then Date(d.year, d.month, d.day + 1)
    else if d.month < 12 then Date(d.year, d.month + 1, 1)
    else Date(d.year + 1, 1, 1)
  }

  function DaysAfter(d: Date, n: nat): Date {
    if n == 0 then d else NextDay(DaysAfter(d, n - 1))
  }

  predicate Earlier(a: Date, b: Date) {
    a.year < b.year || (a.year == b.year && (a.month < b.month || (a.month == b.month && a.day < b.day)))
  }

  // ---------------------------------------------------------------- the conversion

  const EPOCH_SHIFT := 719468
  const ERA_DAYS := 146097

  function YearOfEra(doe: int): int {
    (doe - doe / 1460 + doe / 36524 - doe / 146096) / 365
  }

  function DayOfYear(doe: int): int {
    var yoe := YearOfEra(doe);
    doe - (365 * yoe + yoe / 4 - yoe / 100)
  }

  /** Month and day within a year that starts on the first of March; `y` is that year. */
  function Assemble(y: int, doy: int): Date {
    var mp := (5 * doy + 2) / 153;
    var day := doy - (153 * mp + 2) / 5 + 1;
    var month := if mp < 10 then mp + 3 else mp - 9;
    Date(if month <= 2 then y + 1 else y, month, day)
  }

  function CivilFromDays(days: int): Date {
    var z := days + EPOCH_SHIFT;
    var era := z / ERA_DAYS;
    var doe := z % ERA_DAYS;
    Assemble(YearOfEra(doe) + era * 400, DayOfYear(doe))
  }

  // ---------------------------------------------------------------- years of an era

  /** Position within an era: century, four-year cycle, year of the cycle, day of the year. */
  datatype Place = Place(century: int, cycle: int, year: int, doy: int)

  /** The last year of a cycle is long, except at a century's end; the era's last century keeps it. */
  predicate LongYear(p: Place) {
    p.year == 3 && (p.cycle < 24 || p.century == 3)
  }

  predicate InEra(p: Place) {
    && 0 <= p.century <= 3 && 0 <= p.cycle <= 24 && 0 <= p.year <= 3
    && 0 <= p.doy < (if LongYear(p) then 366 else 365)
  }

  function Offset(p: Place): int {
    36524 * p.century + 1461 * p.cycle + 365 * p.year + p.doy
  }

  function YearNumber(p: Place): int {
    100 * p.century + 4 * p.cycle + p.year
  }

  function Least(a: int, b: int): int {
    if a < b then a else b
  }

  lemma Located(doe: int) returns (p: Place)
    requires 0 <= doe < ERA_DAYS
    ensures InEra(p) && Offset(p) == doe
  {
    var century := Least(doe / 36524, 3);
    var inCentury := doe - 36524 * century;
    var cycle := inCentury / 1461;
    var inCycle := inCentury - 1461 * cycle;
    var year := Least(inCycle / 365, 3);
    p := Place(century, cycle, year, inCycle - 365 * year);
    assert cycle <= 24;
  }

  /** The estimate with three corrections finds the year exactly. */
  lemma YearFound(p: Place)
    requires InEra(p)
    ensures YearOfEra(Offset(p)) == YearNumber(p) && DayOfYear(Offset(p)) == p.doy && 0 <= Offset(p) < ERA_DAYS
  {
    var doe := Offset(p);
    CenturyTerm(p);
    CycleTerm(p);
    var e := if 24 * p.century + p.cycle + 365 * p.year + p.doy >= 1460 then 1 else 0;
    var est := doe - doe / 1460 + doe / 36524 - doe / 146096;
    assert est == 365 * YearNumber(p) + (p.doy - e);
    assert 0 <= p.doy - e < 365;
    assert est / 365 == YearNumber(p);
    assert YearNumber(p) / 4 == 25 * p.century + p.cycle;
    assert YearNumber(p) / 100 == p.century;
  }

  lemma CenturyTerm(p: Place)
    requires InEra(p)
    ensures Offset(p) / 36524 - Offset(p) / 146096 == p.century && 0 <= Offset(p) < ERA_DAYS
  {
    var rest := 1461 * p.cycle + 365 * p.year + p.doy;
    assert 0 <= rest <= 36524 && (p.century < 3 ==> rest < 36524);
  }

  lemma CycleTerm(p: Place)
    requires InEra(p)
    ensures Offset(p) / 1460 == 25 * p.century + p.cycle + if 24 * p.century + p.cycle + 365 * p.year + p.doy >= 1460 then 1 else 0
  {
    var inner := 24 * p.century + p.cycle + 365 * p.year + p.doy;
    assert Offset(p) == 1460 * (25 * p.century + p.cycle) + inner;
    assert 0 <= inner < 2920;
  }

  /** Long years are the leap years, counted by the February that ends them. */
  lemma LongIsLeap(p: Place, era: int)
    requires InEra(p)
    ensures LongYear(p) <==> Leap(YearNumber(p) + era * 400 + 1)
  {
    var y := YearNumber(p) + era * 400 + 1;
    assert y == 4 * (25 * p.century + p.cycle + 100 * era) + (p.year + 1);
    assert y == 100 * (p.century + 4 * era) + (4 * p.cycle + p.year + 1);
    assert y == 400 * era + (100 * p.century + 4 * p.cycle + p.year + 1);
  }

  // ---------------------------------------------------------------- months of a year

  function MonthStart(mp: int): int {
    (153 * mp + 2) / 5
  }

  /** Within a year the formula finds the month whose first day precedes. */
  lemma MonthFound(doy: int)
    requires 0 <= doy < 366
    ensures var mp := (5 * doy + 2) / 153; 0 <= mp <= 11 && MonthStart(mp) <= doy && (mp < 11 ==> doy < MonthStart(mp + 1))
  {
  }

  lemma DateValid(y: int, doy: int)
    requires 0 <= doy < (if Leap(y + 1) then 366 else 365)
    ensures ValidDate(Assemble(y, doy))
  {
    hide Leap;
    MonthFound(doy);
    MonthStarts();
  }

  lemma DateStep(y: int, doy: int)
    requires 0 <= doy && doy + 1 < (if Leap(y + 1) then 366 else 365)
    ensures Assemble(y, doy + 1) == NextDay(Assemble(y, doy))
  {
    hide Leap;
    MonthFound(doy);
    MonthFound(doy + 1);
    MonthStarts();
  }

  lemma DateWrap(y: int)
    ensures NextDay(Assemble(y, if Leap(y + 1) then 365 else 364)) == Assemble(y + 1, 0)
  {
    hide Leap;
  }

  lemma DateInYear(y: int, doy: int)
    requires 0 <= doy < (if Leap(y + 1) then 366 else 365)
    ensures ValidDate(Assemble(y, doy))
    ensures doy + 1 < (if Leap(y + 1) then 366 else 365) ==> Assemble(y, doy + 1) == NextDay(Assemble(y, doy))
    ensures doy + 1 == (if Leap(y + 1) then 366 else 365) ==> NextDay(Assemble(y, doy)) == Assemble(y + 1, 0)
  {
    hide Leap, Assemble, NextDay, ValidDate;
    DateValid(y, doy);
    if doy + 1 < (if Leap(y + 1) then 366 else 365) { DateStep(y, doy); }
    DateWrap(y);
  }

  lemma MonthStarts()
    ensures MonthStart(0) == 0 && MonthStart(1) == 31 && MonthStart(2) == 61 && MonthStart(3) == 92 && MonthStart(4) == 122
    ensures MonthStart(5) == 153 && MonthStart(6) == 184 && MonthStart(7) == 214 && MonthStart(8) == 245 && MonthStart(9) == 275
    ensures MonthStart(10) == 306 && MonthStart(11) == 337
  {
  }

  // ---------------------------------------------------------------- day by day

  lemma CivilPlace(days: int) returns (p: Place, era: int)
    ensures InEra(p) && days + EPOCH_SHIFT == era * ERA_DAYS + Offset(p)
    ensures CivilFromDays(days) == Assemble(YearNumber(p) + era * 400, p.doy)
  {
    hide YearOfEra, DayOfYear, Assemble, Offset, YearNumber, InEra;
    var z := days + EPOCH_SHIFT;
    era := z / ERA_DAYS;
    p := Located(z % ERA_DAYS);
    YearFound(p);
  }

  lemma CivilAt(p: Place, era: int, days: int)
    requires InEra(p) && days + EPOCH_SHIFT == era * ERA_DAYS + Offset(p)
    ensures CivilFromDays(days) == Assemble(YearNumber(p) + era * 400, p.doy)
  {
    hide YearOfEra, DayOfYear, Assemble, Offset, YearNumber, InEra;
    YearFound(p);
    var z := days + EPOCH_SHIFT;
    assert z / ERA_DAYS == era && z % ERA_DAYS == Offset(p);
  }

  function YearLength(p: Place): int {
    if LongYear(p) then 366 else 365
  }

  /** The year one later, possibly in the next era. */
  lemma NextYear(p: Place) returns (q: Place, carry: int)
    requires InEra(p) && p.doy == YearLength(p) - 1
    ensures InEra(q) && Offset(q) + carry * ERA_DAYS == Offset(p) + 1
    ensures YearNumber(q) + 400 * carry == YearNumber(p) + 1 && q.doy == 0
  {
    carry := 0;
    if p.year < 3 {
      assert p.doy == 364;
      q := Place(p.century, p.cycle, p.year + 1, 0);
    } else if p.cycle < 24 {
      assert p.doy == 365;
      q := Place(p.century, p.cycle + 1, 0, 0);
    } else if p.century < 3 {
      assert p.doy == 364;
      q := Place(p.century + 1, 0, 0, 0);
    } else {
      assert p.doy == 365;
      q, carry := Place(0, 0, 0, 0), 1;
    }
  }

  /** The place one day later. */
  lemma NextPlace(p: Place) returns (q: Place, carry: int)
    requires InEra(p)
    ensures InEra(q) && Offset(q) + carry * ERA_DAYS == Offset(p) + 1
    ensures if p.doy + 1 < YearLength(p) then carry == 0 && YearNumber(q) == YearNumber(p) && q.doy == p.doy + 1
            else YearNumber(q) + 400 * carry == YearNumber(p) + 1 && q.doy == 0
  {
    if p.doy + 1 < YearLength(p) {
      q, carry := Place(p.century, p.cycle, p.year, p.doy + 1), 0;
    } else {
      q, carry := NextYear(p);
    }
  }

  lemma WithinYear(p: Place)
    requires InEra(p)
    ensures 0 <= p.doy < YearLength(p)
  {
  }

  /** Each day number is a valid date, and the next number is the next day. */
  lemma CivilStep(days: int)
    ensures ValidDate(CivilFromDays(days))
    ensures CivilFromDays(days + 1) == NextDay(CivilFromDays(days))
  {
    hide Assemble, CivilFromDays, NextDay, ValidDate, Leap, Offset, YearNumber, InEra, LongYear;
    var p, era := CivilPlace(days);
    var y := YearNumber(p) + era * 400;
    LongIsLeap(p, era);
    WithinYear(p);
    DateInYear(y, p.doy);
    var q, carry := NextPlace(p);
    CivilAt(q, era + carry, days + 1);
  }

  lemma CivilEpoch()
    ensures CivilFromDays(0) == Date(1970, 1, 1)
  {
  }

  /** From any day number the conversion follows the calendar counted day by day. */
  lemma {:induction false} CivilIsCalendar(days: int, n: nat)
    ensures CivilFromDays(days + n) == DaysAfter(CivilFromDays(days), n)
  {
    hide CivilFromDays, NextDay;
    if n > 0 {
      CivilIsCalendar(days, n - 1);
      CivilStep(days + n - 1);
    }
  }

  lemma NextIsLater(d: Date)
    requires ValidDate(d)
    ensures Earlier(d, NextDay(d))
  {
  }

  /** Later days have later dates, so the conversion is injective. */
  lemma {:induction false} CivilOrdered(a: int, b: int)
    requires a < b
    ensures Earlier(CivilFromDays(a), CivilFromDays(b)) && CivilFromDays(a) != CivilFromDays(b)
    decreases b - a
  {
    hide CivilFromDays, NextDay, ValidDate;
    CivilStep(b - 1);
    NextIsLater(CivilFromDays(b - 1));
    if a < b - 1 {
      CivilOrdered(a, b - 1);
    }
  }

  function PreviousDay(d: Date): Date {
    if d.day > 1 then Date(d.year, d.month, d.day - 1)
    else if d.month > 1 then Date(d.year, d.month - 1, DaysInMonth(d.year, d.month - 1))
    else Date(d.year - 1, 12, 31)
  }

  /** Every calendar date from the epoch on is the date of some day number. */
  lemma {:induction false} CivilReaches(d: Date) returns (days: nat)
    requires ValidDate(d) && d.year >= 1970
    ensures CivilFromDays(days) == d
    decreases d.year - 1970, d.month, d.day
  {
    hide CivilFromDays, Leap;
    if d == Date(1970, 1, 1) {
      CivilEpoch();
      days := 0;
    } else {
      var before := PreviousDay(d);
      assert ValidDate(before) && NextDay(before) == d;
      var n := CivilReaches(before);
      CivilStep(n);
      days := n + 1;
    }
  }

  /** Day numbers after the epoch count the calendar from the first of January 1970. */
  lemma CivilSinceEpoch(n: nat)
    ensures CivilFromDays(n) == DaysAfter(Date(1970, 1, 1), n)
    ensures CivilFromDays(n).year >= 1970
  {
    hide CivilFromDays, DaysAfter;
    CivilEpoch();
    CivilIsCalendar(0, n);
    if n > 0 { CivilOrdered(0, n); }
  }
}
