/** The Gregorian calendar in UTC and the cadence step, in both of its implementations.
    A calendar is given by the day number of each January 1; everything else follows from the
    one law such a numbering obeys, so the two closed formulas in use can be compared. */
module Calendar {
  import opened Core

  /** Instants are nanoseconds since 1970-01-01T00:00:00Z. */
  const DAY: int := 86_400_000_000_000
  const MILLISECOND: int := 1_000_000
  const DAY_MS: int := 86_400_000

  datatype Date = Date(year: int, month: int, day: int)

  predicate Leap(y: int) {
    y % 4 == 0 && (y % 100 != 0 || y % 400 == 0)
  }

  function DaysInYear(y: int): int {
    if Leap(y) then 366 else 365
  }

  function DaysInMonth(y: int, m: int): (r: int)
    requires 1 <= m <= 12
    ensures 28 <= r <= 31
  {
    if m == 2 then (if Leap(y) then 29 else 28)
    else if m == 4 || m == 6 || m == 9 || m == 11 then 30
    else 31
  }

  predicate ValidDate(d: Date) {
    1 <= d.month <= 12 && 1 <= d.day <= DaysInMonth(d.year, d.month)
  }

  /** Days of the year before month m. */
  function DaysBefore(y: int, m: int): int
    requires 1 <= m <= 12
  {
    [0, 31, 59, 90, 120, 151, 181, 212, 243, 273, 304, 334][m - 1] + if m > 2 && Leap(y) then 1 else 0
  }

  lemma MonthStep(y: int, m: int)
    requires 1 <= m <= 12
    ensures m < 12 ==> DaysBefore(y, m + 1) == DaysBefore(y, m) + DaysInMonth(y, m)
    ensures m == 12 ==> DaysInYear(y) == DaysBefore(y, m) + DaysInMonth(y, m)
  {
  }

  // -------------------------------------------------------------------- numberings of the days

  /** From a year to the day number of its January 1. */
  type Years = int -> int

  predicate YearLaw(years: Years, y: int) {
    years(y + 1) == years(y) + DaysInYear(y)
  }

  ghost predicate Lawful(years: Years) {
    forall y :: YearLaw(years, y)
  }

  /** The day number of a date; any month number carries into the year, any day number into
      the months. */
  function DayNumber(years: Years, y: int, m: int, d: int): int {
    var year, month := y + (m - 1) / 12, (m - 1) % 12 + 1;
    years(year) + DaysBefore(year, month) + d - 1
  }

  lemma PlainDayNumber(years: Years, y: int, m: int, d: int)
    requires 1 <= m <= 12
    ensures DayNumber(years, y, m, d) == years(y) + DaysBefore(y, m) + d - 1
  {
  }

  /** One month on is exactly the length of the month away, whatever the day. */
  lemma NextMonth(years: Years, y: int, m: int, d: int)
    requires Lawful(years) && 1 <= m <= 12
    ensures DayNumber(years, y, m + 1, d) == DayNumber(years, y, m, d) + DaysInMonth(y, m)
  {
    assert YearLaw(years, y);
    MonthStep(y, m);
  }

  /** One year on is 366 days away exactly when a leap day lies in between. */
  lemma NextYear(years: Years, y: int, m: int, d: int)
    requires Lawful(years) && 1 <= m <= 12
    ensures DayNumber(years, y + 1, m, d)
         == DayNumber(years, y, m, d) + if (if m <= 2 then Leap(y) else Leap(y + 1)) then 366 else 365
  {
    assert YearLaw(years, y);
  }

  /** The year a day falls in, looking outward from year y. */
  function YearOf(years: Years, n: int, y: int): (r: int)
    requires Lawful(years)
    ensures years(r) <= n < years(r + 1)
    decreases if n < years(y) then years(y) - n + 366 else n - years(y)
  {
    assert YearLaw(years, y - 1) && YearLaw(years, y);
    if n < years(y) then YearOf(years, n, y - 1)
    else if n >= years(y + 1) then YearOf(years, n, y + 1)
    else y
  }

  function MonthOf(y: int, dayOfYear: int, m: int): (r: int)
    requires 1 <= m <= 12 && 0 <= dayOfYear < DaysBefore(y, m) + DaysInMonth(y, m)
    ensures 1 <= r <= 12 && DaysBefore(y, r) <= dayOfYear < DaysBefore(y, r) + DaysInMonth(y, r)
    decreases m
  {
    if dayOfYear < DaysBefore(y, m) then
      MonthStep(y, m - 1);
      MonthOf(y, dayOfYear, m - 1)
    else m
  }

  /** The calendar date of a day number. */
  function CivilOf(years: Years, n: int): (d: Date)
    requires Lawful(years)
    ensures ValidDate(d)
    ensures DayNumber(years, d.year, d.month, d.day) == n
  {
    var y := YearOf(years, n, 1970);
    assert YearLaw(years, y);
    MonthStep(y, 12);
    var m := MonthOf(y, n - years(y), 12);
    PlainDayNumber(years, y, m, n - years(y) - DaysBefore(y, m) + 1);
    Date(y, m, n - years(y) - DaysBefore(y, m) + 1)
  }

  lemma {:induction false} YearsIncrease(years: Years, a: int, b: int)
    requires Lawful(years) && a <= b
    ensures years(a) + 365 * (b - a) <= years(b)
    decreases b - a
  {
    if a < b {
      assert YearLaw(years, a);
      YearsIncrease(years, a + 1, b);
    }
  }

  lemma {:induction false} MonthsIncrease(y: int, m: int, k: int)
    requires 1 <= m < k <= 12
    ensures DaysBefore(y, m) + DaysInMonth(y, m) <= DaysBefore(y, k)
    decreases k
  {
    MonthStep(y, k - 1);
    if m < k - 1 {
      MonthsIncrease(y, m, k - 1);
    }
  }

  lemma WithinYear(years: Years, d: Date)
    requires Lawful(years) && ValidDate(d)
    ensures years(d.year) <= DayNumber(years, d.year, d.month, d.day) < years(d.year + 1)
  {
    PlainDayNumber(years, d.year, d.month, d.day);
    assert YearLaw(years, d.year);
    MonthStep(d.year, 12);
    if d.month < 12 {
      MonthsIncrease(d.year, d.month, 12);
    }
  }

  /** No two calendar dates share a day number. */
  lemma DatesDistinct(years: Years, a: Date, b: Date)
    requires Lawful(years) && ValidDate(a) && ValidDate(b)
    requires DayNumber(years, a.year, a.month, a.day) == DayNumber(years, b.year, b.month, b.day)
    ensures a == b
  {
    WithinYear(years, a);
    WithinYear(years, b);
    if a.year < b.year {
      YearsIncrease(years, a.year + 1, b.year);
    } else if b.year < a.year {
      YearsIncrease(years, b.year + 1, a.year);
    } else {
      PlainDayNumber(years, a.year, a.month, a.day);
      PlainDayNumber(years, b.year, b.month, b.day);
      if a.month < b.month {
        MonthsIncrease(a.year, a.month, b.month);
      } else if b.month < a.month {
        MonthsIncrease(a.year, b.month, a.month);
      }
    }
  }

  lemma CivilOfDayNumber(years: Years, d: Date)
    requires Lawful(years) && ValidDate(d)
    ensures CivilOf(years, DayNumber(years, d.year, d.month, d.day)) == d
  {
    DatesDistinct(years, CivilOf(years, DayNumber(years, d.year, d.month, d.day)), d);
  }

  /** The law and one fixed point determine the numbering. */
  lemma {:induction false} YearsUnique(f: Years, g: Years, y: int)
    requires Lawful(f) && Lawful(g) && f(1970) == g(1970)
    ensures f(y) == g(y)
    decreases if y < 1970 then 1970 - y else y - 1970
  {
    if y > 1970 {
      YearsUnique(f, g, y - 1);
      assert YearLaw(f, y - 1) && YearLaw(g, y - 1);
    } else if y < 1970 {
      YearsUnique(f, g, y + 1);
      assert YearLaw(f, y) && YearLaw(g, y);
    }
  }

  lemma SameCalendar(f: Years, g: Years, y: int, m: int, d: int, n: int)
    requires Lawful(f) && Lawful(g) && f(1970) == g(1970)
    ensures DayNumber(f, y, m, d) == DayNumber(g, y, m, d)
    ensures CivilOf(f, n) == CivilOf(g, n)
  {
    SameDayNumber(f, g, y, m, d);
    SameDate(f, g, CivilOf(f, n), CivilOf(g, n));
  }

  lemma SameDayNumber(f: Years, g: Years, y: int, m: int, d: int)
    requires Lawful(f) && Lawful(g) && f(1970) == g(1970)
    ensures DayNumber(f, y, m, d) == DayNumber(g, y, m, d)
  {
    YearsUnique(f, g, y + (m - 1) / 12);
  }

  lemma SameDate(f: Years, g: Years, a: Date, b: Date)
    requires Lawful(f) && Lawful(g) && f(1970) == g(1970) && ValidDate(a) && ValidDate(b)
    requires DayNumber(f, a.year, a.month, a.day) == DayNumber(g, b.year, b.month, b.day)
    ensures a == b
  {
    SameDayNumber(f, g, b.year, b.month, b.day);
    DatesDistinct(f, a, b);
  }

  // --------------------------------------------------------------------- the two closed formulas

  /** DayFromYear of ECMA-262. */
  function EcmaYearStart(y: int): int {
    365 * (y - 1970) + (y - 1969) / 4 - (y - 1901) / 100 + (y - 1601) / 400
  }

  /** Go's time package counts years from March, so that the leap day comes last. */
  function GoMarchStart(y: int): int {
    146097 * (y / 100) / 4 + 1461 * (y % 100) / 4
  }

  function GoYearStart(y: int): int {
    GoMarchStart(y) - 719468 - DaysBefore(y, 3)
  }

  /** The day number as Go computes it, for a month already normalised. */
  function GoDays(y: int, m: int, d: int): int
    requires 1 <= m <= 12
  {
    var (marchYear, marchMonth) := if m < 3 then (y - 1, m + 12) else (y, m);
    GoMarchStart(marchYear) + (979 * marchMonth - 2919) / 32 + d - 1 - 719468
  }

  function Ecma(): Years {
    (y: int) => EcmaYearStart(y)
  }

  function Go(): Years {
    (y: int) => GoYearStart(y)
  }

  lemma FloorStep(x: int, k: int)
    requires k == 4 || k == 100 || k == 400
    ensures (x + 1) / k == x / k + if (x + 1) % k == 0 then 1 else 0
  {
  }

  lemma EcmaStep(y: int)
    ensures EcmaYearStart(y + 1) == EcmaYearStart(y) + DaysInYear(y)
  {
    FloorStep(y - 1969, 4);
    FloorStep(y - 1901, 100);
    FloorStep(y - 1601, 400);
  }

  lemma EcmaLawful()
    ensures Lawful(Ecma())
  {
    forall y ensures YearLaw(Ecma(), y) {
      EcmaStep(y);
    }
  }

  lemma MarchStep(y: int)
    ensures GoMarchStart(y + 1) == GoMarchStart(y) + DaysInYear(y + 1)
  {
    var c, r := y / 100, y % 100;
    if r < 99 {
      assert (y + 1) / 100 == c && (y + 1) % 100 == r + 1;
      assert 1461 * (r + 1) / 4 == 1461 * r / 4 + 365 + if (r + 1) % 4 == 0 then 1 else 0;
      assert (y + 1) % 4 == (r + 1) % 4;
    } else {
      assert (y + 1) / 100 == c + 1 && (y + 1) % 100 == 0;
      assert 146097 * (c + 1) / 4 == 146097 * c / 4 + 36524 + if (c + 1) % 4 == 0 then 1 else 0;
      assert y + 1 == 100 * (c + 1);
      assert (y + 1) % 400 == 0 <==> (c + 1) % 4 == 0;
    }
  }

  lemma GoLawful()
    ensures Lawful(Go())
  {
    forall y ensures YearLaw(Go(), y) {
      MarchStep(y);
    }
  }

  /** Days from March 1, for months numbered 3 to 14. */
  lemma MarchMonths(y: int, m: int)
    requires 1 <= m <= 12
    ensures m >= 3 ==> (979 * m - 2919) / 32 == DaysBefore(y, m) - DaysBefore(y, 3)
    ensures m < 3 ==> (979 * (m + 12) - 2919) / 32 == DaysBefore(y, m) + 306
  {
    var table := [0, 31, 61, 92, 122, 153, 184, 214, 245, 275];
    assert m >= 3 ==> (979 * m - 2919) / 32 == table[m - 3];
  }

  /** Go's formula for any date is the numbering that starts from its January firsts. */
  lemma GoDaysMatch(y: int, m: int, d: int)
    requires 1 <= m <= 12
    ensures GoDays(y, m, d) == DayNumber(Go(), y, m, d)
  {
    PlainDayNumber(Go(), y, m, d);
    MarchMonths(y, m);
    if m < 3 {
      MarchStep(y - 1);
    }
  }

  /** The two formulas number every day alike. */
  lemma TwinCalendars()
    ensures Lawful(Go()) && Lawful(Ecma())
    ensures Go()(1970) == Ecma()(1970) == 0
    ensures forall y :: GoYearStart(y) == EcmaYearStart(y)
  {
    GoLawful();
    EcmaLawful();
    assert Go()(1970) == 0 == Ecma()(1970);
    forall y ensures GoYearStart(y) == EcmaYearStart(y) {
      YearsUnique(Go(), Ecma(), y);
    }
  }

  // --------------------------------------------------------------------------- the cadence step

  datatype Cadence = Daily | Weekly | Biweekly | Monthly | Yearly | OtherCadence(name: string)

  /** isValidCadence */
  predicate ValidCadence(c: Cadence) {
    !c.OtherCadence?
  }

  function DateOf(years: Years, t: int): (d: Date)
    requires Lawful(years)
    ensures ValidDate(d)
  {
    CivilOf(years, t / DAY)
  }

  /** time.Date with the clock time of t: what Time.AddDate returns for the moved date. */
  function OnDate(years: Years, t: int, y: int, m: int, d: int): int {
    DayNumber(years, y, m, d) * DAY + t % DAY
  }

  /** advanceCadence of the recurring service. */
  function Advance(years: Years, t: int, c: Cadence): int
    requires Lawful(years)
  {
    AdvanceFrom(years, t, DateOf(years, t), c)
  }

  function AdvanceFrom(years: Years, t: int, d: Date, c: Cadence): int {
    match c
    case Daily => OnDate(years, t, d.year, d.month, d.day + 1)
    case Weekly => OnDate(years, t, d.year, d.month, d.day + 7)
    case Biweekly => OnDate(years, t, d.year, d.month, d.day + 14)
    case Monthly => OnDate(years, t, d.year, d.month + 1, d.day)
    case Yearly => OnDate(years, t, d.year + 1, d.month, d.day)
    case OtherCadence(_) => t
  }

  /** How many days a step from date d covers. */
  function StepDays(d: Date, c: Cadence): int
    requires ValidDate(d)
  {
    match c
    case Daily => 1
    case Weekly => 7
    case Biweekly => 14
    case Monthly => DaysInMonth(d.year, d.month)
    case Yearly => if (if d.month <= 2 then Leap(d.year) else Leap(d.year + 1)) then 366 else 365
    case OtherCadence(_) => 0
  }

  lemma OnDateMoves(years: Years, t: int, y: int, m: int, d: int, k: int)
    requires DayNumber(years, y, m, d) == t / DAY + k
    ensures OnDate(years, t, y, m, d) == t + k * DAY
  {
    assert t == t / DAY * DAY + t % DAY;
  }

  lemma AdvanceMoves(years: Years, t: int, d: Date, c: Cadence)
    requires Lawful(years) && ValidDate(d) && DayNumber(years, d.year, d.month, d.day) == t / DAY
    ensures AdvanceFrom(years, t, d, c) == t + StepDays(d, c) * DAY
  {
    match c {
      case Daily => OnDateMoves(years, t, d.year, d.month, d.day + 1, 1);
      case Weekly => OnDateMoves(years, t, d.year, d.month, d.day + 7, 7);
      case Biweekly => OnDateMoves(years, t, d.year, d.month, d.day + 14, 14);
      case Monthly =>
        NextMonth(years, d.year, d.month, d.day);
        OnDateMoves(years, t, d.year, d.month + 1, d.day, StepDays(d, c));
      case Yearly =>
        NextYear(years, d.year, d.month, d.day);
        OnDateMoves(years, t, d.year + 1, d.month, d.day, StepDays(d, c));
      case OtherCadence(_) =>
    }
  }

  /** A step goes forward by exactly that many days and keeps the time of day. */
  lemma AdvanceForward(years: Years, t: int, c: Cadence)
    requires Lawful(years)
    ensures Advance(years, t, c) == t + StepDays(DateOf(years, t), c) * DAY
    ensures Advance(years, t, c) % DAY == t % DAY
    ensures Advance(years, t, c) / DAY == t / DAY + StepDays(DateOf(years, t), c)
    ensures ValidCadence(c) ==> Advance(years, t, c) >= t + DAY
  {
    AdvanceMoves(years, t, DateOf(years, t), c);
    WholeDays(t, StepDays(DateOf(years, t), c));
  }

  lemma WholeDays(t: int, k: int)
    ensures (t + k * DAY) / DAY == t / DAY + k
    ensures (t + k * DAY) % DAY == t % DAY
  {
  }

  /** The date n months on, which the month may not have. */
  function MonthsOn(d: Date, n: int): Date {
    Date(d.year + (d.month - 1 + n) / 12, (d.month - 1 + n) % 12 + 1, d.day)
  }

  function MonthLater(d: Date): Date
    requires ValidDate(d)
  {
    var next := MonthsOn(d, 1);
    if ValidDate(next) then next
    else Date(next.year, next.month + 1, d.day - DaysInMonth(next.year, next.month))
  }

  lemma MonthLaterDays(years: Years, d: Date)
    requires Lawful(years) && ValidDate(d)
    ensures ValidDate(MonthLater(d))
    ensures var e := MonthLater(d);
      DayNumber(years, e.year, e.month, e.day) == DayNumber(years, d.year, d.month, d.day) + DaysInMonth(d.year, d.month)
  {
    var next := MonthsOn(d, 1);
    NextMonth(years, d.year, d.month, d.day);
    assert DayNumber(years, next.year, next.month, d.day) == DayNumber(years, d.year, d.month + 1, d.day);
    if !ValidDate(next) {
      Overflow(years, next.year, next.month, d.day);
    }
  }

  /** A day past the end of its month is a day of the month after. */
  lemma Overflow(years: Years, y: int, m: int, day: int)
    requires Lawful(years) && 1 <= m <= 11 && DaysInMonth(y, m) < day <= 31
    ensures DayNumber(years, y, m + 1, day - DaysInMonth(y, m)) == DayNumber(years, y, m, day)
    ensures ValidDate(Date(y, m + 1, day - DaysInMonth(y, m)))
  {
    NextMonth(years, y, m, day - DaysInMonth(y, m));
  }

  /** A monthly step lands on the same day of the next month if it has one, and otherwise as
      many days into the month after as the next month is short. */
  lemma MonthlyLandsOn(years: Years, t: int)
    requires Lawful(years)
    ensures DateOf(years, Advance(years, t, Monthly)) == MonthLater(DateOf(years, t))
  {
    AdvanceForward(years, t, Monthly);
    MonthLaterDays(years, DateOf(years, t));
    CivilOfDayNumber(years, MonthLater(DateOf(years, t)));
  }

  // ------------------------------------------------------------------------------- many steps

  function Iterate<T>(f: T -> T, x: T, n: nat): T {
    if n == 0 then x else f(Iterate(f, x, n - 1))
  }

  lemma {:induction false} IterateAdd<T>(f: T -> T, x: T, i: nat, n: nat)
    ensures Iterate(f, Iterate(f, x, i), n) == Iterate(f, x, i + n)
    decreases n
  {
    if n > 0 {
      IterateAdd(f, x, i, n - 1);
    }
  }

  lemma {:induction false} IterateIncreases(f: int -> int, x: int, i: nat, j: nat)
    requires i < j && forall y :: f(y) > y
    ensures Iterate(f, x, i) < Iterate(f, x, j)
    decreases j
  {
    if i < j - 1 {
      IterateIncreases(f, x, i, j - 1);
    }
  }

  function Stepper(years: Years, c: Cadence): int -> int
    requires Lawful(years)
  {
    (t: int) => Advance(years, t, c)
  }

  /** The n-th step from t. */
  function Steps(years: Years, t: int, c: Cadence, n: nat): int
    requires Lawful(years)
  {
    Iterate(Stepper(years, c), t, n)
  }

  /** Later steps are strictly later, so no date comes up twice. */
  lemma StepsIncrease(years: Years, t: int, c: Cadence, i: nat, j: nat)
    requires Lawful(years) && ValidCadence(c) && i < j
    ensures Steps(years, t, c, i) < Steps(years, t, c, j)
  {
    forall x ensures Stepper(years, c)(x) > x {
      AdvanceForward(years, x, c);
    }
    IterateIncreases(Stepper(years, c), t, i, j);
  }

  /** The dates of a monthly run depend on the first date only. */
  lemma {:induction false} MonthlyDates(years: Years, t: int, n: nat)
    requires Lawful(years)
    ensures DateOf(years, Steps(years, t, Monthly, n)) == Iterate(Later(), DateOf(years, t), n)
  {
    if n > 0 {
      MonthlyDates(years, t, n - 1);
      MonthlyLandsOn(years, Steps(years, t, Monthly, n - 1));
    }
  }

  function Later(): Date -> Date {
    (d: Date) => if ValidDate(d) then MonthLater(d) else d
  }

  /** From a day up to the 28th, n months on is the same day, n months on. */
  lemma {:induction false} LaterSameDay(d: Date, n: nat)
    requires ValidDate(d) && d.day <= 28
    ensures Iterate(Later(), d, n) == MonthsOn(d, n)
  {
    if n > 0 {
      LaterSameDay(d, n - 1);
      MonthsOnOnce(d, n - 1);
    }
  }

  lemma MonthsOnOnce(d: Date, n: nat)
    requires 1 <= d.month <= 12
    ensures MonthsOn(MonthsOn(d, n), 1) == MonthsOn(d, n + 1)
  {
  }

  lemma {:induction false} LaterDrifts(d: Date, i: nat)
    requires ValidDate(d)
    ensures var di := Iterate(Later(), d, i);
      ValidDate(di) && (di.day == d.day || 1 <= di.day <= 3)
  {
    if i > 0 {
      LaterDrifts(d, i - 1);
      DriftStep(Iterate(Later(), d, i - 1));
    }
  }

  lemma DriftStep(d: Date)
    requires ValidDate(d)
    ensures ValidDate(MonthLater(d))
    ensures MonthLater(d).day == d.day || (d.day > 28 && 1 <= MonthLater(d).day <= 3)
  {
  }

  /** From any day the day number changes at most once, ever, and then to 1, 2 or 3. */
  lemma LaterDriftsOnce(d: Date, i: nat, j: nat)
    requires ValidDate(d) && i <= j
    ensures var di, dj := Iterate(Later(), d, i), Iterate(Later(), d, j);
      di.day != d.day ==> 1 <= di.day <= 3 && dj.day == di.day
  {
    LaterDrifts(d, i);
    var di := Iterate(Later(), d, i);
    if di.day != d.day {
      LaterSameDay(di, j - i);
      IterateAdd(Later(), d, i, j - i);
    }
  }

  lemma MonthlySameDay(years: Years, t: int, n: nat)
    requires Lawful(years) && DateOf(years, t).day <= 28
    ensures DateOf(years, Steps(years, t, Monthly, n)) == MonthsOn(DateOf(years, t), n)
  {
    MonthlyDates(years, t, n);
    LaterSameDay(DateOf(years, t), n);
  }

  lemma MonthlyDriftsOnce(years: Years, t: int, i: nat, j: nat)
    requires Lawful(years) && i <= j
    ensures var d0 := DateOf(years, t).day;
      var di := DateOf(years, Steps(years, t, Monthly, i)).day;
      var dj := DateOf(years, Steps(years, t, Monthly, j)).day;
      di != d0 ==> 1 <= di <= 3 && dj == di
  {
    MonthlyDates(years, t, i);
    MonthlyDates(years, t, j);
    LaterDriftsOnce(DateOf(years, t), i, j);
  }

  // ------------------------------------------------------------------------- the TypeScript twin

  /** A JavaScript time value with its date part replaced and its clock time kept. */
  function MakeDate(years: Years, ms: int, y: int, m: int, d: int): int {
    DayNumber(years, y, m, d) * DAY_MS + ms % DAY_MS
  }

  function CivilMs(years: Years, ms: int): (d: Date)
    requires Lawful(years)
    ensures ValidDate(d)
  {
    CivilOf(years, ms / DAY_MS)
  }

  /** The largest time value a JavaScript Date holds, 8.64e15 milliseconds (ECMA-262, section
      21.4.1.1). */
  const MAX_TIME: int := 8_640_000_000_000_000

  predicate InTime(ms: int) {
    -MAX_TIME <= ms <= MAX_TIME
  }

  /** TimeClip: past the limit a Date is invalid. */
  function TimeClip(ms: int): Option<int> {
    if InTime(ms) then Some(ms) else None
  }

  /** A JavaScript Date: milliseconds since the epoch, or invalid, changed through its UTC
      setters. */
  class JsDate {
    var time: Option<int>
    const years: Years

    constructor (years: Years, ms: int)
      requires Lawful(years)
      ensures time == TimeClip(ms) && this.years == years
    {
      time := TimeClip(ms);
      this.years := years;
    }

    method SetUTCDate(day: int)
      requires Lawful(years) && time.Some?
      modifies this
      ensures var c := CivilMs(years, old(time.value));
        time == TimeClip(MakeDate(years, old(time.value), c.year, c.month, day))
    {
      var c := CivilMs(years, time.value);
      time := TimeClip(MakeDate(years, time.value, c.year, c.month, day));
    }

    method SetUTCMonth(month: int)
      requires Lawful(years) && time.Some?
      modifies this
      ensures var c := CivilMs(years, old(time.value));
        time == TimeClip(MakeDate(years, old(time.value), c.year, month, c.day))
    {
      var c := CivilMs(years, time.value);
      time := TimeClip(MakeDate(years, time.value, c.year, month, c.day));
    }

    method SetUTCFullYear(year: int)
      requires Lawful(years) && time.Some?
      modifies this
      ensures var c := CivilMs(years, old(time.value));
        time == TimeClip(MakeDate(years, old(time.value), year, c.month, c.day))
    {
      var c := CivilMs(years, time.value);
      time := TimeClip(MakeDate(years, time.value, year, c.month, c.day));
    }
  }

  /** A setter does on milliseconds what time.Date does on nanoseconds. */
  lemma SetterStep(years: Years, ms: int, y: int, m: int, d: int)
    ensures MakeDate(years, ms, y, m, d) * MILLISECOND == OnDate(years, ms * MILLISECOND, y, m, d)
  {
    SameClock(ms);
    Scale(DayNumber(years, y, m, d), ms % DAY_MS);
  }

  /** The instant is one a JavaScript Date can hold. */
  predicate Representable(t: int) {
    -MAX_TIME * MILLISECOND <= t <= MAX_TIME * MILLISECOND
  }

  /** The page's switch over the cadence, on a Date with the given calendar. */
  method AdvanceWithSetters(years: Years, fromMs: int, c: Cadence) returns (ms: Option<int>)
    requires Lawful(years) && InTime(fromMs)
    ensures ms.Some? <==> Representable(Advance(years, fromMs * MILLISECOND, c))
    ensures ms.Some? ==> ms.value * MILLISECOND == Advance(years, fromMs * MILLISECOND, c)
  {
    var d := new JsDate(years, fromMs);
    var civil := CivilMs(years, fromMs);
    SameClock(fromMs);
    match c {
      case Daily =>
        d.SetUTCDate(civil.day + 1);
        SetterStep(years, fromMs, civil.year, civil.month, civil.day + 1);
      case Weekly =>
        d.SetUTCDate(civil.day + 7);
        SetterStep(years, fromMs, civil.year, civil.month, civil.day + 7);
      case Biweekly =>
        d.SetUTCDate(civil.day + 14);
        SetterStep(years, fromMs, civil.year, civil.month, civil.day + 14);
      case Monthly =>
        d.SetUTCMonth(civil.month + 1);
        SetterStep(years, fromMs, civil.year, civil.month + 1, civil.day);
      case Yearly =>
        d.SetUTCFullYear(civil.year + 1);
        SetterStep(years, fromMs, civil.year + 1, civil.month, civil.day);
      case OtherCadence(_) =>
    }
    ms := d.time;
  }

  /** advanceCadence of the expense page: on whole milliseconds it gives what the service gives,
      as long as both instants are ones a Date can hold; None stands for the RangeError that
      toISOString throws otherwise. */
  method AdvanceOnPage(fromMs: int, c: Cadence) returns (ms: Option<int>)
    ensures Lawful(Go())
    ensures ms.Some? <==> InTime(fromMs) && Representable(Advance(Go(), fromMs * MILLISECOND, c))
    ensures ms.Some? ==> ms.value * MILLISECOND == Advance(Go(), fromMs * MILLISECOND, c)
  {
    TwinCalendars();
    if !InTime(fromMs) {
      return None;
    }
    ms := AdvanceWithSetters(Ecma(), fromMs, c);
    TwinAdvance(Ecma(), Go(), fromMs * MILLISECOND, c);
  }

  /** Calendars that agree on one January 1 take the same cadence steps. */
  lemma TwinAdvance(f: Years, g: Years, t: int, c: Cadence)
    requires Lawful(f) && Lawful(g) && f(1970) == g(1970)
    ensures Advance(f, t, c) == Advance(g, t, c)
  {
    SameCalendar(f, g, 1970, 1, 1, t / DAY);
    AdvanceForward(f, t, c);
    AdvanceForward(g, t, c);
  }

  lemma Scale(n: int, clock: int)
    ensures (n * DAY_MS + clock) * MILLISECOND == n * DAY + clock * MILLISECOND
  {
  }

  lemma SameClock(ms: int)
    ensures ms * MILLISECOND / DAY == ms / DAY_MS
    ensures ms * MILLISECOND % DAY == ms % DAY_MS * MILLISECOND
  {
  }
}
