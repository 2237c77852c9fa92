/** The activity feed's cursor: a row's two times, its kind and its id as text, in base64. */
module Cursor {
  import opened Core
  import opened Apportion
  import opened Text
  import opened Calendar

  datatype Kind = ExpenseRow | SettlementRow

  /** One row of the feed's index. Times are nanoseconds since the start of 1970 in UTC. */
  datatype FeedRow = FeedRow(kind: Kind, occurredAt: int, createdAt: int, id: Id)

  datatype CursorError = BadCursor

  /** Only characters below the separator. */
  predicate Plain(s: string) {
    forall i :: 0 <= i < |s| ==> s[i] < '|'
  }

  // ------------------------------------------------------------------- times, RFC 3339 text

  /** A calendar in both directions: a date's day number, and a day's date. */
  datatype Clock = Clock(years: Years, civil: int -> Date)

  ghost predicate Sound(clock: Clock) {
    forall n :: RightDate(clock, n, clock.civil(n))
  }

  predicate RightDate(clock: Clock, n: int, d: Date) {
    ValidDate(d) && DayNumber(clock.years, d.year, d.month, d.day) == n
  }

  /** The server's own calendar. */
  function GoClock(): (clock: Clock)
    ensures Sound(clock)
  {
    GoLawful();
    Clock(Go(), (n: int) => CivilOf(Go(), n))
  }

  const MINUTE: int := 60 * SECOND
  const HOUR: int := 60 * MINUTE

  function Width(n: nat): (r: nat)
    ensures r >= 1
  {
    if n < 10 then 1 else 1 + Width(n / 10)
  }

  /** At least four digits, a sign before negative years. */
  function YearText(y: int): string {
    var n := if y < 0 then -y else y;
    (if y < 0 then "-" else "") + DigitText(n, Decimal, if Width(n) < 4 then 4 else Width(n))
  }

  function Two(n: nat): string {
    DigitText(n, Decimal, 2)
  }

  /** Nanoseconds with trailing zeros dropped, and nothing at all for a whole second. */
  function FractionText(ns: nat): string {
    if ns == 0 then "" else "." + WithoutTrailingZeros(DigitText(ns, Decimal, 9))
  }

  function DateText(d: Date): string
    requires ValidDate(d)
  {
    YearText(d.year) + "-" + Two(d.month) + "-" + Two(d.day)
  }

  function ClockText(n: int): string
    requires 0 <= n < DAY
  {
    "T" + Two(n / HOUR) + ":" + Two(n % HOUR / MINUTE) + ":" + Two(n % MINUTE / SECOND)
  }

  function TimeText(clock: Clock, t: int): string
    requires Sound(clock)
  {
    assert RightDate(clock, t / DAY, clock.civil(t / DAY));
    DateText(clock.civil(t / DAY)) + ClockText(t % DAY) + FractionText(t % SECOND) + "Z"
  }

  function Field(s: string, low: int, high: int): Option<int> {
    var n := ReadDigits(s, Decimal);
    if n.Some? && low <= n.value <= high then Some(n.value) else None
  }

  function ReadDate(s: string): (d: Option<Date>)
    requires |s| == 10
    ensures d.Some? ==> ValidDate(d.value)
  {
    var y, m := Field(s[..4], 0, 9999), Field(s[5..7], 1, 12);
    if s[4] != '-' || s[7] != '-' || y.None? || m.None? then None
    else
      var d := Field(s[8..], 1, DaysInMonth(y.value, m.value));
      if d.None? then None else Some(Date(y.value, m.value, d.value))
  }

  function ReadClock(s: string): Option<int>
    requires |s| == 9
  {
    var h, m, sec := Field(s[1..3], 0, 23), Field(s[4..6], 0, 59), Field(s[7..], 0, 59);
    if s[0] != 'T' || s[3] != ':' || s[6] != ':' || h.None? || m.None? || sec.None? then None
    else Some(h.value * HOUR + m.value * MINUTE + sec.value * SECOND)
  }

  function DigitRun(s: string): (n: nat)
    ensures n <= |s|
    ensures forall i :: 0 <= i < n ==> DigitValue(s[i], Decimal).Some?
  {
    if |s| == 0 || DigitValue(s[0], Decimal).None? then 0 else 1 + DigitRun(s[1..])
  }

  /** The nanoseconds a run of fraction digits stands for; digits past the ninth are ignored. */
  function ReadFraction(ds: string): int {
    var k := if |ds| < 9 then |ds| else 9;
    var n := ReadDigits(ds[..k], Decimal);
    if n.None? then 0 else Scaled(n.value, Decimal, 9 - k)
  }

  /** What follows the seconds: a fraction if there is one, then the letter Z. */
  function ReadTail(s: string): Option<int> {
    if |s| >= 2 && s[0] == '.' && DigitValue(s[1], Decimal).Some? then
      var n := DigitRun(s[1..]);
      if s[1 + n..] == "Z" then Some(ReadFraction(s[1..1 + n])) else None
    else if s == "Z" then Some(0) else None
  }

  function ReadTime(clock: Clock, s: string): Option<int> {
    if |s| < 19 then None
    else
      var date, time, tail := ReadDate(s[..10]), ReadClock(s[10..19]), ReadTail(s[19..]);
      if date.None? || time.None? || tail.None? then None
      else
        var d := date.value;
        Some(DayNumber(clock.years, d.year, d.month, d.day) * DAY + time.value + tail.value)
  }

  /** The years that four digits can write. */
  predicate FourDigitYear(clock: Clock, t: int)
    requires Sound(clock)
  {
    0 <= clock.civil(t / DAY).year <= 9999
  }

  lemma FieldRoundTrip(n: nat, low: int, high: int)
    requires low <= n <= high && n < 100
    ensures Field(Two(n), low, high) == Some(n)
  {
    ReachDecimal();
    DigitsRoundTrip(n, Decimal, 2);
  }

  lemma YearWidth(n: nat)
    ensures n <= 9999 ==> Width(n) <= 4
    ensures n > 9999 ==> Width(n) > 4
  {
    assert Width(n) == if n < 10 then 1 else 1 + Width(n / 10);
    assert Width(n / 10) == if n / 10 < 10 then 1 else 1 + Width(n / 10 / 10);
    assert Width(n / 10 / 10) == if n / 10 / 10 < 10 then 1 else 1 + Width(n / 10 / 10 / 10);
  }

  lemma DateRoundTrip(d: Date)
    requires ValidDate(d) && 0 <= d.year <= 9999
    ensures |DateText(d)| == 10 && ReadDate(DateText(d)) == Some(d)
  {
    var s := DateText(d);
    YearWidth(d.year);
    ReachDecimal();
    DigitsRoundTrip(d.year, Decimal, 4);
    FieldRoundTrip(d.month, 1, 12);
    FieldRoundTrip(d.day, 1, DaysInMonth(d.year, d.month));
    assert s[..4] == DigitText(d.year, Decimal, 4);
    assert s[5..7] == Two(d.month);
    assert s[8..] == Two(d.day);
  }

  lemma NestedRemainder(n: int, a: int, b: int, k: int)
    requires b > 0 && k > 0 && a == b * k
    ensures a > 0 && n % a % b == n % b
  {
    var q, r := n / a, n % a;
    assert n == b * k * q + r;
    assert b * (k * q + r / b) == b * k * q + b * (r / b);
    QuotientUnique(n, b, k * q + r / b);
  }

  lemma ClockParts(n: int)
    requires 0 <= n < DAY
    ensures 0 <= n / HOUR <= 23 && 0 <= n % HOUR / MINUTE <= 59 && 0 <= n % MINUTE / SECOND <= 59
    ensures n == n / HOUR * HOUR + n % HOUR / MINUTE * MINUTE + n % MINUTE / SECOND * SECOND + n % SECOND
  {
    NestedRemainder(n, HOUR, MINUTE, 60);
    NestedRemainder(n, MINUTE, SECOND, 60);
  }

  lemma ClockRoundTrip(n: int)
    requires 0 <= n < DAY
    ensures |ClockText(n)| == 9 && ReadClock(ClockText(n)) == Some(n - n % SECOND)
  {
    var s := ClockText(n);
    ClockParts(n);
    FieldRoundTrip(n / HOUR, 0, 23);
    FieldRoundTrip(n % HOUR / MINUTE, 0, 59);
    FieldRoundTrip(n % MINUTE / SECOND, 0, 59);
    assert s[1..3] == Two(n / HOUR);
    assert s[4..6] == Two(n % HOUR / MINUTE);
    assert s[7..] == Two(n % MINUTE / SECOND);
  }

  lemma {:induction false} AllDigitsRead(s: string)
    requires forall i :: 0 <= i < |s| ==> DigitValue(s[i], Decimal).Some?
    ensures ReadDigits(s, Decimal).Some?
  {
    if |s| > 0 {
      AllDigitsRead(s[..|s| - 1]);
    }
  }

  lemma {:induction false} RunOfDigits(s: string)
    requires forall i :: 0 <= i < |s| ==> DigitValue(s[i], Decimal).Some?
    ensures DigitRun(s + "Z") == |s|
  {
    if |s| > 0 {
      RunOfDigits(s[1..]);
      assert (s + "Z")[1..] == s[1..] + "Z";
    }
  }

  /** Dropping trailing zeros loses nothing, as the reader scales by the digits missing. */
  lemma FractionRoundTrip(ns: nat)
    requires 0 < ns < SECOND
    ensures var ds := WithoutTrailingZeros(DigitText(ns, Decimal, 9));
      && 0 < |ds| <= 9 && ReadFraction(ds) == ns
      && forall i :: 0 <= i < |ds| ==> DigitValue(ds[i], Decimal).Some?
  {
    var s := DigitText(ns, Decimal, 9);
    var ds := WithoutTrailingZeros(s);
    var zeros := s[|ds|..];
    ReachDecimal();
    DigitsRoundTrip(ns, Decimal, 9);
    assert s == ds + zeros;
    AllDigitsRead(ds);
    ReadDigitsConcat(ds, zeros, Decimal);
    if |ds| == 0 {
      ScaledZero(Decimal, 9);
    }
    assert ds[..|ds|] == ds;
  }

  lemma {:induction false} ScaledZero(r: Radix, k: nat)
    ensures Scaled(0, r, k) == 0
  {
    if k > 0 {
      ScaledZero(r, k - 1);
    }
  }

  lemma TailRoundTrip(ns: nat)
    requires ns < SECOND
    ensures ReadTail(FractionText(ns) + "Z") == Some(ns)
  {
    if ns > 0 {
      var ds := WithoutTrailingZeros(DigitText(ns, Decimal, 9));
      var s := FractionText(ns) + "Z";
      FractionRoundTrip(ns);
      RunOfDigits(ds);
      assert s[1..] == ds + "Z";
      assert s[1..1 + |ds|] == ds;
      assert s[1 + |ds|..] == "Z";
    }
  }

  lemma ReadSections(clock: Clock, date: string, time: string, tail: string)
    requires |date| == 10 && |time| == 9
    requires ReadDate(date).Some? && ReadClock(time).Some? && ReadTail(tail).Some?
    ensures var d := ReadDate(date).value;
      ReadTime(clock, date + time + tail)
      == Some(DayNumber(clock.years, d.year, d.month, d.day) * DAY + ReadClock(time).value + ReadTail(tail).value)
  {
    var s := date + time + tail;
    assert s[..10] == date && s[10..19] == time && s[19..] == tail;
  }

  lemma ReadWritten(clock: Clock, d: Date, t: int, date: string, time: string, fraction: string)
    requires RightDate(clock, t / DAY, d)
    requires |time| == 9 && ReadClock(time) == Some(t % DAY - t % DAY % SECOND)
    requires ReadTail(fraction + "Z") == Some(t % SECOND)
    requires 0 <= d.year <= 9999 ==> |date| == 10 && ReadDate(date) == Some(d)
    requires !(0 <= d.year <= 9999) ==>
      var s := date + (time + (fraction + "Z")); |s| >= 19 && ReadDate(s[..10]).None?
    ensures ReadTime(clock, date + time + fraction + "Z") == if 0 <= d.year <= 9999 then Some(t) else None
  {
    Regroup(date, time, fraction);
    if 0 <= d.year <= 9999 {
      ReadSections(clock, date, time, fraction + "Z");
      SameSecond(t);
    }
  }

  lemma Regroup(date: string, time: string, fraction: string)
    ensures date + time + fraction + "Z" == date + time + (fraction + "Z") == date + (time + (fraction + "Z"))
  {
  }

  lemma DateWritten(d: Date, rest: string)
    requires ValidDate(d) && |rest| > 9
    ensures 0 <= d.year <= 9999 ==> |DateText(d)| == 10 && ReadDate(DateText(d)) == Some(d)
    ensures !(0 <= d.year <= 9999) ==>
      |DateText(d) + rest| >= 19 && ReadDate((DateText(d) + rest)[..10]).None?
  {
    if 0 <= d.year <= 9999 {
      DateRoundTrip(d);
    } else {
      LongYear(d, rest);
    }
  }

  lemma RestWritten(t: int)
    ensures |ClockText(t % DAY)| == 9 && ReadClock(ClockText(t % DAY)) == Some(t % DAY - t % DAY % SECOND)
    ensures ReadTail(FractionText(t % SECOND) + "Z") == Some(t % SECOND)
  {
    ClockRoundTrip(t % DAY);
    TailRoundTrip(t % SECOND);
  }

  /** Reading a written time gives it back when its year has four digits, and fails otherwise. */
  lemma TimeRoundTrip(clock: Clock, t: int)
    requires Sound(clock)
    ensures ReadTime(clock, TimeText(clock, t)) == if FourDigitYear(clock, t) then Some(t) else None
  {
    var d := clock.civil(t / DAY);
    assert RightDate(clock, t / DAY, d);
    var time, fraction := ClockText(t % DAY), FractionText(t % SECOND);
    RestWritten(t);
    DateWritten(d, time + (fraction + "Z"));
    ReadWritten(clock, d, t, DateText(d), time, fraction);
  }

  lemma SameSecond(t: int)
    ensures t % DAY % SECOND == t % SECOND
    ensures t == t / DAY * DAY + t % DAY
  {
    assert t == t / DAY * 86400 * SECOND + t % DAY;
  }

  /** Five digits, or a sign, stand where the reader expects four digits and a hyphen. */
  lemma LongYear(d: Date, rest: string)
    requires ValidDate(d) && !(0 <= d.year <= 9999) && |rest| > 9
    ensures |DateText(d) + rest| >= 19 && ReadDate((DateText(d) + rest)[..10]).None?
  {
    var s := (DateText(d) + rest)[..10];
    var n := if d.year < 0 then -d.year else d.year;
    YearWidth(n);
    if d.year < 0 {
      assert s[..4][0] == '-';
      SignRefused(s[..4]);
    } else {
      assert s[4] == DigitText(n, Decimal, Width(n))[4];
    }
  }

  lemma {:induction false} SignRefused(s: string)
    requires |s| > 0 && DigitValue(s[0], Decimal).None?
    ensures ReadDigits(s, Decimal).None?
  {
    if |s| > 1 {
      SignRefused(s[..|s| - 1]);
    }
  }

  lemma TimeTextPlain(clock: Clock, t: int)
    requires Sound(clock)
    ensures Plain(TimeText(clock, t)) && TimeText(clock, t) != ""
  {
    assert RightDate(clock, t / DAY, clock.civil(t / DAY));
    assert Plain(DateText(clock.civil(t / DAY)));
    assert Plain(ClockText(t % DAY));
    assert Plain(FractionText(t % SECOND));
  }

  // ----------------------------------------------------------------------------------- ids

  /** The 8-4-4-4-12 form, in lower case. */
  function IdText(id: Id): string {
    var h := DigitText(id, Hexadecimal, 32);
    h[..8] + "-" + h[8..12] + "-" + h[12..16] + "-" + h[16..20] + "-" + h[20..]
  }

  lemma {:induction false} ReadBelow(s: string, r: Radix)
    ensures ReadDigits(s, r).Some? ==> ReadDigits(s, r).value < r.Reach(|s|)
  {
    if |s| > 0 {
      ReadBelow(s[..|s| - 1], r);
    }
  }

  function ReadId(s: string): Option<Id> {
    if |s| != 36 || s[8] != '-' || s[13] != '-' || s[18] != '-' || s[23] != '-' then None
    else
      var h := s[..8] + s[9..13] + s[14..18] + s[19..23] + s[24..];
      var n := ReadDigits(h, Hexadecimal);
      ReadBelow(h, Hexadecimal);
      ReachHexadecimal();
      if n.Some? then Some(n.value) else None
  }

  lemma Hyphens(h: string)
    requires |h| == 32
    ensures var s := h[..8] + "-" + h[8..12] + "-" + h[12..16] + "-" + h[16..20] + "-" + h[20..];
      && |s| == 36 && s[8] == s[13] == s[18] == s[23] == '-'
      && s[..8] + s[9..13] + s[14..18] + s[19..23] + s[24..] == h
  {
    var s := h[..8] + "-" + h[8..12] + "-" + h[12..16] + "-" + h[16..20] + "-" + h[20..];
    assert s[..8] == h[..8];
    assert s[9..13] == h[8..12];
    assert s[14..18] == h[12..16];
    assert s[19..23] == h[16..20];
    assert s[24..] == h[20..];
  }

  lemma IdRoundTrip(id: Id)
    ensures ReadId(IdText(id)) == Some(id)
  {
    ReachHexadecimal();
    Hyphens(DigitText(id, Hexadecimal, 32));
    DigitsRoundTrip(id, Hexadecimal, 32);
  }

  // -------------------------------------------------------------------------------- cursors

  function KindText(k: Kind): string {
    if k.ExpenseRow? then "expense" else "settlement"
  }

  function ReadKind(s: string): Option<Kind> {
    if s == "expense" then Some(ExpenseRow)
    else if s == "settlement" then Some(SettlementRow)
    else None
  }

  function UpTo(s: string): (i: nat)
    ensures i <= |s|
  {
    if |s| == 0 || s[0] == '|' then 0 else 1 + UpTo(s[1..])
  }

  /** At most n parts, cut at the first n - 1 separators. */
  function SplitN(s: string, n: nat): seq<string> {
    var i := UpTo(s);
    if n <= 1 || i == |s| then [s] else [s[..i]] + SplitN(s[i + 1..], n - 1)
  }

  lemma {:induction false} UpToSeparator(s: string, rest: string)
    requires Plain(s)
    ensures UpTo(s + "|" + rest) == |s|
  {
    if |s| > 0 {
      UpToSeparator(s[1..], rest);
      assert (s + "|" + rest)[1..] == s[1..] + "|" + rest;
    } else {
      assert (s + "|" + rest)[0] == '|';
    }
  }

  lemma SplitFirst(s: string, rest: string, n: nat)
    requires Plain(s) && n > 1
    ensures SplitN(s + "|" + rest, n) == [s] + SplitN(rest, n - 1)
  {
    UpToSeparator(s, rest);
    assert (s + "|" + rest)[..|s|] == s;
    assert (s + "|" + rest)[|s| + 1..] == rest;
  }

  function Joined(a: string, b: string, c: string, d: string): string {
    a + "|" + (b + "|" + (c + "|" + d))
  }

  lemma SplitFour(a: string, b: string, c: string, d: string)
    requires Plain(a) && Plain(b) && Plain(c)
    ensures SplitN(Joined(a, b, c, d), 4) == [a, b, c, d]
  {
    SplitFirst(a, b + "|" + (c + "|" + d), 4);
    SplitFirst(b, c + "|" + d, 3);
    SplitFirst(c, d, 2);
  }

  function RawCursor(clock: Clock, r: FeedRow): string
    requires Sound(clock)
  {
    Joined(TimeText(clock, r.occurredAt), TimeText(clock, r.createdAt), KindText(r.kind), IdText(r.id))
  }

  lemma RawCursorBytes(clock: Clock, r: FeedRow)
    requires Sound(clock)
    ensures IsBytes(RawCursor(clock, r)) && RawCursor(clock, r) != ""
  {
    TimeTextPlain(clock, r.occurredAt);
    TimeTextPlain(clock, r.createdAt);
    NamePlain(r.kind, r.id);
    PlainBytes(TimeText(clock, r.occurredAt), TimeText(clock, r.createdAt), KindText(r.kind), IdText(r.id));
  }

  lemma NamePlain(k: Kind, id: Id)
    ensures Plain(KindText(k)) && Plain(IdText(id))
  {
    var h := DigitText(id, Hexadecimal, 32);
    assert Plain(h);
    assert Plain(h[..8] + "-" + h[8..12] + "-" + h[12..16]);
  }

  lemma PlainBytes(a: string, b: string, c: string, d: string)
    requires Plain(a) && Plain(b) && Plain(c) && Plain(d)
    ensures IsBytes(Joined(a, b, c, d)) && Joined(a, b, c, d) != ""
  {
    assert IsBytes(c + "|" + d);
    assert IsBytes(b + "|" + (c + "|" + d));
  }

  function EncodeCursor(clock: Clock, r: FeedRow): string
    requires Sound(clock)
  {
    RawCursorBytes(clock, r);
    Base64Encode(RawCursor(clock, r))
  }

  function ReadParts(clock: Clock, parts: seq<string>): Result<Option<FeedRow>, CursorError> {
    if |parts| != 4 then Err(BadCursor)
    else
      var occurredAt, createdAt := ReadTime(clock, parts[0]), ReadTime(clock, parts[1]);
      var kind, id := ReadKind(parts[2]), ReadId(parts[3]);
      if occurredAt.None? || createdAt.None? || kind.None? || id.None? then Err(BadCursor)
      else Ok(Some(FeedRow(kind.value, occurredAt.value, createdAt.value, id.value)))
  }

  /** The empty string means the first page. */
  function DecodeCursor(clock: Clock, s: string): Result<Option<FeedRow>, CursorError> {
    if s == "" then Ok(None)
    else
      var raw := Base64Decode(s);
      if raw.None? then Err(BadCursor) else ReadParts(clock, SplitN(raw.value, 4))
  }

  lemma DecodeJoined(clock: Clock, a: string, b: string, c: string, d: string)
    requires Plain(a) && Plain(b) && Plain(c) && Plain(d)
    ensures IsBytes(Joined(a, b, c, d))
    ensures Base64Encode(Joined(a, b, c, d)) != ""
    ensures DecodeCursor(clock, Base64Encode(Joined(a, b, c, d))) == ReadParts(clock, [a, b, c, d])
  {
    PlainBytes(a, b, c, d);
    Base64RoundTrip(Joined(a, b, c, d));
    SplitFour(a, b, c, d);
  }

  lemma DecodeWritten(clock: Clock, r: FeedRow, a: string, b: string, c: string, d: string, good: bool)
    requires Plain(a) && Plain(b) && Plain(c) && Plain(d)
    requires good ==> ReadTime(clock, a) == Some(r.occurredAt) && ReadTime(clock, b) == Some(r.createdAt)
    requires !good ==> ReadTime(clock, a).None? || ReadTime(clock, b).None?
    requires ReadKind(c) == Some(r.kind) && ReadId(d) == Some(r.id)
    ensures IsBytes(Joined(a, b, c, d)) && Base64Encode(Joined(a, b, c, d)) != ""
    ensures DecodeCursor(clock, Base64Encode(Joined(a, b, c, d))) == if good then Ok(Some(r)) else Err(BadCursor)
  {
    DecodeJoined(clock, a, b, c, d);
  }

  /** A row survives the trip through its cursor exactly when both its times fall in the years
      0 to 9999 in UTC; any other row's cursor is refused when the client sends it back. */
  lemma CursorRoundTrip(clock: Clock, r: FeedRow)
    requires Sound(clock)
    ensures EncodeCursor(clock, r) != ""
    ensures DecodeCursor(clock, EncodeCursor(clock, r))
         == if FourDigitYear(clock, r.occurredAt) && FourDigitYear(clock, r.createdAt)
            then Ok(Some(r)) else Err(BadCursor)
  {
    TimeTextPlain(clock, r.occurredAt);
    TimeTextPlain(clock, r.createdAt);
    NamePlain(r.kind, r.id);
    TimeRoundTrip(clock, r.occurredAt);
    TimeRoundTrip(clock, r.createdAt);
    IdRoundTrip(r.id);
    DecodeWritten(clock, r, TimeText(clock, r.occurredAt), TimeText(clock, r.createdAt), KindText(r.kind), IdText(r.id),
      FourDigitYear(clock, r.occurredAt) && FourDigitYear(clock, r.createdAt));
  }

  /** 23:59:59 on December 31 of the year 9999, twelve hours west of UTC, as nanoseconds. */
  const LATE: int := (2932897 * 86400 + 43199) * SECOND

  lemma LateDay(years: Years, d: Date)
    requires Lawful(years) && years(10000) == 2932897
    requires ValidDate(d) && DayNumber(years, d.year, d.month, d.day) == 2932897
    ensures d == Date(10000, 1, 1)
  {
    DatesDistinct(years, d, Date(10000, 1, 1));
  }

  /** That instant is in the year 10000 in UTC, and a row with it has a cursor that the next
      request refuses. */
  lemma LateRowRefused(clock: Clock, kind: Kind, createdAt: int, id: Id)
    requires clock == GoClock()
    ensures clock.civil(LATE / DAY) == Date(10000, 1, 1)
    ensures DecodeCursor(clock, EncodeCursor(clock, FeedRow(kind, LATE, createdAt, id))) == Err(BadCursor)
  {
    GoLawful();
    assert LATE / DAY == 2932897 && GoYearStart(10000) == 2932897;
    assert RightDate(clock, 2932897, clock.civil(2932897));
    LateDay(Go(), clock.civil(2932897));
    RefusedRow(clock, FeedRow(kind, LATE, createdAt, id));
  }

  lemma RefusedRow(clock: Clock, r: FeedRow)
    requires Sound(clock) && !FourDigitYear(clock, r.occurredAt)
    ensures DecodeCursor(clock, EncodeCursor(clock, r)) == Err(BadCursor)
  {
    CursorRoundTrip(clock, r);
  }

  // ----------------------------------------------------------------------- how it is written

  /** Five seconds past 13:09 in UTC on February 29, 2024. */
  const LEAP_DAY: int := 19782 * DAY + 13 * HOUR + 9 * MINUTE + 5 * SECOND

  lemma LeapDate(years: Years, d: Date)
    requires Lawful(years) && years(2024) == 19723
    requires ValidDate(d) && DayNumber(years, d.year, d.month, d.day) == 19782
    ensures d == Date(2024, 2, 29)
  {
    DatesDistinct(years, d, Date(2024, 2, 29));
  }

  lemma DateSample()
    ensures DateText(Date(2024, 2, 29)) == "2024-02-29"
  {
    assert DigitText(2, Decimal, 2) == "02" && DigitText(29, Decimal, 2) == "29";
    assert DigitText(20, Decimal, 2) == "20" && DigitText(202, Decimal, 3) == "202";
    assert DigitText(2024, Decimal, 4) == "2024";
    assert Width(2024) == 4;
  }

  lemma ClockSample(n: int)
    requires n == 13 * HOUR + 9 * MINUTE + 5 * SECOND
    ensures 0 <= n < DAY && ClockText(n) == "T13:09:05"
  {
    assert n / HOUR == 13 && n % HOUR / MINUTE == 9 && n % MINUTE / SECOND == 5;
    assert DigitText(13, Decimal, 2) == "13" && DigitText(9, Decimal, 2) == "09" && DigitText(5, Decimal, 2) == "05";
  }

  lemma TimeParts(clock: Clock, t: int, d: Date)
    requires Sound(clock) && ValidDate(d) && clock.civil(t / DAY) == d
    ensures TimeText(clock, t) == DateText(d) + ClockText(t % DAY) + FractionText(t % SECOND) + "Z"
  {
  }

  lemma LeapParts()
    ensures LEAP_DAY / DAY == 19782 && LEAP_DAY % DAY == 13 * HOUR + 9 * MINUTE + 5 * SECOND && LEAP_DAY % SECOND == 0
  {
  }

  lemma LeapYearStart()
    ensures Go()(2024) == 19723
  {
    assert GoYearStart(2024) == 19723;
  }

  lemma LeapCivil(clock: Clock)
    requires clock == GoClock()
    ensures clock.civil(19782) == Date(2024, 2, 29)
  {
    GoLawful();
    LeapYearStart();
    assert RightDate(clock, 19782, clock.civil(19782));
    LeapDate(clock.years, clock.civil(19782));
  }

  lemma LeapText(clock: Clock, d: Date, t: int)
    requires Sound(clock) && d == Date(2024, 2, 29) && clock.civil(t / DAY) == d
    requires t % DAY == 13 * HOUR + 9 * MINUTE + 5 * SECOND && t % SECOND == 0
    ensures TimeText(clock, t) == "2024-02-29T13:09:05Z"
  {
    TimeParts(clock, t, d);
    DateSample();
    ClockSample(t % DAY);
    Appended(DateText(d), ClockText(t % DAY));
  }

  /** The text a cursor holds for that instant: year, month, day, hours, minutes and seconds. */
  lemma TimeSample(clock: Clock)
    requires clock == GoClock()
    ensures TimeText(clock, LEAP_DAY) == "2024-02-29T13:09:05Z"
  {
    LeapParts();
    LeapCivil(clock);
    LeapText(clock, Date(2024, 2, 29), LEAP_DAY);
  }

  lemma Appended(date: string, time: string)
    requires date == "2024-02-29" && time == "T13:09:05"
    ensures date + time + "" + "Z" == "2024-02-29T13:09:05Z"
  {
  }

  /** Four parts with bars between them: occurrence, creation, kind and id. */
  lemma CursorLayout(clock: Clock, r: FeedRow)
    requires Sound(clock)
    ensures RawCursor(clock, r)
         == TimeText(clock, r.occurredAt) + "|" + TimeText(clock, r.createdAt) + "|"
          + (if r.kind.ExpenseRow? then "expense" else "settlement") + "|" + IdText(r.id)
  {
  }

  /** A UUID in groups of eight, four, four, four and twelve lower-case hexadecimal digits. */
  lemma IdShape(id: Id, i: nat)
    requires i < 36
    ensures |IdText(id)| == 36
    ensures if i == 8 || i == 13 || i == 18 || i == 23 then IdText(id)[i] == '-'
            else '0' <= IdText(id)[i] <= '9' || 'a' <= IdText(id)[i] <= 'f'
  {
    LowerDigits(id, 32);
  }

  lemma {:induction false} LowerDigits(n: nat, width: nat)
    ensures forall i :: 0 <= i < width ==>
      var c := DigitText(n, Hexadecimal, width)[i]; '0' <= c <= '9' || 'a' <= c <= 'f'
  {
    if width > 0 {
      LowerDigits(Hexadecimal.Shifted(n), width - 1);
    }
  }
}
