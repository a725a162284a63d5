/**
 * The Cairo day (packages/contracts/src/common/cairo-date.ts, lines 43-57 and 91-156). The zone is an
 * offset function: the wall clock minus the instant, in milliseconds.
 */
module CairoDay {
  import opened Options
  import opened Calendar
  import opened YmdText

  type Instant = int

  const HOUR_MS: int := 3_600_000
  const WINTER: int := 7_200_000
  const SUMMER: int := 10_800_000

  /** The clock jumps forward at local 00:00 and falls back at local 24:00, between UTC+2 and UTC+3. */
  ghost predicate EgyptRule(offset: Instant -> int) {
    && (forall t :: offset(t) == WINTER || offset(t) == SUMMER)
    && (forall t :: JumpsForward(offset, t) ==> (t + WINTER) % DAY_MS == 0)
    && (forall t :: FallsBack(offset, t) ==> (t + SUMMER) % DAY_MS == 0)
  }

  predicate JumpsForward(offset: Instant -> int, t: Instant) {
    offset(t - 1) == WINTER && offset(t) == SUMMER
  }

  predicate FallsBack(offset: Instant -> int, t: Instant) {
    offset(t - 1) == SUMMER && offset(t) == WINTER
  }

  // ---------------------------------------------------------------- reading the clock

  datatype WallClock = WallClock(date: Civil, hour: int, minute: int, second: int)

  /** `cairoWallClock`: the fields a formatter prints of local time. */
  function CairoWallClock(offset: Instant -> int, t: Instant): WallClock {
    var local := t + offset(t);
    var inDay := local % DAY_MS;
    WallClock(CivilOf(local / DAY_MS), inDay / HOUR_MS, inDay / 60_000 % 60, inDay / 1000 % 60)
  }

  /** The Cairo day number of an instant. */
  function LocalDay(offset: Instant -> int, t: Instant): int {
    (t + offset(t)) / DAY_MS
  }

  /** `cairoYmd` */
  function CairoYmd(offset: Instant -> int, t: Instant): string {
    Text(CairoWallClock(offset, t).date)
  }

  /** `Date.UTC(year, month0, day, hour, minute, second)` */
  function TimeOf(w: WallClock): int {
    DateUtc(w.date.year, w.date.month - 1, w.date.day) + w.hour * HOUR_MS + w.minute * 60_000 + w.second * 1000
  }

  /** `cairoOffsetMs`: the offset, recovered from the clock to the second. */
  function CairoOffsetMs(offset: Instant -> int, t: Instant): int {
    TimeOf(CairoWallClock(offset, t)) - t / 1000 * 1000
  }

  lemma {:induction false} ClockOfDay(inDay: int)
    requires 0 <= inDay < DAY_MS
    ensures inDay / HOUR_MS * HOUR_MS + inDay / 60_000 % 60 * 60_000 + inDay / 1000 % 60 * 1000 == inDay / 1000 * 1000
  {
    var s := inDay / 1000;
    var m := inDay / 60_000;
    assert m == s / 60 && inDay / HOUR_MS == m / 60;
  }

  lemma {:induction false} SecondsApart(t: int, seconds: int)
    ensures (t + seconds * 1000) / 1000 * 1000 == t / 1000 * 1000 + seconds * 1000
  {
  }

  lemma {:induction false} TruncatedLocal(local: int)
    ensures local / DAY_MS * DAY_MS + local % DAY_MS / 1000 * 1000 == local / 1000 * 1000
  {
    var q, r := local / DAY_MS, local % DAY_MS;
    assert local == q * DAY_MS + r;
    SecondsApart(r, q * 86_400);
  }

  lemma {:induction false} MidnightOfDate(d: int)
    requires FIRST_DAY <= d
    ensures var c := CivilOf(d); DateUtc(c.year, c.month - 1, c.day) == d * DAY_MS
  {
    var c := CivilOf(d);
    CivilInverse(d);
    RangeOfDays();
    EarlierIff(c, Civil(100, 1, 1));
    DaysAreShort(c);
    MakeDayOfReal(c);
  }

  lemma {:induction false} ClockTime(offset: Instant -> int, t: Instant)
    requires FIRST_DAY <= LocalDay(offset, t)
    ensures TimeOf(CairoWallClock(offset, t)) == (t + offset(t)) / 1000 * 1000
  {
    hide DateUtc, CivilOf;
    var local := t + offset(t);
    MidnightOfDate(local / DAY_MS);
    ClockOfDay(local % DAY_MS);
    TruncatedLocal(local);
  }

  /** The recovered offset is the zone's, for every clock whose year `Date.UTC` does not reinterpret. */
  lemma {:induction false} OffsetRead(offset: Instant -> int, t: Instant)
    requires EgyptRule(offset) && FIRST_DAY <= LocalDay(offset, t)
    ensures CairoOffsetMs(offset, t) == offset(t)
  {
    hide TimeOf, CairoWallClock;
    ClockTime(offset, t);
    SecondsApart(t, offset(t) / 1000);
  }

  // ---------------------------------------------------------------- where the offset can change

  /** Between two clock changes the offset is constant. */
  lemma {:induction false} Constant(offset: Instant -> int, a: Instant, b: Instant)
    requires EgyptRule(offset) && a <= b
    requires forall t :: a < t <= b ==> !JumpsForward(offset, t) && !FallsBack(offset, t)
    ensures offset(a) == offset(b)
    decreases b - a
  {
    if a < b {
      Constant(offset, a, b - 1);
      assert !JumpsForward(offset, b) && !FallsBack(offset, b);
    }
  }

  /** Within a day the offset can change at two instants only: three and two hours before its UTC midnight. */
  lemma {:induction false} ChangesAt(offset: Instant -> int, d: int, t: Instant)
    requires EgyptRule(offset) && d * DAY_MS - SUMMER <= t < (d + 1) * DAY_MS - SUMMER
    ensures JumpsForward(offset, t) ==> t == d * DAY_MS - WINTER
    ensures FallsBack(offset, t) ==> t == d * DAY_MS - SUMMER
  {
    if JumpsForward(offset, t) {
      assert (t + WINTER) % DAY_MS == 0;
      OnlyMultiple(d, t + WINTER);
    }
    if FallsBack(offset, t) {
      assert (t + SUMMER) % DAY_MS == 0;
      OnlyMultiple(d, t + SUMMER);
    }
  }

  lemma {:induction false} OnlyMultiple(d: int, x: int)
    requires d * DAY_MS - HOUR_MS <= x < (d + 1) * DAY_MS && x % DAY_MS == 0
    ensures x == d * DAY_MS
  {
    assert x == x / DAY_MS * DAY_MS;
  }

  /** The offset before, in and after the hour in which a day may begin. */
  lemma {:induction false} AroundMidnight(offset: Instant -> int, d: int, t: Instant)
    requires EgyptRule(offset)
    ensures d * DAY_MS - SUMMER <= t < d * DAY_MS - WINTER ==> offset(t) == offset(d * DAY_MS - SUMMER)
    ensures d * DAY_MS - WINTER <= t <= d * DAY_MS ==> offset(t) == offset(d * DAY_MS - WINTER)
    ensures offset(d * DAY_MS - SUMMER) == SUMMER ==> offset(d * DAY_MS - WINTER) == SUMMER
  {
    var m := d * DAY_MS;
    forall x | m - SUMMER < x <= m ensures (JumpsForward(offset, x) ==> x == m - WINTER) && !FallsBack(offset, x) {
      ChangesAt(offset, d, x);
    }
    Constant(offset, m - SUMMER, m - WINTER - 1);
    if m - SUMMER <= t < m - WINTER {
      Constant(offset, m - SUMMER, t);
    }
    if m - WINTER <= t <= m {
      Constant(offset, m - WINTER, t);
    }
    assert !FallsBack(offset, m - WINTER);
  }

  // ---------------------------------------------------------------- the start of a day

  /** `cairoDayStart`: guessed with the offset at UTC midnight, corrected once at the guess. */
  function CairoDayStart(offset: Instant -> int, ymd: string): Result<Instant> {
    match UtcMidnightOf(ymd)
    case None => RangeError(ymd)
    case Some(midnight) =>
      var guess := midnight - CairoOffsetMs(offset, midnight);
      Ok(midnight - CairoOffsetMs(offset, guess))
  }

  /** The same computation with the offset itself. */
  function Solve(offset: Instant -> int, d: int): Instant {
    var midnight := d * DAY_MS;
    midnight - offset(midnight - offset(midnight))
  }

  /** `s` is where day `d` begins: everything before it is on an earlier day, everything from it on is not. */
  ghost predicate Begins(offset: Instant -> int, d: int, s: Instant) {
    && LocalDay(offset, s) == d
    && (forall t :: t < s ==> LocalDay(offset, t) < d)
    && (forall t :: s <= t ==> LocalDay(offset, t) >= d)
  }

  lemma {:induction false} DayBounds(offset: Instant -> int, d: int, t: Instant)
    requires EgyptRule(offset)
    ensures LocalDay(offset, t) < d <==> t + offset(t) < d * DAY_MS
  {
    var x := t + offset(t);
    assert x == x / DAY_MS * DAY_MS + x % DAY_MS;
  }

  /** One correction lands on the first instant of the day, on both change days as on any other. */
  lemma {:induction false} SolveBegins(offset: Instant -> int, d: int)
    requires EgyptRule(offset)
    ensures Begins(offset, d, Solve(offset, d))
  {
    var m := d * DAY_MS;
    var s := Solve(offset, d);
    AroundMidnight(offset, d, m);
    AroundMidnight(offset, d, m - SUMMER);
    AroundMidnight(offset, d, m - WINTER);
    assert s == if offset(m - SUMMER) == SUMMER then m - SUMMER else m - WINTER;
    forall t: Instant ensures t < s ==> LocalDay(offset, t) < d
      ensures s <= t ==> LocalDay(offset, t) >= d
    {
      DayBounds(offset, d, t);
      AroundMidnight(offset, d, t);
    }
    DayBounds(offset, d, s);
    DayBounds(offset, d + 1, s);
  }

  /** The one accepted date whose correction would read a clock in the year 99, which `Date.UTC` takes for 1999. */
  predicate ReadsYear99(offset: Instant -> int, d: int) {
    d == FIRST_DAY && JumpsForward(offset, d * DAY_MS - WINTER)
  }

  /** The clock of the last day of the year 99 is read as one nineteen hundred years later. */
  lemma {:induction false} Year99Misread(offset: Instant -> int, t: Instant)
    requires LocalDay(offset, t) == FIRST_DAY - 1 && -60 * HOUR_MS < t - FIRST_DAY * DAY_MS
    requires EgyptRule(offset)
    ensures CairoOffsetMs(offset, t) > SUMMER
  {
    hide CivilOf, DateUtc;
    LastDayOfYear99();
    Year99Is1999();
    assert t / 1000 * 1000 <= t;
    assert t + offset(t) < FIRST_DAY * DAY_MS by {
      DayBounds(offset, FIRST_DAY, t);
    }
  }

  lemma {:induction false} LastDayOfYear99()
    ensures CivilOf(FIRST_DAY - 1) == Civil(99, 12, 31)
  {
    RangeOfDays();
    MonthsOfYear(99);
    NumberInverse(Civil(99, 12, 31));
  }

  lemma {:induction false} Year99Is1999()
    ensures DateUtc(99, 11, 31) == 10956 * DAY_MS
  {
    MonthsOfYear(1999);
  }

  /** Which dates the solve is right for: all the accepted ones, but for a forward jump opening the year 100. */
  lemma {:induction false} DayStartIsIff(offset: Instant -> int, d: int)
    requires EgyptRule(offset) && InRange(d)
    ensures CairoDayStart(offset, Text(CivilOf(d))) == Ok(Solve(offset, d)) <==> !ReadsYear99(offset, d)
  {
    hide CairoOffsetMs, UtcMidnightOf, Text, CivilOf, LocalDay;
    TextOfDay(d);
    var m := d * DAY_MS;
    DayBounds(offset, FIRST_DAY, m);
    OffsetRead(offset, m);
    var guess := m - offset(m);
    DayBounds(offset, FIRST_DAY, guess);
    AroundMidnight(offset, d, m);
    AroundMidnight(offset, d, m - WINTER - 1);
    AroundMidnight(offset, d, guess);
    if ReadsYear99(offset, d) {
      DayBounds(offset, FIRST_DAY - 1, guess);
      Year99Misread(offset, guess);
    } else {
      OffsetRead(offset, guess);
    }
  }

  // ---------------------------------------------------------------- days as texts

  lemma {:induction false} DateOfClock(offset: Instant -> int, t: Instant)
    ensures CairoYmd(offset, t) == Text(CivilOf(LocalDay(offset, t)))
  {
    hide CivilOf, Text;
  }

  /** Two instants print the same accepted date exactly when they fall on the same Cairo day. */
  lemma {:induction false} SameDateIff(offset: Instant -> int, t: Instant, d: int)
    requires InRange(d)
    ensures CairoYmd(offset, t) == Text(CivilOf(d)) <==> LocalDay(offset, t) == d
  {
    hide Text, CivilOf, IsYmd, DayOf, UtcMidnightOf;
    var e := LocalDay(offset, t);
    TextOfDay(d);
    if InRange(e) {
      TextOfDay(e);
    } else {
      CivilInverse(e);
      AcceptedIff(CivilOf(e));
      OutsideIsRefused(CivilOf(e));
    }
  }

  /** The dates whose start `cairoDayStart` finds. */
  predicate Startable(offset: Instant -> int, ymd: string) {
    IsYmd(ymd) && !ReadsYear99(offset, DayOf(ymd))
  }

  /** A day starts where the code says, and the days it names partition time. */
  lemma {:induction false} DayStartOf(offset: Instant -> int, ymd: string)
    requires EgyptRule(offset) && Startable(offset, ymd)
    ensures CairoDayStart(offset, ymd).Ok?
    ensures Begins(offset, DayOf(ymd), CairoDayStart(offset, ymd).value)
  {
    hide CairoDayStart, Begins, IsYmd, DayOf;
    DayOfText(ymd);
    DayStartIsIff(offset, DayOf(ymd));
    SolveBegins(offset, DayOf(ymd));
  }

  /** `cairoDayStart(d)` is the least instant whose Cairo date is d. */
  lemma {:induction false} DayStartIsLeast(offset: Instant -> int, ymd: string)
    requires EgyptRule(offset) && Startable(offset, ymd)
    ensures CairoDayStart(offset, ymd).Ok?
    ensures CairoYmd(offset, CairoDayStart(offset, ymd).value) == ymd
    ensures forall t :: CairoYmd(offset, t) == ymd ==> CairoDayStart(offset, ymd).value <= t
  {
    hide CairoDayStart, IsYmd, DayOf, CairoYmd, LocalDay;
    DayStartOf(offset, ymd);
    DayOfText(ymd);
    var s := CairoDayStart(offset, ymd).value;
    SameDateIff(offset, s, DayOf(ymd));
    forall t | CairoYmd(offset, t) == ymd ensures s <= t {
      SameDateIff(offset, t, DayOf(ymd));
    }
  }

  /**
   * The starts of consecutive days partition time: an instant carries a date exactly between its start and the next.
   */
  lemma {:induction false} StartsPartitionTime(offset: Instant -> int, today: string, tomorrow: string, t: Instant)
    requires EgyptRule(offset) && Startable(offset, today) && AddDaysYmd(today, 1) == Ok(tomorrow) && IsYmd(tomorrow)
    ensures CairoDayStart(offset, today).Ok? && CairoDayStart(offset, tomorrow).Ok?
    ensures CairoDayStart(offset, today).value < CairoDayStart(offset, tomorrow).value
    ensures CairoYmd(offset, t) == today <==>
      CairoDayStart(offset, today).value <= t < CairoDayStart(offset, tomorrow).value
  {
    hide CairoDayStart, IsYmd, DayOf, CairoYmd, LocalDay, AddDaysYmd, DayText;
    var d := DayOf(today);
    NextText(today, tomorrow);
    DayOfText(today);
    DayStartOf(offset, today);
    DayStartOf(offset, tomorrow);
    SameDateIff(offset, t, d);
    var s, n := CairoDayStart(offset, today).value, CairoDayStart(offset, tomorrow).value;
    if s <= t {
      assert LocalDay(offset, t) >= d;
    }
    assert t < n <==> LocalDay(offset, t) < d + 1;
  }

  lemma {:induction false} NextText(today: string, tomorrow: string)
    requires IsYmd(today) && AddDaysYmd(today, 1) == Ok(tomorrow) && IsYmd(tomorrow)
    ensures DayOf(tomorrow) == DayOf(today) + 1
  {
    hide *;
    AddMoves(today, 1);
    TextUsableIff(DayOf(today) + 1);
  }

  // ---------------------------------------------------------------- the next midnight

  /** `nextCairoMidnight` */
  function NextCairoMidnight(offset: Instant -> int, t: Instant): Result<Instant> {
    match AddDaysYmd(CairoYmd(offset, t), 1)
    case RangeError(text) => RangeError(text)
    case Ok(tomorrow) => CairoDayStart(offset, tomorrow)
  }

  /** `s` is the first instant after `t` on another Cairo date. */
  ghost predicate FirstOnAnotherDate(offset: Instant -> int, t: Instant, s: Instant) {
    && t < s
    && CairoYmd(offset, s) != CairoYmd(offset, t)
    && forall x :: t <= x < s ==> CairoYmd(offset, x) == CairoYmd(offset, t)
  }

  lemma {:induction false} DayStartRefuses(offset: Instant -> int, ymd: string)
    ensures CairoDayStart(offset, ymd).Ok? <==> IsYmd(ymd)
  {
  }

  /** It answers exactly for the dates of the years 100 to 9999 but the last, and an answer is right. */
  lemma {:induction false} NextMidnightIff(offset: Instant -> int, t: Instant)
    requires EgyptRule(offset)
    ensures NextCairoMidnight(offset, t).Ok? <==> FIRST_DAY <= LocalDay(offset, t) < LAST_DAY
    ensures NextCairoMidnight(offset, t).Ok? ==> FirstOnAnotherDate(offset, t, NextCairoMidnight(offset, t).value)
  {
    hide CairoDayStart, IsYmd, DayOf, LocalDay, CivilOf, Text, AddDaysYmd, FirstOnAnotherDate, DayText;
    var d := LocalDay(offset, t);
    var today := CairoYmd(offset, t);
    DateOfClock(offset, t);
    if InRange(d) {
      TextOfDay(d);
      AddMoves(today, 1);
      TextUsableIff(d + 1);
      DayStartRefuses(offset, DayText(d + 1));
      if InRange(d + 1) {
        NextMidnightIsFirst(offset, t, DayText(d + 1));
      }
    } else {
      CivilInverse(d);
      AcceptedIff(CivilOf(d));
      OutsideIsRefused(CivilOf(d));
      AddRefuses(today, 1);
    }
  }

  lemma {:induction false} NextMidnightIsFirst(offset: Instant -> int, t: Instant, tomorrow: string)
    requires EgyptRule(offset)
    requires InRange(LocalDay(offset, t)) && IsYmd(tomorrow) && DayOf(tomorrow) == LocalDay(offset, t) + 1
    ensures CairoDayStart(offset, tomorrow).Ok?
    ensures FirstOnAnotherDate(offset, t, CairoDayStart(offset, tomorrow).value)
  {
    hide CairoDayStart, IsYmd, DayOf, CairoYmd, LocalDay, CivilOf, Text;
    var d := LocalDay(offset, t);
    DayStartOf(offset, tomorrow);
    var s := CairoDayStart(offset, tomorrow).value;
    SameDateIff(offset, t, d);
    forall x ensures CairoYmd(offset, x) == CairoYmd(offset, t) <==> LocalDay(offset, x) == d {
      SameDateIff(offset, x, d);
    }
    SolveBegins(offset, d);
    forall x | t <= x < s ensures LocalDay(offset, x) == d {
      assert LocalDay(offset, x) < d + 1;
      assert Solve(offset, d) <= t;
    }
    assert t < s;
  }
}
