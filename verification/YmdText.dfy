/**
 * 'YYYY-MM-DD' texts and the day arithmetic on them
 * (packages/contracts/src/common/cairo-date.ts, lines 59-125). A time is in milliseconds since 1970.
 */
module YmdText {
  import opened Options
  import opened Calendar

  const DAY_MS: int := 86_400_000
  /** The largest time value an ECMAScript date can hold. */
  const MAX_TIME: int := 8_640_000_000_000_000

  // ---------------------------------------------------------------- digits

  predicate IsDigit(c: char) {
    '0' <= c <= '9'
  }

  function DigitOf(n: int): char
    requires 0 <= n < 10
  {
    (n + '0' as int) as char
  }

  function DigitValue(c: char): (n: nat)
    requires IsDigit(c)
    ensures n < 10
  {
    c as int - '0' as int
  }

  function Decimal(n: nat): string {
    if n < 10 then [DigitOf(n)] else Decimal(n / 10) + [DigitOf(n % 10)]
  }

  /** `String(value)` of an integer. */
  function NumberText(n: int): string {
    if n < 0 then "-" + Decimal(-n) else Decimal(n)
  }

  function Zeros(n: nat): string {
    seq(n, _ => '0')
  }

  function PadStart(s: string, width: nat): string {
    if |s| < width then Zeros(width - |s|) + s else s
  }

  function Pad(n: int, width: nat): string {
    PadStart(NumberText(n), width)
  }

  /** The value a run of digits spells: `Number(text)`. */
  function Value(s: string): nat
    requires forall i :: 0 <= i < |s| ==> IsDigit(s[i])
  {
    if s == [] then 0 else Value(s[..|s| - 1]) * 10 + DigitValue(s[|s| - 1])
  }

  function Pow10(w: nat): nat {
    if w == 0 then 1 else 10 * Pow10(w - 1)
  }

  /** `n` in exactly `w` digits. */
  function Fixed(n: nat, w: nat): (s: string)
    ensures |s| == w && forall i :: 0 <= i < w ==> IsDigit(s[i])
  {
    if w == 0 then [] else Fixed(n / 10, w - 1) + [DigitOf(n % 10)]
  }

  lemma {:induction false} FixedZero(w: nat)
    ensures Fixed(0, w) == Zeros(w)
  {
    if w > 0 {
      FixedZero(w - 1);
    }
  }

  lemma {:induction false} DecimalPadded(n: nat, w: nat)
    requires n < Pow10(w) && w > 0
    ensures |Decimal(n)| <= w && PadStart(Decimal(n), w) == Fixed(n, w)
  {
    if n < 10 {
      FixedZero(w - 1);
      assert n / 10 == 0 && n % 10 == n;
    } else {
      assert w > 1 by { assert Pow10(1) == 10 * Pow10(0); }
      DecimalPadded(n / 10, w - 1);
      var init := Decimal(n / 10);
      assert PadStart(init + [DigitOf(n % 10)], w) == PadStart(init, w - 1) + [DigitOf(n % 10)];
    }
  }

  lemma {:induction false} ValueOfFixed(n: nat, w: nat)
    requires n < Pow10(w)
    ensures Value(Fixed(n, w)) == n
  {
    if w > 0 {
      ValueOfFixed(n / 10, w - 1);
      assert Fixed(n, w)[..w - 1] == Fixed(n / 10, w - 1);
    }
  }

  lemma {:induction false} FixedOfValue(s: string)
    requires forall i :: 0 <= i < |s| ==> IsDigit(s[i])
    ensures Value(s) < Pow10(|s|) && Fixed(Value(s), |s|) == s
  {
    if s != [] {
      var n := |s| - 1;
      var last := DigitValue(s[n]);
      FixedOfValue(s[..n]);
      assert Value(s) == Value(s[..n]) * 10 + last;
      assert Value(s) / 10 == Value(s[..n]) && Value(s) % 10 == last;
      assert s == s[..n] + [s[n]];
    }
  }

  // ---------------------------------------------------------------- texts of dates

  /** `${pad(year, 4)}-${pad(month, 2)}-${pad(day, 2)}` */
  function Text(c: Civil): string {
    Pad(c.year, 4) + "-" + Pad(c.month, 2) + "-" + Pad(c.day, 2)
  }

  /** `/^(\d{4})-(\d{2})-(\d{2})$/` */
  predicate YmdShape(s: string) {
    && |s| == 10
    && (forall i :: 0 <= i < 10 && i != 4 && i != 7 ==> IsDigit(s[i]))
    && s[4] == '-' && s[7] == '-'
  }

  function Parsed(s: string): Civil
    requires YmdShape(s)
  {
    Civil(Value(s[..4]), Value(s[5..7]), Value(s[8..]))
  }

  /** `Date.UTC(year, month0, date)`, which reads the years 0 to 99 as 1900 to 1999. */
  function DateUtc(year: int, month0: int, date: int): int {
    MakeDay(if 0 <= year <= 99 then 1900 + year else year, month0, date) * DAY_MS
  }

  /** `utcMidnightOf`: the time of a real date, or nothing. */
  function UtcMidnightOf(s: string): Option<int> {
    if !YmdShape(s) then None
    else
      var c := Parsed(s);
      var at := DateUtc(c.year, c.month - 1, c.day);
      if CivilOf(at / DAY_MS) == c then Some(at) else None
  }

  predicate IsYmd(s: string) {
    UtcMidnightOf(s).Some?
  }

  /** A real date the code accepts: the year has four digits and is not below 100. */
  predicate Accepted(c: Civil) {
    Real(c) && 100 <= c.year <= 9999
  }

  lemma {:induction false} PadIsFixed(n: int, w: nat)
    requires 0 <= n < Pow10(w) && w > 0
    ensures Pad(n, w) == Fixed(n, w)
  {
    DecimalPadded(n, w);
  }

  lemma {:induction false} Tens()
    ensures Pow10(2) == 100 && Pow10(4) == 10000
  {
    assert Pow10(1) == 10 * Pow10(0);
    assert Pow10(3) == 10 * Pow10(2);
  }

  lemma {:induction false} DaysAreShort(c: Civil)
    requires Real(c)
    ensures 1 <= c.day <= 31
  {
  }

  lemma {:induction false} TextShape(c: Civil)
    requires Real(c) && 0 <= c.year <= 9999
    ensures Text(c) == Fixed(c.year, 4) + "-" + Fixed(c.month, 2) + "-" + Fixed(c.day, 2)
    ensures YmdShape(Text(c)) && Parsed(Text(c)) == c
  {
    Tens();
    DaysAreShort(c);
    PadIsFixed(c.year, 4);
    PadIsFixed(c.month, 2);
    PadIsFixed(c.day, 2);
    var s, a, b, d := Text(c), Fixed(c.year, 4), Fixed(c.month, 2), Fixed(c.day, 2);
    assert s[..4] == a && s[5..7] == b && s[8..] == d;
    ValueOfFixed(c.year, 4);
    ValueOfFixed(c.month, 2);
    ValueOfFixed(c.day, 2);
  }

  lemma {:induction false} TextOfParsed(s: string)
    requires YmdShape(s) && Real(Parsed(s))
    ensures Text(Parsed(s)) == s && 0 <= Parsed(s).year <= 9999
  {
    Tens();
    FixedOfValue(s[..4]);
    FixedOfValue(s[5..7]);
    FixedOfValue(s[8..]);
    TextShape(Parsed(s));
    assert s == s[..4] + "-" + s[5..7] + "-" + s[8..];
  }

  /** A text of an accepted date is read back as that date's midnight. */
  lemma {:induction false} MidnightOfText(c: Civil)
    requires Accepted(c)
    ensures UtcMidnightOf(Text(c)) == Some(DayNumber(c) * DAY_MS)
  {
    TextShape(c);
    MakeDayOfReal(c);
    NumberInverse(c);
    assert DayNumber(c) * DAY_MS / DAY_MS == DayNumber(c);
  }

  lemma {:induction false} YearAtLeast(d: int, y: int)
    requires DayFromYear(y) <= d
    ensures CivilOf(d).year >= y
  {
    if YearOf(d) < y {
      YearsAscend(YearOf(d) + 1, y);
    }
  }

  /** The years 0 to 99 come back nineteen hundred years later, so they never survive the round trip. */
  lemma {:induction false} EarlyYearsRollOver(year: int, month0: int, date: int)
    requires 0 <= year <= 99 && -1 <= month0 && 0 <= date
    ensures CivilOf(DateUtc(year, month0, date) / DAY_MS).year > 99
  {
    var y := 1900 + year + month0 / 12;
    assert month0 / 12 >= -1;
    MonthsAscend(y, 1, month0 % 12 + 1);
    var d := MakeDay(1900 + year, month0, date);
    assert d * DAY_MS / DAY_MS == d;
    YearLength(y - 1);
    YearAtLeast(d, y - 1);
  }

  lemma {:induction false} WholeDays(d: int)
    ensures d * DAY_MS / DAY_MS == d
  {
  }

  lemma {:induction false} WrittenIsReal(d: int)
    ensures Real(CivilOf(d))
  {
    CivilInverse(d);
  }

  lemma {:induction false} ParsedYear(s: string)
    requires YmdShape(s)
    ensures 0 <= Parsed(s).year <= 9999 && 0 <= Parsed(s).month && 0 <= Parsed(s).day
  {
    Tens();
    FixedOfValue(s[..4]);
  }

  /** What `isYmd` accepts is the text of an accepted date, read as that date's midnight. */
  lemma {:induction false} YmdIsAccepted(s: string)
    requires IsYmd(s)
    ensures YmdShape(s) && Accepted(Parsed(s)) && s == Text(Parsed(s))
    ensures UtcMidnightOf(s) == Some(DayNumber(Parsed(s)) * DAY_MS)
  {
    hide CivilOf, DateUtc, Value, Text, DayNumber;
    var c := Parsed(s);
    assert c == CivilOf(DateUtc(c.year, c.month - 1, c.day) / DAY_MS);
    WrittenIsReal(DateUtc(c.year, c.month - 1, c.day) / DAY_MS);
    ParsedYear(s);
    if c.year <= 99 {
      EarlyYearsRollOver(c.year, c.month - 1, c.day);
    }
    TextOfParsed(s);
    MidnightOfText(c);
  }

  /** `isYmd` accepts exactly the texts of the real Gregorian dates of the years 100 to 9999. */
  lemma {:induction false} IsYmdIff(s: string)
    ensures IsYmd(s) <==> exists c :: Accepted(c) && s == Text(c)
  {
    if IsYmd(s) {
      YmdIsAccepted(s);
    }
    if c :| Accepted(c) && s == Text(c) {
      MidnightOfText(c);
    }
  }

  /** The day number of an accepted text. */
  function DayOf(s: string): int
    requires IsYmd(s)
  {
    UtcMidnightOf(s).value / DAY_MS
  }

  // ---------------------------------------------------------------- day arithmetic

  /** What a call answers: a value, or a RangeError naming the text that is no date. */
  datatype Result<T> = Ok(value: T) | RangeError(text: string)

  /** `ymdFromUtc`; beyond the range of dates every field is NaN. */
  function YmdFromUtc(at: int): string {
    if -MAX_TIME <= at <= MAX_TIME then Text(CivilOf(at / DAY_MS)) else "0NaN-NaN-NaN"
  }

  /** `addDaysYmd` */
  function AddDaysYmd(ymd: string, days: int): Result<string> {
    match UtcMidnightOf(ymd)
    case None => RangeError(ymd)
    case Some(at) => Ok(YmdFromUtc(at + days * DAY_MS))
  }

  /** `daysBetweenYmd`; both times are midnights, so the rounded quotient is exact. */
  function DaysBetweenYmd(from: string, to: string): Result<int> {
    match UtcMidnightOf(to)
    case None => RangeError(to)
    case Some(b) =>
      match UtcMidnightOf(from)
      case None => RangeError(from)
      case Some(a) => Ok((b - a) / DAY_MS)
  }

  /** 0100-01-01 and 9999-12-31, the ends of what `isYmd` accepts. */
  const FIRST_DAY: int := -683003
  const LAST_DAY: int := 2932896

  lemma {:induction false} RangeOfDays()
    ensures FIRST_DAY == DayNumber(Civil(100, 1, 1)) && LAST_DAY == DayNumber(Civil(9999, 12, 31))
  {
    MonthsOfYear(9999);
  }

  predicate InRange(d: int) {
    FIRST_DAY <= d <= LAST_DAY
  }

  lemma {:induction false} AcceptedIff(c: Civil)
    requires Real(c)
    ensures Accepted(c) <==> InRange(DayNumber(c))
  {
    RangeOfDays();
    EarlierIff(c, Civil(100, 1, 1));
    EarlierIff(Civil(9999, 12, 31), c);
    DaysAreShort(c);
  }

  /** An accepted text is the text of its day number. */
  lemma {:induction false} DayOfText(s: string)
    requires IsYmd(s)
    ensures InRange(DayOf(s)) && s == Text(CivilOf(DayOf(s)))
  {
    YmdIsAccepted(s);
    var c := Parsed(s);
    WholeDays(DayNumber(c));
    NumberInverse(c);
    AcceptedIff(c);
  }

  lemma {:induction false} MidnightOfDay(s: string)
    requires IsYmd(s)
    ensures UtcMidnightOf(s) == Some(DayOf(s) * DAY_MS)
  {
    YmdIsAccepted(s);
    WholeDays(DayNumber(Parsed(s)));
  }

  lemma {:induction false} TextOfDay(d: int)
    requires InRange(d)
    ensures IsYmd(Text(CivilOf(d))) && DayOf(Text(CivilOf(d))) == d
    ensures UtcMidnightOf(Text(CivilOf(d))) == Some(d * DAY_MS)
  {
    CivilInverse(d);
    AcceptedIff(CivilOf(d));
    MidnightOfText(CivilOf(d));
    WholeDays(d);
  }

  /** Texts of dates outside the accepted years are refused when they come back. */
  lemma {:induction false} OutsideIsRefused(c: Civil)
    requires Real(c) && !Accepted(c)
    ensures !IsYmd(Text(c))
  {
    hide Text, UtcMidnightOf, YmdShape;
    if 0 <= c.year <= 9999 {
      TextShape(c);
      if IsYmd(Text(c)) {
        YmdIsAccepted(Text(c));
      }
    } else {
      LongYearRefused(c);
      NoShapeNoDate(Text(c));
    }
  }

  lemma {:induction false} NoShapeNoDate(s: string)
    requires !YmdShape(s)
    ensures !IsYmd(s)
  {
  }

  /** A year of more than four characters, or with a sign in it, spoils the shape. */
  lemma {:induction false} LongYearRefused(c: Civil)
    requires Real(c) && (c.year < 0 || c.year > 9999)
    ensures !YmdShape(Text(c))
  {
    hide Pad, Fixed;
    LongOrSigned(c.year);
    Tens();
    DaysAreShort(c);
    PadIsFixed(c.month, 2);
    PadIsFixed(c.day, 2);
    var y := Pad(c.year, 4);
    var tail := "-" + Pad(c.month, 2) + "-" + Pad(c.day, 2);
    assert Text(c) == y + tail;
    assert |tail| == 6;
    if |y| == 4 {
      var i :| 0 <= i < 4 && y[i] == '-';
      assert Text(c)[i] == '-';
    }
  }

  lemma {:induction false} DecimalLength(n: nat, w: nat)
    requires n >= Pow10(w)
    ensures |Decimal(n)| > w
  {
    if w > 0 {
      assert n >= 10 by { PowPositive(w - 1); }
      DecimalLength(n / 10, w - 1);
    }
  }

  lemma {:induction false} PowPositive(w: nat)
    ensures Pow10(w) >= 1
  {
    if w > 0 {
      PowPositive(w - 1);
    }
  }

  lemma {:induction false} LongOrSigned(y: int)
    requires y < 0 || y > 9999
    ensures |Pad(y, 4)| > 4 || (|Pad(y, 4)| == 4 && exists i :: 0 <= i < 4 && Pad(y, 4)[i] == '-')
  {
    if y > 9999 {
      Tens();
      DecimalLength(y, 4);
    } else {
      var s := NumberText(y);
      assert s[0] == '-';
      if |s| <= 4 {
        assert Pad(y, 4)[4 - |s|] == '-';
      }
    }
  }

  lemma {:induction false} NotANumberText()
    ensures !IsYmd("0NaN-NaN-NaN")
  {
    assert |"0NaN-NaN-NaN"| == 12;
  }

  /** The text `ymdFromUtc` gives the midnight of a day. */
  function DayText(d: int): string {
    YmdFromUtc(d * DAY_MS)
  }

  /** The text of a day is usable again exactly inside the accepted years. */
  lemma {:induction false} TextUsableIff(d: int)
    ensures IsYmd(DayText(d)) <==> InRange(d)
    ensures InRange(d) ==> DayOf(DayText(d)) == d
  {
    WholeDays(d);
    CivilInverse(d);
    AcceptedIff(CivilOf(d));
    if InRange(d) {
      TextOfDay(d);
    } else {
      OutsideIsRefused(CivilOf(d));
      NotANumberText();
    }
  }

  lemma {:induction false} AddAt(ymd: string, days: int, d: int)
    requires UtcMidnightOf(ymd) == Some(d * DAY_MS)
    ensures AddDaysYmd(ymd, days) == Ok(DayText(d + days))
  {
    hide UtcMidnightOf, YmdFromUtc;
    assert d * DAY_MS + days * DAY_MS == (d + days) * DAY_MS;
  }

  lemma {:induction false} DayTextIs(d: int)
    requires InRange(d)
    ensures DayText(d) == Text(CivilOf(d))
  {
    WholeDays(d);
  }

  /** `addDaysYmd` moves the day number. */
  lemma {:induction false} AddMoves(ymd: string, days: int)
    requires IsYmd(ymd)
    ensures AddDaysYmd(ymd, days) == Ok(DayText(DayOf(ymd) + days))
  {
    MidnightOfDay(ymd);
    AddAt(ymd, days, DayOf(ymd));
  }

  /** `daysBetweenYmd` subtracts day numbers. */
  lemma {:induction false} BetweenCounts(a: string, b: string)
    ensures DaysBetweenYmd(a, b).Ok? <==> IsYmd(a) && IsYmd(b)
    ensures IsYmd(a) && IsYmd(b) ==> DaysBetweenYmd(a, b).value == DayOf(b) - DayOf(a)
  {
    if IsYmd(a) && IsYmd(b) {
      MidnightOfDay(a);
      MidnightOfDay(b);
      WholeDays(DayOf(b) - DayOf(a));
      assert DaysBetweenYmd(a, b).value == (DayOf(b) * DAY_MS - DayOf(a) * DAY_MS) / DAY_MS;
    }
  }

  /** Adding the days between two dates leads from one to the other. */
  lemma {:induction false} BetweenThenAdd(a: string, b: string)
    requires IsYmd(a) && IsYmd(b)
    ensures DaysBetweenYmd(a, b).Ok? && AddDaysYmd(a, DaysBetweenYmd(a, b).value) == Ok(b)
  {
    BetweenCounts(a, b);
    DayOfText(b);
    AddMoves(a, DaysBetweenYmd(a, b).value);
    DayTextIs(DayOf(b));
  }

  /** Counting back the days that were added gives them again, exactly when the sum is an accepted date. */
  lemma {:induction false} AddThenBetween(a: string, n: int)
    requires IsYmd(a)
    ensures AddDaysYmd(a, n).Ok?
    ensures DaysBetweenYmd(a, AddDaysYmd(a, n).value) == Ok(n) <==> InRange(DayOf(a) + n)
  {
    hide *;
    AddMoves(a, n);
    TextUsableIff(DayOf(a) + n);
    BetweenCounts(a, AddDaysYmd(a, n).value);
  }

  /** Adding m then n days is adding m + n, exactly when the day in between is an accepted date. */
  lemma {:induction false} AddAdd(a: string, m: int, n: int)
    requires IsYmd(a)
    ensures AddDaysYmd(a, m).Ok?
    ensures AddDaysYmd(AddDaysYmd(a, m).value, n) == AddDaysYmd(a, m + n) <==> InRange(DayOf(a) + m)
  {
    hide *;
    AddMoves(a, m);
    TextUsableIff(DayOf(a) + m);
    AddMoves(a, m + n);
    if InRange(DayOf(a) + m) {
      AddOn(a, m, n, AddDaysYmd(a, m).value);
    } else {
      AddRefuses(AddDaysYmd(a, m).value, n);
    }
  }

  lemma {:induction false} AddRefuses(ymd: string, n: int)
    requires !IsYmd(ymd)
    ensures AddDaysYmd(ymd, n).RangeError?
  {
  }

  lemma {:induction false} AddOn(a: string, m: int, n: int, b: string)
    requires IsYmd(a) && IsYmd(b) && DayOf(b) == DayOf(a) + m
    ensures AddDaysYmd(b, n) == AddDaysYmd(a, m + n)
  {
    hide *;
    AddMoves(b, n);
    AddMoves(a, m + n);
  }

  // ---------------------------------------------------------------- order

  /** String comparison by code units. */
  predicate TextBefore(s: string, t: string) {
    if s == [] then t != []
    else t != [] && (s[0] < t[0] || (s[0] == t[0] && TextBefore(s[1..], t[1..])))
  }

  lemma {:induction false} BeforeConcat(p: string, q: string, r: string, s: string)
    requires |p| == |q|
    ensures TextBefore(p + r, q + s) <==> TextBefore(p, q) || (p == q && TextBefore(r, s))
  {
    if p == [] {
      assert p + r == r && q + s == s;
    } else {
      assert (p + r)[1..] == p[1..] + r && (q + s)[1..] == q[1..] + s;
      BeforeConcat(p[1..], q[1..], r, s);
      assert p == q <==> p[0] == q[0] && p[1..] == q[1..] by {
        assert p == [p[0]] + p[1..] && q == [q[0]] + q[1..];
      }
    }
  }

  lemma {:induction false} FixedOrder(a: nat, b: nat, w: nat)
    requires a < Pow10(w) && b < Pow10(w)
    ensures TextBefore(Fixed(a, w), Fixed(b, w)) <==> a < b
    ensures Fixed(a, w) == Fixed(b, w) <==> a == b
  {
    ValueOfFixed(a, w);
    ValueOfFixed(b, w);
    if w > 0 {
      FixedOrder(a / 10, b / 10, w - 1);
      var x, y := [DigitOf(a % 10)], [DigitOf(b % 10)];
      BeforeConcat(Fixed(a / 10, w - 1), Fixed(b / 10, w - 1), x, y);
      assert TextBefore(x, y) <==> a % 10 < b % 10;
    }
  }

  /** Texts made of three fields of fixed width compare field by field. */
  lemma {:induction false} FieldsOrder(ya: string, yb: string, ma: string, mb: string, da: string, db: string)
    requires |ya| == |yb| && |ma| == |mb|
    ensures TextBefore(ya + ("-" + (ma + ("-" + da))), yb + ("-" + (mb + ("-" + db))))
       <==> TextBefore(ya, yb) || (ya == yb && (TextBefore(ma, mb) || (ma == mb && TextBefore(da, db))))
  {
    BeforeConcat(ya, yb, "-" + (ma + ("-" + da)), "-" + (mb + ("-" + db)));
    BeforeConcat("-", "-", ma + ("-" + da), mb + ("-" + db));
    BeforeConcat(ma, mb, "-" + da, "-" + db);
    BeforeConcat("-", "-", da, db);
    assert !TextBefore("-", "-");
  }

  /** 'YYYY-MM-DD' texts compare as strings in calendar order. */
  lemma {:induction false} TextOrder(a: Civil, b: Civil)
    requires Real(a) && 0 <= a.year <= 9999 && Real(b) && 0 <= b.year <= 9999
    ensures TextBefore(Text(a), Text(b)) <==> DayNumber(a) < DayNumber(b)
  {
    hide TextBefore, Fixed, DayNumber, Pow10;
    TextFields(a);
    TextFields(b);
    Tens();
    DaysAreShort(a);
    DaysAreShort(b);
    FixedOrder(a.year, b.year, 4);
    FixedOrder(a.month, b.month, 2);
    FixedOrder(a.day, b.day, 2);
    FieldsOrder(Fixed(a.year, 4), Fixed(b.year, 4), Fixed(a.month, 2), Fixed(b.month, 2), Fixed(a.day, 2),
      Fixed(b.day, 2));
    EarlierIff(a, b);
  }

  lemma {:induction false} TextFields(c: Civil)
    requires Real(c) && 0 <= c.year <= 9999
    ensures Text(c) == Fixed(c.year, 4) + ("-" + (Fixed(c.month, 2) + ("-" + Fixed(c.day, 2))))
  {
    hide Pad, Fixed, Pow10;
    Tens();
    DaysAreShort(c);
    PadIsFixed(c.year, 4);
    PadIsFixed(c.month, 2);
    PadIsFixed(c.day, 2);
    var y, m, d := Fixed(c.year, 4), Fixed(c.month, 2), Fixed(c.day, 2);
    assert y + "-" + m + "-" + d == y + ("-" + (m + ("-" + d)));
  }
}
