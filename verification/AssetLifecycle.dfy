/**
 Calendar dates of assets (packages/shared/src/assets.ts): ISO text, adding months with the
 day clamped to the target month, and the retirement state an asset is in.
 */
module AssetLifecycle {
  import opened Calendar
  import opened Options
  import opened Text

  // ----- ISO text -----

  predicate IsDigit(c: char) {
    '0' <= c <= '9'
  }

  function DigitValue(c: char): (d: int)
    requires IsDigit(c)
    ensures 0 <= d <= 9
  {
    c as int - '0' as int
  }

  function DigitChar(d: int): (c: char)
    requires 0 <= d <= 9
    ensures IsDigit(c) && DigitValue(c) == d
  {
    ('0' as int + d) as char
  }

  /** The last `width` decimal digits of `n`. */
  function Padded(n: nat, width: nat): (s: string)
    ensures |s| == width && forall i :: 0 <= i < width ==> IsDigit(s[i])
  {
    if width == 0 then "" else Padded(n / 10, width - 1) + [DigitChar(n % 10)]
  }

  function Number(s: string): (n: nat)
    requires forall i :: 0 <= i < |s| ==> IsDigit(s[i])
  {
    if s == "" then 0 else 10 * Number(s[..|s| - 1]) + DigitValue(s[|s| - 1])
  }

  function Pow10(k: nat): nat {
    if k == 0 then 1 else 10 * Pow10(k - 1)
  }

  lemma {:induction false} NumberOfPadded(n: nat, width: nat)
    requires n < Pow10(width)
    ensures Number(Padded(n, width)) == n
  {
    if width > 0 {
      NumberOfPadded(n / 10, width - 1);
      assert Padded(n, width)[..width - 1] == Padded(n / 10, width - 1);
    }
  }

  lemma DigitSplit(n: nat, c: char)
    requires IsDigit(c)
    ensures (10 * n + DigitValue(c)) / 10 == n && DigitChar((10 * n + DigitValue(c)) % 10) == c
  {
  }

  lemma {:induction false} PaddedOfNumber(s: string)
    requires forall i :: 0 <= i < |s| ==> IsDigit(s[i])
    ensures Number(s) < Pow10(|s|) && Padded(Number(s), |s|) == s
  {
    if s != "" {
      var init, last := s[..|s| - 1], s[|s| - 1];
      PaddedOfNumber(init);
      DigitSplit(Number(init), last);
      assert s == init + [last];
      assert Pow10(|s|) == 10 * Pow10(|init|);
    }
  }

  predicate LooksIso(s: string) {
    |s| == 10 && s[4] == '-' && s[7] == '-'
    && (forall i :: 0 <= i < 10 && i != 4 && i != 7 ==> IsDigit(s[i]))
  }

  /** `Date.UTC` with any month number; months overflow into years after the two-digit-year rule. */
  function DateUtcOverflow(y: int, m: int, d: int): int {
    DaysFromCivil(FullYear(y) + (m - 1) / 12, (m - 1) % 12 + 1, d) * MS_PER_DAY
  }

  /** The instant of a date's fields; None when the calendar moves them elsewhere. */
  function DateFromFields(c: Civil): Option<int> {
    var date := DateUtcOverflow(c.year, c.month, c.day);
    if CivilFromDays(DayNumber(date)) != c then None else Some(date)
  }

  function IsoFields(s: string): Civil
    requires LooksIso(s)
  {
    Civil(Number(s[..4]), Number(s[5..7]), Number(s[8..]))
  }

  function ParseIsoDate(value: string): Option<int> {
    var s := Trim(value);
    if !LooksIso(s) then None else DateFromFields(IsoFields(s))
  }

  function UtcDayStart(t: int): int {
    var c := CivilFromDays(DayNumber(t));
    DateUtc(c.year, c.month, c.day, 0, 0, 0)
  }

  /** Years outside 0 to 9999 are written with a sign and six digits. */
  function IsoYear(y: int): string {
    if 0 <= y <= 9999 then Padded(y, 4) else if y < 0 then "-" + Padded(-y, 6) else "+" + Padded(y, 6)
  }

  function IsoText(c: Civil): string
    requires ValidCivil(c)
  {
    IsoYear(c.year) + "-" + Padded(c.month, 2) + "-" + Padded(c.day, 2)
  }

  function FormatIsoDate(t: int): string {
    IsoText(CivilFromDays(DayNumber(UtcDayStart(t))))[..10]
  }

  lemma DayInstant(day: int)
    ensures DayNumber(day * MS_PER_DAY) == day && TimeInDay(day * MS_PER_DAY) == 0
  {
  }

  function InstantOf(c: Civil): int
    requires ValidCivil(c)
  {
    DaysFromCivil(c.year, c.month, c.day) * MS_PER_DAY
  }

  lemma DayStartOf(c: Civil)
    requires ValidCivil(c) && c.year >= 100
    ensures UtcDayStart(InstantOf(c)) == InstantOf(c)
    ensures CivilFromDays(DayNumber(InstantOf(c))) == c
  {
    CivilRoundTrip(c);
    DayInstant(DaysFromCivil(c.year, c.month, c.day));
  }

  lemma FormattedDate(c: Civil)
    requires ValidCivil(c) && c.year >= 100
    ensures FormatIsoDate(InstantOf(c)) == IsoText(c)[..10]
  {
    DayStartOf(c);
  }

  predicate AllDigits(s: string) {
    forall i :: 0 <= i < |s| ==> IsDigit(s[i])
  }

  /** Four, two and two digits around dashes: looks like a date, is trimmed, and falls apart again. */
  lemma DashedDigits(y: string, m: string, d: string)
    requires |y| == 4 && |m| == 2 && |d| == 2 && AllDigits(y) && AllDigits(m) && AllDigits(d)
    ensures var s := y + "-" + m + "-" + d;
            && |s| == 10 && s[..4] == y && s[5..7] == m && s[8..] == d && s[..10] == s
            && LooksIso(s) && Trimmed(s)
  {
    var s := y + "-" + m + "-" + d;
    assert s[..4] == y && s[5..7] == m && s[8..] == d;
    assert s[4] == '-' && s[7] == '-';
    forall i | 0 <= i < 10 && i != 4 && i != 7 ensures IsDigit(s[i]) {
      assert s[i] == if i < 4 then y[i] else if i < 7 then m[i - 5] else d[i - 8];
    }
    assert IsDigit(s[0]) && IsDigit(s[9]);
  }

  lemma FieldsOfText(c: Civil)
    requires ValidCivil(c) && 0 <= c.year <= 9999
    ensures LooksIso(IsoText(c)) && Trim(IsoText(c)) == IsoText(c)
    ensures IsoFields(IsoText(c)) == c && IsoText(c)[..10] == IsoText(c)
  {
    FourDigits();
    hide Number, Pow10, Padded, LooksIso, Trim, Trimmed, DaysInMonth;
    DashedDigits(Padded(c.year, 4), Padded(c.month, 2), Padded(c.day, 2));
    ShortMonth(c);
    NumberOfPadded(c.year, 4);
    NumberOfPadded(c.month, 2);
    NumberOfPadded(c.day, 2);
    TrimIsTrimmed(IsoText(c));
  }

  lemma ShortMonth(c: Civil)
    requires ValidCivil(c)
    ensures c.day <= 31
  {
  }

  lemma TextOfFields(s: string)
    requires LooksIso(s)
    ensures var c := IsoFields(s);
            && 0 <= c.year <= 9999 && c.month >= 0 && c.day >= 0
            && (ValidCivil(c) ==> IsoText(c) == s)
  {
    hide Number, Padded, Pow10;
    PaddedOfNumber(s[..4]);
    PaddedOfNumber(s[5..7]);
    PaddedOfNumber(s[8..]);
    FourDigits();
    assert s == s[..4] + "-" + s[5..7] + "-" + s[8..];
  }

  lemma FourDigits()
    ensures Pow10(2) == 100 && Pow10(4) == 10000
  {
    assert Pow10(1) == 10;
    assert Pow10(3) == 10 * Pow10(2);
  }

  lemma PlainMonth(y: int, m: int, d: int)
    requires 1 <= m <= 12
    ensures DateUtcOverflow(y, m, d) == DaysFromCivil(FullYear(y), m, d) * MS_PER_DAY
  {
    assert (m - 1) / 12 == 0 && (m - 1) % 12 + 1 == m;
  }

  lemma DateOfFields(c: Civil)
    requires ValidCivil(c) && c.year >= 100
    ensures DateFromFields(c) == Some(InstantOf(c))
  {
    PlainMonth(c.year, c.month, c.day);
    DayStartOf(c);
  }

  /** Fields the calendar accepts are a valid date, and two-digit years are never accepted. */
  lemma AcceptedFields(c: Civil)
    requires c.year >= 0 && DateFromFields(c).Some?
    ensures ValidCivil(c) && c.year >= 100
  {
    hide DateUtcOverflow, DaysFromCivil, DayNumber;
    assert CivilFromDays(DayNumber(DateUtcOverflow(c.year, c.month, c.day))) == c && ValidCivil(c);
    if c.year < 100 {
      PlainMonth(c.year, c.month, c.day);
      YearIsCarried(DateUtcOverflow(c.year, c.month, c.day), c);
      TwoDigitShift(c);
      assert false;
    }
  }

  lemma TwoDigitShift(c: Civil)
    requires 1 <= c.month <= 12 && 0 <= c.year < 100
    ensures DaysFromCivil(c.year, c.month, c.day) < DaysFromCivil(FullYear(c.year), c.month, c.day)
  {
    hide DayFromYear, IsLeap;
    YearsAscend(c.year, FullYear(c.year));
    MonthTable(c.year);
    MonthTable(FullYear(c.year));
  }

  lemma YearIsCarried(date: int, c: Civil)
    requires ValidCivil(c) && date == DaysFromCivil(FullYear(c.year), c.month, c.day) * MS_PER_DAY
    requires CivilFromDays(DayNumber(date)) == c
    ensures DaysFromCivil(c.year, c.month, c.day) == DaysFromCivil(FullYear(c.year), c.month, c.day)
  {
    hide DayNumber;
    DayInstant(DaysFromCivil(FullYear(c.year), c.month, c.day));
  }

  /** Reading a written date gives the same date back, for the years 100 to 9999. */
  lemma FormatThenParse(c: Civil)
    requires ValidCivil(c) && 100 <= c.year <= 9999
    ensures ParseIsoDate(FormatIsoDate(InstantOf(c))) == Some(InstantOf(c))
  {
    hide FormatIsoDate, InstantOf, IsoText, LooksIso, Trim, DateFromFields, IsoFields;
    FormattedDate(c);
    FieldsOfText(c);
    DateOfFields(c);
  }

  /** Text that reads as a date is exactly that date's own text, and its year is at least 100. */
  lemma ParseThenFormat(value: string)
    requires ParseIsoDate(value).Some?
    ensures var t := ParseIsoDate(value).value;
            var c := CivilFromDays(DayNumber(t));
            && t == InstantOf(c) && 100 <= c.year <= 9999 && FormatIsoDate(t) == Trim(value)
  {
    hide CivilFromDays, FormatIsoDate, InstantOf, IsoText, LooksIso, Trim, DateFromFields, IsoFields, DayNumber;
    var s := Trim(value);
    var c := IsoFields(s);
    TextOfFields(s);
    AcceptedFields(c);
    DateOfFields(c);
    DayStartOf(c);
    FieldsOfText(c);
    FormattedDate(c);
  }

  // ----- adding months -----

  /** Months since year 0, for counting whole months between dates. */
  function MonthIndex(c: Civil): int {
    12 * c.year + c.month - 1
  }

  function PlusMonths(c: Civil, k: nat): (r: Civil)
    requires ValidCivil(c)
    ensures ValidCivil(r)
  {
    var total := c.month - 1 + k;
    var y, m := c.year + total / 12, total % 12 + 1;
    var last := DaysInMonth(y, m);
    Civil(y, m, if c.day < last then c.day else last)
  }

  /** A result, or the RangeError thrown for a date beyond what ECMAScript can hold. */
  datatype Outcome<+T> = Value(value: T) | RangeError

  /** The last instant of ECMAScript's dates, and the last month that ends before it. */
  const MAX_TIME: int := 8640000000000000
  const LAST_MONTH: int := 12 * 275760 + 7

  function AddMonthsToIsoDate(isoDate: string, months: real): Outcome<Option<string>> {
    match ParseIsoDate(isoDate)
    case None => Value(None)
    case Some(start) =>
      if months <= 0.0 then Value(None)
      else
        var c := CivilFromDays(DayNumber(start));
        var totalMonths := c.month - 1 + months.Floor;
        var targetYear := c.year + totalMonths / 12;
        var targetMonth := (totalMonths % 12 + 12) % 12;
        // Day 0 of the following month is the last day of the target month.
        var monthEnd := DateUtcOverflow(targetYear, targetMonth + 2, 0);
        if monthEnd > MAX_TIME then RangeError
        else
          var lastDay := CivilFromDays(DayNumber(monthEnd)).day;
          var targetDay := if c.day < lastDay then c.day else lastDay;
          Value(Some(FormatIsoDate(DateUtc(targetYear, targetMonth + 1, targetDay, 0, 0, 0))))
  }

  /** A month ends within ECMAScript's dates exactly up to August 275760. */
  lemma MonthEndsInRange(y: int, m: int)
    requires 1 <= m <= 12
    ensures DaysFromCivil(y, m, DaysInMonth(y, m)) * MS_PER_DAY <= MAX_TIME <==> 12 * y + m - 1 <= LAST_MONTH
  {
    LastMonthEnds();
    LastDayValid(y, m);
    hide DaysFromCivil, DaysInMonth, IsLeap;
    var end, last := Civil(y, m, DaysInMonth(y, m)), Civil(275760, 8, 31);
    CivilOrder(last, end);
    CivilOrder(Civil(275760, 9, 29), end);
  }

  lemma LastMonthEnds()
    ensures ValidCivil(Civil(275760, 8, 31)) && DaysFromCivil(275760, 8, 31) == 100000000 - 13
    ensures ValidCivil(Civil(275760, 9, 29)) && DaysFromCivil(275760, 9, 29) == 100000000 + 16
    ensures DaysInMonth(275760, 8) == 31 && DaysInMonth(275760, 9) == 30
  {
    MonthTable(275760);
  }

  lemma LastDayOfMonth(y: int, m: int)
    requires 1 <= m <= 12 && y >= 100
    ensures CivilFromDays(DayNumber(DateUtcOverflow(y, m + 1, 0))) == Civil(y, m, DaysInMonth(y, m))
  {
    hide CivilFromDays, DayNumber, DaysFromCivil, DaysInMonth, DateUtcOverflow, IsLeap;
    DayZeroIsLastDay(y, m);
    LastDayValid(y, m);
    CivilRoundTrip(Civil(y, m, DaysInMonth(y, m)));
    DayInstant(DaysFromCivil(y, m, DaysInMonth(y, m)));
  }

  lemma LastDayValid(y: int, m: int)
    requires 1 <= m <= 12
    ensures ValidCivil(Civil(y, m, DaysInMonth(y, m)))
  {
  }

  lemma DayZeroIsLastDay(y: int, m: int)
    requires 1 <= m <= 12 && y >= 100
    ensures DateUtcOverflow(y, m + 1, 0) == DaysFromCivil(y, m, DaysInMonth(y, m)) * MS_PER_DAY
  {
    if m == 12 {
      DecemberEnds(y);
    } else {
      hide DayFromYear, IsLeap, DaysInMonth;
      assert m / 12 == 0 && m % 12 + 1 == m + 1;
      assert DaysFromCivil(y, m + 1, 0) == DaysFromCivil(y, m, DaysInMonth(y, m));
    }
  }

  lemma DecemberEnds(y: int)
    ensures DaysFromCivil(y + 1, 1, 0) == DaysFromCivil(y, 12, 31)
  {
    hide DayFromYear, IsLeap;
    YearLength(y);
    MonthTable(y);
  }

  lemma MonthWraps(y: int, total: int)
    requires total >= 0
    ensures 0 <= total % 12 < 12 && (total % 12 + 12) % 12 == total % 12 && y + total / 12 >= y
  {
  }

  lemma MidnightOf(c: Civil)
    requires ValidCivil(c) && c.year >= 100
    ensures DateUtc(c.year, c.month, c.day, 0, 0, 0) == InstantOf(c)
  {
  }

  /** Adding months on the text is adding whole months on the date. */
  lemma AddMonthsIsPlusMonths(isoDate: string, months: real)
    requires ParseIsoDate(isoDate).Some? && months > 0.0
    ensures var c := CivilFromDays(DayNumber(ParseIsoDate(isoDate).value));
            && months.Floor >= 0
            && PlusMonths(c, months.Floor).year >= 100
            && AddMonthsToIsoDate(isoDate, months)
               == if MonthIndex(PlusMonths(c, months.Floor)) > LAST_MONTH then RangeError
                  else Value(Some(FormatIsoDate(InstantOf(PlusMonths(c, months.Floor)))))
  {
    hide ParseIsoDate, FormatIsoDate, CivilFromDays, DayNumber, DateUtcOverflow, DaysInMonth, InstantOf, DateUtc,
      IsLeap;
    ParseThenFormat(isoDate);
    var c := CivilFromDays(DayNumber(ParseIsoDate(isoDate).value));
    var total := c.month - 1 + months.Floor;
    MonthWraps(c.year, total);
    LastDayOfMonth(c.year + total / 12, total % 12 + 1);
    DayZeroIsLastDay(c.year + total / 12, total % 12 + 1);
    MonthEndsInRange(c.year + total / 12, total % 12 + 1);
    MidnightOf(PlusMonths(c, months.Floor));
  }

  /**
   The result lies exactly the asked number of whole months later, on the same day of the month
   or on the month's last day when that day does not exist; it reads back as a date exactly
   while its year has four digits, and there is none exactly beyond August 275760.
   */
  lemma AddMonthsLands(isoDate: string, months: real)
    requires ParseIsoDate(isoDate).Some? && months > 0.0
    ensures var c := CivilFromDays(DayNumber(ParseIsoDate(isoDate).value));
            var r := PlusMonths(c, months.Floor);
            && (AddMonthsToIsoDate(isoDate, months) == RangeError <==> MonthIndex(c) + months.Floor > LAST_MONTH)
            && MonthIndex(r) == MonthIndex(c) + months.Floor
            && (r.day == c.day || (r.day < c.day && r.day == DaysInMonth(r.year, r.month)))
            && (AddMonthsToIsoDate(isoDate, months).Value? ==>
                  && AddMonthsToIsoDate(isoDate, months).value.Some?
                  && ParseIsoDate(AddMonthsToIsoDate(isoDate, months).value.value)
                     == if r.year <= 9999 then Some(InstantOf(r)) else None)
  {
    hide ParseIsoDate, AddMonthsToIsoDate, CivilFromDays, DayNumber, InstantOf, FormatIsoDate, PlusMonths;
    AddMonthsIsPlusMonths(isoDate, months);
    var c := CivilFromDays(DayNumber(ParseIsoDate(isoDate).value));
    var r := PlusMonths(c, months.Floor);
    MonthsCounted(c, months.Floor);
    if r.year <= 9999 {
      FormatThenParse(r);
    } else {
      LongYearIsNoDate(r);
    }
  }

  /** There is nothing to add to a text that is no date, nor nothing or less to any. */
  lemma NothingAddedIff(isoDate: string, months: real)
    ensures AddMonthsToIsoDate(isoDate, months) == Value(None) <==> ParseIsoDate(isoDate) == None || months <= 0.0
  {
    hide ParseIsoDate, FormatIsoDate, CivilFromDays, DateUtcOverflow;
  }

  /** One month after the last day of the year 9999 there is a text, but no date. */
  lemma TheYearTenThousandIsUnreadable()
    ensures var added := AddMonthsToIsoDate("9999-12-31", 1.0);
            added.Value? && added.value.Some? && ParseIsoDate(added.value.value) == None
  {
    var c := Civil(9999, 12, 31);
    LastText();
    FormatThenParse(c);
    FormattedDate(c);
    DayStartOf(c);
    hide ParseIsoDate, AddMonthsToIsoDate, CivilFromDays, DayNumber, InstantOf, FormatIsoDate;
    assert ParseIsoDate("9999-12-31") == Some(InstantOf(c));
    AddMonthsLands("9999-12-31", 1.0);
    assert PlusMonths(c, 1).year == 10000;
  }

  lemma LastText()
    ensures IsoText(Civil(9999, 12, 31)) == "9999-12-31" == "9999-12-31"[..10]
  {
    PaddedTwo(12);
    PaddedTwo(31);
    PaddedTwo(99);
    assert Padded(9999, 4) == Padded(999, 3) + [DigitChar(9)];
    assert Padded(999, 3) == Padded(99, 2) + [DigitChar(9)];
  }

  lemma PaddedTwo(n: nat)
    requires n < 100
    ensures Padded(n, 2) == [DigitChar(n / 10), DigitChar(n % 10)]
  {
    var tens := n / 10;
    assert tens / 10 == 0 && tens % 10 == tens;
    assert Padded(tens, 1) == Padded(tens / 10, 0) + [DigitChar(tens % 10)] == [DigitChar(tens)];
  }

  lemma MonthsCounted(c: Civil, k: nat)
    requires ValidCivil(c)
    ensures MonthIndex(PlusMonths(c, k)) == MonthIndex(c) + k
    ensures var r := PlusMonths(c, k);
            r.day == c.day || (r.day < c.day && r.day == DaysInMonth(r.year, r.month))
  {
  }

  lemma LongYearIsNoDate(c: Civil)
    requires ValidCivil(c) && c.year > 9999
    ensures ParseIsoDate(FormatIsoDate(InstantOf(c))) == None
  {
    FormattedDate(c);
    hide FormatIsoDate, CivilFromDays, InstantOf;
    var s := IsoText(c)[..10];
    assert s[0] == '+' && |s| == 10;
    TrimKeepsHead(s);
  }

  /** What it is instead: a sign, six digits and the month, cut off at ten characters. */
  lemma LongYearText(c: Civil)
    requires ValidCivil(c) && 9999 < c.year < 1000000
    ensures FormatIsoDate(InstantOf(c)) == "+" + Padded(c.year, 6) + "-" + Padded(c.month, 2)
  {
    FormattedDate(c);
    hide FormatIsoDate, InstantOf, Padded;
    var head := "+" + Padded(c.year, 6) + "-" + Padded(c.month, 2);
    assert IsoText(c) == head + ("-" + Padded(c.day, 2));
    assert |head| == 10;
  }

  lemma TrimKeepsHead(s: string)
    requires |s| > 0 && !IsSpace(s[0])
    ensures Trim(s) != "" ==> Trim(s)[0] == s[0]
  {
    TrimEndResult(s);
  }

  function NotAfter(a: Civil, b: Civil): bool {
    a == b || CivilBefore(a, b)
  }

  /** A later start or more months never lands earlier. */
  lemma PlusMonthsMonotone(a: Civil, b: Civil, k: nat, l: nat)
    requires ValidCivil(a) && ValidCivil(b) && NotAfter(a, b) && k <= l
    ensures NotAfter(PlusMonths(a, k), PlusMonths(b, l))
  {
    MonthsCounted(a, k);
    MonthsCounted(b, l);
    var ra, rb := PlusMonths(a, k), PlusMonths(b, l);
    assert MonthIndex(ra) <= MonthIndex(rb);
    if MonthIndex(ra) == MonthIndex(rb) {
      assert ra.year == rb.year && ra.month == rb.month;
      assert MonthIndex(a) == MonthIndex(b);
      assert a.day <= b.day;
    }
  }

  // ----- retirement state -----

  datatype Lifecycle = NoDate | InService | Due | Retired

  datatype Source = FromAsset | FromModel | Computed | Absent

  datatype AssetInput = AssetInput(purchaseDate: Option<string>, modelDefaultPurchaseDate: Option<string>,
                                   retireAfterMonths: Option<real>, modelRetireAfterMonths: Option<real>,
                                   retireOn: Option<string>, statusRetired: bool, statusDisposed: bool)

  datatype Resolved = Resolved(retireOn: Option<string>, retireOnSource: Source, state: Lifecycle, showRetired: bool)

  /** A text the source treats as set: present and not empty. */
  predicate Given(s: Option<string>) {
    s.Some? && s.value != ""
  }

  function RetireOn(a: AssetInput): Outcome<(Option<string>, Source)> {
    var purchase := if Given(a.purchaseDate) then a.purchaseDate
                    else if Given(a.modelDefaultPurchaseDate) then a.modelDefaultPurchaseDate else None;
    var months := if a.retireAfterMonths.Some? then a.retireAfterMonths else a.modelRetireAfterMonths;
    if Given(a.retireOn) then Value((a.retireOn, FromAsset))
    else if purchase.Some? && months.Some? then
      match AddMonthsToIsoDate(purchase.value, months.value)
      case RangeError => RangeError
      case Value(on) => Value((on, if on.Some? then Computed else Absent))
    else Value((None, Absent))
  }

  function DateState(retireOn: Option<string>, now: int, dueDays: int): Lifecycle {
    if retireOn.None? then NoDate
    else
      match ParseIsoDate(retireOn.value)
      case None => NoDate
      case Some(end) =>
        var today := UtcDayStart(now);
        if end <= today then Retired
        else if end <= today + dueDays * MS_PER_DAY then Due else InService
  }

  function ResolveAssetLifecycle(a: AssetInput, now: int, dueDays: int): Outcome<Resolved> {
    match RetireOn(a)
    case RangeError => RangeError
    case Value((retireOn, source)) =>
      var state := DateState(retireOn, now, dueDays);
      Value(Resolved(retireOn, source, if a.statusRetired && state != Retired then Retired else state,
                     a.statusRetired || a.statusDisposed || state == Retired))
  }

  function Rank(s: Lifecycle): nat {
    match s
    case NoDate => 0
    case InService => 1
    case Due => 2
    case Retired => 3
  }

  lemma DayStartMonotone(t: int, u: int)
    requires YEAR_100 <= t <= u
    ensures UtcDayStart(t) <= UtcDayStart(u) <= u
    ensures UtcDayStart(t) == DayNumber(t) * MS_PER_DAY
  {
    hide UtcDayStart;
    DayStartIs(t);
    DayStartIs(u);
  }

  lemma DayStartIs(t: int)
    requires t >= YEAR_100
    ensures UtcDayStart(t) == DayNumber(t) * MS_PER_DAY
  {
    DayStartAtLeast100(t);
    YearAtLeast100(DayNumber(t));
  }

  /**
   As time passes an asset's state only moves forward, a state without a date stays so, and
   once shown as retired an asset stays shown.
   */
  lemma StateNeverMovesBack(a: AssetInput, now: int, later: int, dueDays: int)
    requires YEAR_100 <= now <= later
    ensures var first, second := ResolveAssetLifecycle(a, now, dueDays), ResolveAssetLifecycle(a, later, dueDays);
            first == RangeError <==> second == RangeError
    ensures ResolveAssetLifecycle(a, now, dueDays).Value? ==>
            var s, t := ResolveAssetLifecycle(a, now, dueDays).value, ResolveAssetLifecycle(a, later, dueDays).value;
            && Rank(s.state) <= Rank(t.state)
            && (s.state == NoDate <==> t.state == NoDate)
            && (s.showRetired ==> t.showRetired)
            && s.retireOn == t.retireOn
  {
    hide ParseIsoDate, UtcDayStart, RetireOn;
    DayStartMonotone(now, later);
  }

  /**
   With a retirement date the state is read off whole UTC days: retired from the day itself,
   due for the `dueDays` before it.
   */
  lemma StateByDays(a: AssetInput, c: Civil, now: int, dueDays: nat)
    requires ValidCivil(c) && 100 <= c.year <= 9999 && now >= YEAR_100
    requires a.retireOn == Some(IsoText(c)) && !a.statusRetired
    ensures var daysLeft := DaysFromCivil(c.year, c.month, c.day) - DayNumber(now);
            && ResolveAssetLifecycle(a, now, dueDays).Value?
            && ResolveAssetLifecycle(a, now, dueDays).value.state
               == if daysLeft <= 0 then Retired else if daysLeft <= dueDays then Due else InService
  {
    hide ParseIsoDate, FormatIsoDate, IsoText, UtcDayStart, DayNumber, DaysFromCivil, AddMonthsToIsoDate;
    FormattedDate(c);
    FieldsOfText(c);
    FormatThenParse(c);
    DayStartIs(now);
    GivenText(c);
  }

  /** A text that is missing or empty. */
  predicate Missing(s: Option<string>) {
    s == None || s == Some("")
  }

  /** The asset's own value goes before its model's; an empty text counts as none. */
  predicate FirstGiven(own: Option<string>, model: Option<string>, value: string) {
    value != "" && (own == Some(value) || (Missing(own) && model == Some(value)))
  }

  /** An asset's own date stands; else one is computed when a purchase date and a life time are known. */
  lemma RetireOnIs(a: AssetInput, purchase: string, months: real)
    ensures !Missing(a.retireOn) ==> RetireOn(a) == Value((a.retireOn, FromAsset))
    ensures Missing(a.retireOn) && Missing(a.purchaseDate) && Missing(a.modelDefaultPurchaseDate) ==>
              RetireOn(a) == Value((None, Absent))
    ensures Missing(a.retireOn) && a.retireAfterMonths == None && a.modelRetireAfterMonths == None ==>
              RetireOn(a) == Value((None, Absent))
    ensures && Missing(a.retireOn) && FirstGiven(a.purchaseDate, a.modelDefaultPurchaseDate, purchase)
            && (a.retireAfterMonths == Some(months)
                || (a.retireAfterMonths == None && a.modelRetireAfterMonths == Some(months))) ==>
              && (AddMonthsToIsoDate(purchase, months) == RangeError <==> RetireOn(a) == RangeError)
              && (AddMonthsToIsoDate(purchase, months) == Value(None) ==> RetireOn(a) == Value((None, Absent)))
              && forall on :: AddMonthsToIsoDate(purchase, months) == Value(Some(on)) ==>
                   RetireOn(a) == Value((Some(on), Computed))
  {
    hide AddMonthsToIsoDate;
  }

  /** What is shown follows from the date's state: a retired status shows as retired, a disposed one as gone. */
  lemma ShownAs(a: AssetInput, now: int, dueDays: int)
    ensures ResolveAssetLifecycle(a, now, dueDays) == RangeError <==> RetireOn(a) == RangeError
    ensures RetireOn(a).Value? ==>
              var resolved := ResolveAssetLifecycle(a, now, dueDays).value;
              var byDate := DateState(RetireOn(a).value.0, now, dueDays);
              && (resolved.retireOn, resolved.retireOnSource) == RetireOn(a).value
              && resolved.state == (if a.statusRetired then Retired else byDate)
              && (resolved.showRetired <==> a.statusRetired || a.statusDisposed || byDate == Retired)
  {
    hide RetireOn, DateState;
  }

  /** The state of a date text: none when it is not a date, and otherwise by whole UTC days. */
  lemma DateStateIs(text: Option<string>, now: int, dueDays: nat)
    requires now >= YEAR_100
    ensures text == None || ParseIsoDate(text.value) == None ==> DateState(text, now, dueDays) == NoDate
    ensures text != None && ParseIsoDate(text.value) != None ==>
              var daysLeft := DayNumber(ParseIsoDate(text.value).value) - DayNumber(now);
              DateState(text, now, dueDays)
              == if daysLeft <= 0 then Retired else if daysLeft <= dueDays then Due else InService
  {
    DateStateByInstants(text, now, dueDays);
    DayStartIs(now);
    hide *;
    if text != None && ParseIsoDate(text.value) != None {
      ParsedWholeDay(text.value);
      WholeDays(DayNumber(ParseIsoDate(text.value).value), DayNumber(now), dueDays);
    }
  }

  lemma DateStateByInstants(text: Option<string>, now: int, dueDays: int)
    ensures text == None || ParseIsoDate(text.value) == None ==> DateState(text, now, dueDays) == NoDate
    ensures text != None && ParseIsoDate(text.value) != None ==>
              var end, today := ParseIsoDate(text.value).value, UtcDayStart(now);
              DateState(text, now, dueDays)
              == if end <= today then Retired else if end <= today + dueDays * MS_PER_DAY then Due else InService
  {
    hide ParseIsoDate, UtcDayStart;
  }

  lemma ParsedWholeDay(value: string)
    requires ParseIsoDate(value).Some?
    ensures ParseIsoDate(value).value == DayNumber(ParseIsoDate(value).value) * MS_PER_DAY
  {
    hide ParseIsoDate, FormatIsoDate, CivilFromDays, DayNumber;
    ParseThenFormat(value);
    InstantDay(CivilFromDays(DayNumber(ParseIsoDate(value).value)));
  }

  lemma WholeDays(end: int, today: int, dueDays: int)
    ensures end * MS_PER_DAY <= today * MS_PER_DAY <==> end - today <= 0
    ensures end * MS_PER_DAY <= today * MS_PER_DAY + dueDays * MS_PER_DAY <==> end - today <= dueDays
  {
  }

  /**
   An asset without a date of its own, bought on `start` and kept for so many months: due on the
   day that many whole months later, whichever of asset and model says so.
   */
  lemma ComputedRetirement(a: AssetInput, start: Civil, months: real, now: int, dueDays: nat)
    requires ValidCivil(start) && 100 <= start.year && months > 0.0 && now >= YEAR_100
    requires PlusMonths(start, months.Floor).year <= 9999 && start.year <= 9999
    requires Missing(a.retireOn) && FirstGiven(a.purchaseDate, a.modelDefaultPurchaseDate, IsoText(start))
    requires a.retireAfterMonths == Some(months)
             || (a.retireAfterMonths == None && a.modelRetireAfterMonths == Some(months))
    ensures var end := PlusMonths(start, months.Floor);
            var daysLeft := DaysFromCivil(end.year, end.month, end.day) - DayNumber(now);
            var resolved := ResolveAssetLifecycle(a, now, dueDays);
            && resolved.Value?
            && resolved.value.retireOn == Some(IsoText(end)) && resolved.value.retireOnSource == Computed
            && resolved.value.state
               == (if a.statusRetired || daysLeft <= 0 then Retired else if daysLeft <= dueDays then Due else InService)
  {
    var end := PlusMonths(start, months.Floor);
    hide *;
    ComputedText(start, months);
    RetireOnIs(a, IsoText(start), months);
    ShownAs(a, now, dueDays);
    ReadText(end);
    DateStateIs(Some(IsoText(end)), now, dueDays);
    InstantDay(end);
  }

  lemma ComputedText(start: Civil, months: real)
    requires ValidCivil(start) && 100 <= start.year <= 9999 && months > 0.0
    requires PlusMonths(start, months.Floor).year <= 9999
    ensures var end := PlusMonths(start, months.Floor);
            100 <= end.year <= 9999 && AddMonthsToIsoDate(IsoText(start), months) == Value(Some(IsoText(end)))
  {
    var end := PlusMonths(start, months.Floor);
    hide ParseIsoDate, FormatIsoDate, IsoText, PlusMonths, AddMonthsToIsoDate, CivilFromDays, InstantOf, DayNumber;
    ReadText(start);
    AddMonthsIsPlusMonths(IsoText(start), months);
    YearOfEnd(start, months.Floor);
    FormattedDate(end);
    FieldsOfText(end);
  }

  /** A date's own text reads as that date. */
  lemma ReadText(c: Civil)
    requires ValidCivil(c) && 100 <= c.year <= 9999
    ensures ParseIsoDate(IsoText(c)) == Some(InstantOf(c)) && CivilFromDays(DayNumber(InstantOf(c))) == c
  {
    hide ParseIsoDate, FormatIsoDate, IsoText, InstantOf;
    FormattedDate(c);
    FieldsOfText(c);
    FormatThenParse(c);
    DayStartOf(c);
  }

  lemma InstantDay(c: Civil)
    requires ValidCivil(c)
    ensures DayNumber(InstantOf(c)) == DaysFromCivil(c.year, c.month, c.day)
  {
    DayInstant(DaysFromCivil(c.year, c.month, c.day));
  }

  lemma YearOfEnd(c: Civil, k: nat)
    requires ValidCivil(c) && c.year >= 100 && PlusMonths(c, k).year <= 9999
    ensures PlusMonths(c, k).year >= 100 && MonthIndex(PlusMonths(c, k)) <= LAST_MONTH
  {
    MonthsCounted(c, k);
  }

  lemma GivenText(c: Civil)
    requires ValidCivil(c)
    ensures Given(Some(IsoText(c)))
  {
  }
}
