/** The proleptic Gregorian calendar of Python's `datetime.date`: years 1 to 9999, leap
    years, the length of each month, the day before and after a date, the ISO text form
    that `date.isoformat()` writes and `strftime("%Y-%m-%d")` writes for four-digit
    years, and the text that `datetime.strptime(value, "%Y-%m-%d")` accepts. */
module Calendar {
  import opened Wrappers
  import opened Strings

  datatype Date = Date(year: int, month: int, day: int)

  predicate IsLeapYear(y: int)
  {
    y % 4 == 0 && (y % 100 != 0 || y % 400 == 0)
  }

  function DaysInMonth(y: int, m: int): (n: int)
    requires 1 <= m <= 12
    ensures 28 <= n <= 31
    ensures n == 29 <==> m == 2 && IsLeapYear(y)
  {
    if m == 2 then (if IsLeapYear(y) then 29 else 28)
    else if m == 4 || m == 6 || m == 9 || m == 11 then 30
    else 31
  }

  /** The dates a Python `date` object can hold. */
  predicate IsValid(d: Date)
  {
    1 <= d.year <= 9999 && 1 <= d.month <= 12 && 1 <= d.day <= DaysInMonth(d.year, d.month)
  }

  type ValidDate = d: Date | IsValid(d) witness Date(1, 1, 1)

  const MinDate: ValidDate := Date(1, 1, 1)
  const MaxDate: ValidDate := Date(9999, 12, 31)

  /** Chronological order: `a` is strictly earlier than `b`. */
  predicate Before(a: Date, b: Date)
  {
    a.year < b.year
    || (a.year == b.year && (a.month < b.month || (a.month == b.month && a.day < b.day)))
  }

  /** `b` is the valid date that immediately follows `a`: no valid date lies between. */
  ghost predicate IsSuccessor(a: Date, b: Date)
  {
    Before(a, b) && forall x: Date :: IsValid(x) && Before(a, x) ==> !Before(x, b)
  }

  lemma BeforeTotal(a: Date, b: Date)
    ensures a == b || Before(a, b) || Before(b, a)
  {
  }

  /** Each date has at most one immediate predecessor. */
  lemma PredecessorUnique(a: Date, c: Date, b: Date)
    requires IsValid(a) && IsValid(c)
    requires IsSuccessor(a, b) && IsSuccessor(c, b)
    ensures a == c
  {
    BeforeTotal(a, c);
  }

  /** Each date has at most one immediate successor. */
  lemma SuccessorUnique(a: Date, b: Date, c: Date)
    requires IsValid(b) && IsValid(c)
    requires IsSuccessor(a, b) && IsSuccessor(a, c)
    ensures b == c
  {
    BeforeTotal(b, c);
  }

  /** `d + timedelta(days=1)`; Python raises OverflowError past 9999-12-31, which is `None` here. */
  function NextDay(d: ValidDate): (r: Option<ValidDate>)
    ensures r.None? <==> d == MaxDate
    ensures r.Some? ==> IsSuccessor(d, r.value)
  {
    if d.day < DaysInMonth(d.year, d.month) then Some(Date(d.year, d.month, d.day + 1))
    else if d.month < 12 then Some(Date(d.year, d.month + 1, 1))
    else if d.year < 9999 then Some(Date(d.year + 1, 1, 1))
    else None
  }

  /** `d - timedelta(days=1)`; Python raises OverflowError before 0001-01-01, which is `None` here. */
  function PrevDay(d: ValidDate): (r: Option<ValidDate>)
    ensures r.None? <==> d == MinDate
    ensures r.Some? ==> IsSuccessor(r.value, d)
  {
    if d.day > 1 then Some(Date(d.year, d.month, d.day - 1))
    else if d.month > 1 then Some(Date(d.year, d.month - 1, DaysInMonth(d.year, d.month - 1)))
    else if d.year > 1 then Some(Date(d.year - 1, 12, 31))
    else None
  }

  /** Going forward one day and back one day returns to the start, and vice versa. */
  lemma NextPrevInverse(d: ValidDate)
    ensures NextDay(d).Some? ==> PrevDay(NextDay(d).value) == Some(d)
    ensures PrevDay(d).Some? ==> NextDay(PrevDay(d).value) == Some(d)
  {
    if NextDay(d).Some? {
      var e := NextDay(d).value;
      assert e != MinDate by { assert Before(d, e); }
      PredecessorUnique(PrevDay(e).value, d, e);
    }
    if PrevDay(d).Some? {
      var e := PrevDay(d).value;
      assert e != MaxDate by { assert Before(e, d); }
      SuccessorUnique(e, NextDay(e).value, d);
    }
  }

  // ---------------------------------------------------------------------------
  // Text forms
  // ---------------------------------------------------------------------------

  /** `date.isoformat()`: `YYYY-MM-DD`, every part zero-padded. */
  function IsoFormat(d: ValidDate): (r: string)
    ensures |r| == 10 && r[4] == '-' && r[7] == '-'
  {
    Pad4(d.year) + "-" + Pad2(d.month) + "-" + Pad2(d.day)
  }

  /** The `%m` group of strptime's pattern, `1[0-2]|0[1-9]|[1-9]`, matched by exactly `t`. */
  function MonthGroup(t: string): (r: Option<int>)
    ensures r.Some? ==> 1 <= r.value <= 12
  {
    if |t| == 1 && '1' <= t[0] <= '9' then Some(DigitValue(t[0]))
    else if |t| == 2 && ((t[0] == '1' && '0' <= t[1] <= '2') || (t[0] == '0' && '1' <= t[1] <= '9'))
    then Some(DigitValue(t[0]) * 10 + DigitValue(t[1]))
    else None
  }

  /** The `%d` group of strptime's pattern, `3[01]|[12]\d|0[1-9]|[1-9]| [1-9]`, matched by
      exactly `t`. Because the two-character alternatives are tried first and the group
      ends the pattern, the text after the second `-` parses only when it is one whole
      alternative. */
  function DayGroup(t: string): (r: Option<int>)
    ensures r.Some? ==> 1 <= r.value <= 31
  {
    if |t| == 1 && '1' <= t[0] <= '9' then Some(DigitValue(t[0]))
    else if |t| == 2 && ((t[0] == '3' && '0' <= t[1] <= '1')
                         || ('1' <= t[0] <= '2' && IsDigit(t[1]))
                         || (t[0] == '0' && '1' <= t[1] <= '9'))
    then Some(DigitValue(t[0]) * 10 + DigitValue(t[1]))
    else if |t| == 2 && t[0] == ' ' && '1' <= t[1] <= '9' then Some(DigitValue(t[1]))
    else None
  }

  /** Splits `rest` (the text after `YYYY-`) at the `-` that ends the month group. */
  function SplitMonth(rest: string): Option<(string, string)>
  {
    if |rest| >= 2 && rest[1] == '-' then Some((rest[..1], rest[2..]))
    else if |rest| >= 3 && rest[2] == '-' then Some((rest[..2], rest[3..]))
    else None
  }

  /** `datetime.strptime(s, "%Y-%m-%d").date()`, or `None` where it raises ValueError:
      four digits of year (year 0 is out of range), a month group, a day group, nothing
      left over, and a day that exists in that month. */
  function ParseIso(s: string): (r: Option<ValidDate>)
  {
    if |s| < 5 || !AllDigits(s[..4]) || s[4] != '-' then None
    else
      var year := NumberValue(s[..4]);
      assert Pow10(4) == 10000;
      match SplitMonth(s[5..])
      case None => None
      case Some((mt, dt)) =>
        match (MonthGroup(mt), DayGroup(dt))
        case (Some(m), Some(d)) =>
          if 1 <= year && d <= DaysInMonth(year, m) then Some(Date(year, m, d)) else None
        case _ => None
  }

  /** Parsing the ISO form of a date gives the date back. */
  lemma ParseIsoFormat(d: ValidDate)
    ensures ParseIso(IsoFormat(d)) == Some(d)
  {
    var s := IsoFormat(d);
    var y, m, dd := Pad4(d.year), Pad2(d.month), Pad2(d.day);
    assert s == y + "-" + m + "-" + dd;
    assert s[..4] == y;
    var rest := s[5..];
    assert rest == m + "-" + dd;
    assert rest[1] == m[1] && IsDigit(m[1]);
    assert rest[2] == '-' && rest[..2] == m && rest[3..] == dd;
    assert SplitMonth(rest) == Some((m, dd));
  }

  /** The ISO forms of two dates are equal only for equal dates. */
  lemma IsoFormatInjective(a: ValidDate, b: ValidDate)
    requires IsoFormat(a) == IsoFormat(b)
    ensures a == b
  {
    ParseIsoFormat(a);
    ParseIsoFormat(b);
  }

  /** Comparing ISO forms as text compares the dates: the text order SQLite applies to
      stored ISO dates is the chronological order. */
  lemma IsoFormatOrder(a: ValidDate, b: ValidDate)
    ensures LexLe(IsoFormat(a), IsoFormat(b)) <==> !Before(b, a)
  {
    if !Before(b, a) {
      IsoFormatMonotone(a, b);
    } else {
      IsoFormatMonotone(b, a);
      if LexLe(IsoFormat(a), IsoFormat(b)) {
        LexLeAntisymmetric(IsoFormat(a), IsoFormat(b));
        IsoFormatInjective(a, b);
      }
    }
  }

  lemma IsoFormatMonotone(a: ValidDate, b: ValidDate)
    requires !Before(b, a)
    ensures LexLe(IsoFormat(a), IsoFormat(b))
  {
    var ya, yb := Pad4(a.year), Pad4(b.year);
    var ma, mb := Pad2(a.month), Pad2(b.month);
    var da, db := Pad2(a.day), Pad2(b.day);
    assert IsoFormat(a) == ya + ("-" + (ma + ("-" + da)));
    assert IsoFormat(b) == yb + ("-" + (mb + ("-" + db)));
    DigitsLexLe(ya, yb);
    LexLeAppend(ya, yb, "-" + (ma + ("-" + da)), "-" + (mb + ("-" + db)));
    if a.year == b.year {
      LexLeAppend("-", "-", ma + ("-" + da), mb + ("-" + db));
      DigitsLexLe(ma, mb);
      LexLeAppend(ma, mb, "-" + da, "-" + db);
      if a.month == b.month {
        LexLeAppend("-", "-", da, db);
        DigitsLexLe(da, db);
      }
    }
  }

  // ---------------------------------------------------------------------------
  // Month bounds
  // ---------------------------------------------------------------------------

  /** The first and last day of a month as the monthly report query computes them:
      `date(year, month, 1)` and the first day of the following month (January of
      `year + 1` after December) minus one day. `None` where `date(...)` raises. */
  function MonthBounds(year: int, month: int): (r: Option<(ValidDate, ValidDate)>)
    ensures r.Some? <==> 1 <= year <= 9999 && 1 <= month <= 12 && !(year == 9999 && month == 12)
    ensures r.Some? ==> r.value.0 == Date(year, month, 1)
                        && r.value.1 == Date(year, month, DaysInMonth(year, month))
  {
    if !(1 <= year <= 9999 && 1 <= month <= 12) then None
    else
      var first := Date(year, month, 1);
      var (ny, nm) := if month == 12 then (year + 1, 1) else (year, month + 1);
      if ny > 9999 then None
      else
        match PrevDay(Date(ny, nm, 1))
        case Some(last) => Some((first, last))
        case None => None
  }

  /** The first day of a month never comes after its last day, and every valid date of
      that month lies between them. */
  lemma MonthBoundsSpan(year: int, month: int, d: ValidDate)
    requires MonthBounds(year, month).Some?
    ensures !Before(MonthBounds(year, month).value.1, MonthBounds(year, month).value.0)
    ensures (d.year == year && d.month == month) <==>
            (!Before(d, MonthBounds(year, month).value.0) && !Before(MonthBounds(year, month).value.1, d))
  {
  }
}
