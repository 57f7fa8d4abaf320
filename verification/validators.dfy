/** The checks a report's field values pass before they are stored: one validator per
    field type, the required/default rule shared by all of them, and the validation of a
    whole report against its template's fields. `today` stands for the clock reading the
    relative date words are resolved against. */
module Validators {
  import opened Wrappers
  import opened Strings
  import Calendar
  import opened FieldTypes
  import opened TemplateModel
  import opened ReportModel

  /** Why a single value was refused (a ValueError in the validators). */
  datatype FieldError =
    | Required(labelText: string)
    | BadDateFormat(value: string)
    | BadTimeFormat(value: string)
    | LineBreakInText
    | TextTooLong(limit: int, length: int)
    | NoOptionsDefined
    | NotAnOption(value: string, options: seq<string>)

  /** What validating one value gives: the value to store (`None` stores nothing), a
      refusal, or the OverflowError that date arithmetic raises at the ends of the
      calendar, which no caller catches. */
  datatype Outcome = Valid(value: Option<string>) | Invalid(error: FieldError) | Overflow

  // ---------------------------------------------------------------------------
  // Dates
  // ---------------------------------------------------------------------------

  /** The ISO text of a date that `ParseIso` reads back to the same date. */
  predicate IsCanonicalDate(s: string)
  {
    Calendar.ParseIso(s).Some? && Calendar.IsoFormat(Calendar.ParseIso(s).value) == s
  }

  /** A date value: one of the words today/yesterday/tomorrow, resolved against `today`, or
      text in the `%Y-%m-%d` form, rewritten in zero-padded ISO form. */
  function ValidateDate(value: string, today: Calendar.ValidDate): (r: Outcome)
    ensures r.Valid? ==> r.value.Some? && IsCanonicalDate(r.value.value)
    ensures r.Overflow? <==> (value == "yesterday" && today == Calendar.MinDate)
                             || (value == "tomorrow" && today == Calendar.MaxDate)
    ensures r.Invalid? <==> value !in {"today", "yesterday", "tomorrow"} && Calendar.ParseIso(value).None?
    ensures r.Invalid? ==> r.error == BadDateFormat(value)
  {
    match DateDefaultFromTag(value)
    case Some(Today) =>
      Calendar.ParseIsoFormat(today);
      Valid(Some(Calendar.IsoFormat(today)))
    case Some(Yesterday) =>
      (match Calendar.PrevDay(today)
       case None => Overflow
       case Some(d) => Calendar.ParseIsoFormat(d); Valid(Some(Calendar.IsoFormat(d))))
    case Some(Tomorrow) =>
      (match Calendar.NextDay(today)
       case None => Overflow
       case Some(d) => Calendar.ParseIsoFormat(d); Valid(Some(Calendar.IsoFormat(d))))
    case None =>
      (match Calendar.ParseIso(value)
       case None => Invalid(BadDateFormat(value))
       case Some(d) => Calendar.ParseIsoFormat(d); Valid(Some(Calendar.IsoFormat(d))))
  }

  /** The three words name the day itself, the day before it and the day after it. */
  lemma TodayResolves(today: Calendar.ValidDate)
    ensures ValidateDate("today", today) == Valid(Some(Calendar.IsoFormat(today)))
  {
    assert DateDefaultFromTag("today") == Some(Today);
  }

  lemma YesterdayResolves(today: Calendar.ValidDate)
    ensures today != Calendar.MinDate ==>
      exists d: Calendar.ValidDate :: Calendar.IsSuccessor(d, today)
                                      && ValidateDate("yesterday", today) == Valid(Some(Calendar.IsoFormat(d)))
  {
    assert DateDefaultFromTag("yesterday") == Some(Yesterday);
    if today != Calendar.MinDate {
      var d := Calendar.PrevDay(today).value;
      assert ValidateDate("yesterday", today) == Valid(Some(Calendar.IsoFormat(d)));
    }
  }

  lemma TomorrowResolves(today: Calendar.ValidDate)
    ensures today != Calendar.MaxDate ==>
      exists d: Calendar.ValidDate :: Calendar.IsSuccessor(today, d)
                                      && ValidateDate("tomorrow", today) == Valid(Some(Calendar.IsoFormat(d)))
  {
    assert DateDefaultFromTag("tomorrow") == Some(Tomorrow);
    if today != Calendar.MaxDate {
      var d := Calendar.NextDay(today).value;
      assert ValidateDate("tomorrow", today) == Valid(Some(Calendar.IsoFormat(d)));
    }
  }

  /** A date already in ISO form is accepted unchanged, and a date the validator produced
      validates to itself again. */
  lemma {:induction false} CanonicalDateUnchanged(s: string, today: Calendar.ValidDate)
    requires IsCanonicalDate(s)
    ensures ValidateDate(s, today) == Valid(Some(s))
  {
    assert s[4] == '-';
    assert s !in {"today", "yesterday", "tomorrow"} by {
      assert |s| == 10;
    }
  }

  lemma ValidateDateIdempotent(value: string, today: Calendar.ValidDate)
    requires ValidateDate(value, today).Valid?
    ensures ValidateDate(ValidateDate(value, today).value.value, today) == ValidateDate(value, today)
  {
    CanonicalDateUnchanged(ValidateDate(value, today).value.value, today);
  }

  /** Worked cases: single-digit month and day are padded; a leap day is kept; a
      slash-separated date, a day the month does not have and year 0 are refused. */
  lemma DatePadded(today: Calendar.ValidDate)
    ensures ValidateDate("2024-1-5", today) == Valid(Some("2024-01-05"))
  {
    ParsesUnpadded();
    Pad2024();
    assert Calendar.IsoFormat(Calendar.Date(2024, 1, 5)) == "2024-01-05";
  }

  lemma ParsesUnpadded()
    ensures Calendar.ParseIso("2024-1-5") == Some(Calendar.Date(2024, 1, 5))
  {
    var s := "2024-1-5";
    assert s[..4] == "2024" && s[5..] == "1-5";
    assert "1-5"[1] == '-' && "1-5"[..1] == "1" && "1-5"[2..] == "5";
    assert Calendar.SplitMonth("1-5") == Some(("1", "5"));
    Year2024();
  }

  lemma Year2024()
    ensures AllDigits("2024") && NumberValue("2024") == 2024
  {
    assert "2024"[..3] == "202" && "202"[..2] == "20" && "20"[..1] == "2";
  }

  lemma Pad2024()
    ensures Pad4(2024) == "2024"
  {
    assert DigitChar(2) == '2' && DigitChar(0) == '0' && DigitChar(4) == '4';
  }

  lemma LeapDayKept(today: Calendar.ValidDate)
    ensures ValidateDate("2024-02-29", today) == Valid(Some("2024-02-29"))
  {
    ParsesLeapDay();
    Pad2024();
    assert Calendar.IsoFormat(Calendar.Date(2024, 2, 29)) == "2024-02-29";
  }

  lemma ParsesLeapDay()
    ensures Calendar.ParseIso("2024-02-29") == Some(Calendar.Date(2024, 2, 29))
  {
    var t := "2024-02-29";
    assert t[..4] == "2024" && t[5..] == "02-29";
    SplitsFebruary29();
    Year2024();
  }

  lemma SplitsFebruary29()
    ensures Calendar.SplitMonth("02-29") == Some(("02", "29"))
    ensures Calendar.MonthGroup("02") == Some(2) && Calendar.DayGroup("29") == Some(29)
  {
    assert "02-29"[1] == '2' && "02-29"[2] == '-' && "02-29"[..2] == "02" && "02-29"[3..] == "29";
  }

  lemma SlashDateRefused(today: Calendar.ValidDate)
    ensures ValidateDate("2024/01/15", today) == Invalid(BadDateFormat("2024/01/15"))
  {
    assert "2024/01/15"[4] == '/';
  }

  lemma MissingDayRefused(today: Calendar.ValidDate)
    ensures ValidateDate("2023-02-29", today) == Invalid(BadDateFormat("2023-02-29"))
  {
    ParsesMissingDay();
    assert DateDefaultFromTag("2023-02-29") == None;
  }

  lemma ParsesMissingDay()
    ensures Calendar.ParseIso("2023-02-29") == None
  {
    var u := "2023-02-29";
    assert u[..4] == "2023" && u[5..] == "02-29";
    SplitsFebruary29();
    Year2023();
  }

  lemma Year2023()
    ensures AllDigits("2023") && NumberValue("2023") == 2023
  {
    assert "2023"[..3] == "202" && "202"[..2] == "20" && "20"[..1] == "2";
  }

  lemma YearZeroRefused(today: Calendar.ValidDate)
    ensures ValidateDate("0000-01-01", today) == Invalid(BadDateFormat("0000-01-01"))
  {
    var z := "0000-01-01";
    assert "0000"[..3] == "000" && "000"[..2] == "00" && "00"[..1] == "0";
    assert z[..4] == "0000" && NumberValue(z[..4]) == 0;
  }

  // ---------------------------------------------------------------------------
  // Times
  // ---------------------------------------------------------------------------

  /** The hour group `[0-1]?[0-9]|2[0-3]` matched by exactly `t`. */
  function HourGroup(t: string): (r: Option<int>)
    ensures r.Some? ==> 0 <= r.value <= 23
  {
    if |t| == 1 && IsDigit(t[0]) then Some(DigitValue(t[0]))
    else if |t| == 2 && (('0' <= t[0] <= '1' && IsDigit(t[1])) || (t[0] == '2' && '0' <= t[1] <= '3'))
    then Some(DigitValue(t[0]) * 10 + DigitValue(t[1]))
    else None
  }

  /** The minute group `[0-5][0-9]` matched by exactly `t`. */
  function MinuteGroup(t: string): (r: Option<int>)
    ensures r.Some? ==> 0 <= r.value <= 59
  {
    if |t| == 2 && '0' <= t[0] <= '5' && IsDigit(t[1]) then Some(DigitValue(t[0]) * 10 + DigitValue(t[1]))
    else None
  }

  /** The hour and minute of a value the time pattern `^(hour):(minute)$` matches. Python's
      `$` also matches just before a final line feed, so one trailing "\n" is allowed. */
  function MatchTime(value: string): (r: Option<(int, int)>)
    ensures r.Some? ==> 0 <= r.value.0 <= 23 && 0 <= r.value.1 <= 59
  {
    var body := if |value| > 0 && value[|value| - 1] == '\n' then value[..|value| - 1] else value;
    var groups :=
      if |body| == 4 && body[1] == ':' then (HourGroup(body[..1]), MinuteGroup(body[2..]))
      else if |body| == 5 && body[2] == ':' then (HourGroup(body[..2]), MinuteGroup(body[3..]))
      else (None, None);
    if groups.0.Some? && groups.1.Some? then Some((groups.0.value, groups.1.value)) else None
  }

  /** `round(m / 15) * 15` for a minute that is not a multiple of 15: the quotient is
      never exactly halfway, so this is the nearest multiple of 15. */
  function RoundToQuarter(m: int): (q: int)
    requires 0 <= m <= 59 && m % 15 != 0
    ensures q % 15 == 0 && -7 <= q - m <= 7 && 0 <= q <= 60
  {
    ((m + 7) / 15) * 15
  }

  /** The hour and minute a time is moved to: unchanged on a quarter hour, otherwise the
      nearest quarter, carrying into the next hour (and from 23 to 0). */
  function NearestQuarter(hm: (int, int)): (r: (int, int))
    requires 0 <= hm.0 <= 23 && 0 <= hm.1 <= 59
    ensures 0 <= r.0 <= 23 && 0 <= r.1 <= 59 && r.1 % 15 == 0
  {
    if hm.1 % 15 == 0 then hm
    else
      var rounded := RoundToQuarter(hm.1);
      if rounded == 60 then ((hm.0 + 1) % 24, 0) else (hm.0, rounded)
  }

  /** A time value: `H:MM` or `HH:MM` with hour 0-23. A minute that is a multiple of 15
      leaves the value as typed; any other minute is moved to the nearest quarter hour
      and the time written as `HH:MM`, rolling over to the next hour (and from 23 to 0).
      Either way the result reads back as the nearest quarter hour. */
  function ValidateTime(value: string): (r: Outcome)
    ensures r.Invalid? <==> MatchTime(value).None?
    ensures r.Invalid? ==> r.error == BadTimeFormat(value)
    ensures !r.Overflow?
    ensures r.Valid? ==> r.value.Some? && MatchTime(r.value.value) == Some(NearestQuarter(MatchTime(value).value))
    ensures r.Valid? && MatchTime(value).value.1 % 15 == 0 ==> r.value.value == value
  {
    match MatchTime(value)
    case None => Invalid(BadTimeFormat(value))
    case Some((hour, minute)) =>
      if minute % 15 == 0 then Valid(Some(value))
      else
        var (h, m) := NearestQuarter((hour, minute));
        FormatTimeMatches(h, m);
        Valid(Some(Pad2(h) + ":" + Pad2(m)))
  }

  /** A time written as `HH:MM` matches the time pattern with the same hour and minute. */
  lemma FormatTimeMatches(h: int, m: int)
    requires 0 <= h <= 23 && 0 <= m <= 59
    ensures MatchTime(Pad2(h) + ":" + Pad2(m)) == Some((h, m))
  {
    var s := Pad2(h) + ":" + Pad2(m);
    assert s[..2] == Pad2(h) && s[3..] == Pad2(m) && s[2] == ':';
  }

  function MinuteOfDay(hm: (int, int)): int
  {
    hm.0 * 60 + hm.1
  }

  /** Validation lands on a quarter hour that is at most seven minutes away from the
      time typed, measured round the clock. */
  lemma TimeRoundsToNearestQuarter(value: string)
    requires ValidateTime(value).Valid?
    ensures QuarterWithinSeven(MinuteOfDay(MatchTime(value).value),
                               MinuteOfDay(MatchTime(ValidateTime(value).value.value).value))
  {
    QuarterDistance(MatchTime(value).value);
  }

  /** `after` is on a quarter hour and at most seven minutes from `before`, round the clock. */
  predicate QuarterWithinSeven(before: int, after: int)
  {
    after % 15 == 0 && ((after - before) % 1440 <= 7 || (before - after) % 1440 <= 7)
  }

  /** The arithmetic behind the rounding: the nearest quarter hour is within seven
      minutes of the time, round the clock. */
  lemma QuarterDistance(hm: (int, int))
    requires 0 <= hm.0 <= 23 && 0 <= hm.1 <= 59
    ensures QuarterWithinSeven(MinuteOfDay(hm), MinuteOfDay(NearestQuarter(hm)))
  {
    var (hour, minute) := hm;
    var (h, m) := NearestQuarter(hm);
    var before, after := hour * 60 + minute, h * 60 + m;
    assert after == 15 * (h * 4 + m / 15);
    if minute % 15 != 0 {
      if RoundToQuarter(minute) == 60 {
        if hour == 23 {
          assert after == 0 && (after - before) % 1440 == 1440 + after - before;
        } else {
          assert after - before == 60 - minute;
        }
      } else {
        assert after - before == m - minute;
      }
    }
  }

  /** A validated time validates to itself. */
  lemma ValidateTimeIdempotent(value: string)
    requires ValidateTime(value).Valid?
    ensures ValidateTime(ValidateTime(value).value.value) == ValidateTime(value)
  {
  }

  /** Worked cases: the nearest quarter below and above, the roll-over past 23:52, an
      unpadded hour kept as typed, a trailing line feed kept as typed, and hour 24
      refused. */
  lemma TimeRoundsDown()
    ensures ValidateTime("09:07") == Valid(Some("09:00"))
  {
    ReadsAsClock("09:07", 9, 7);
    RoundedTimeText("09:07");
    assert Pad2(9) + ":" + Pad2(0) == "09:00";
  }

  lemma TimeRoundsUp()
    ensures ValidateTime("09:08") == Valid(Some("09:15"))
  {
    ReadsAsClock("09:08", 9, 8);
    RoundedTimeText("09:08");
    assert Pad2(9) + ":" + Pad2(15) == "09:15";
  }

  lemma TimeRollsOverMidnight()
    ensures ValidateTime("23:53") == Valid(Some("00:00"))
  {
    ReadsAsClock("23:53", 23, 53);
    RoundedTimeText("23:53");
    assert Pad2(0) + ":" + Pad2(0) == "00:00";
  }

  /** A text written as `HH:MM` reads as that hour and minute. */
  lemma ReadsAsClock(value: string, h: int, m: int)
    requires 0 <= h <= 23 && 0 <= m <= 59 && value == Pad2(h) + ":" + Pad2(m)
    ensures MatchTime(value) == Some((h, m))
  {
    FormatTimeMatches(h, m);
  }

  /** A time off the quarter hour is rewritten as the nearest quarter in `HH:MM` form. */
  lemma RoundedTimeText(value: string)
    requires MatchTime(value).Some? && MatchTime(value).value.1 % 15 != 0
    ensures var hm := NearestQuarter(MatchTime(value).value);
            ValidateTime(value) == Valid(Some(Pad2(hm.0) + ":" + Pad2(hm.1)))
  {
  }

  lemma TimeKeptAsTyped()
    ensures ValidateTime("9:00") == Valid(Some("9:00"))
  {
    assert "9:00"[..1] == "9" && "9:00"[2..] == "00";
  }

  lemma TimeTrailingLineFeedKept()
    ensures ValidateTime("09:30\n") == Valid(Some("09:30\n"))
  {
    MatchesTrailingLineFeed();
  }

  lemma MatchesTrailingLineFeed()
    ensures MatchTime("09:30\n") == Some((9, 30))
  {
    assert "09:30\n"[..5] == "09:30";
    assert "09:30"[..2] == "09" && "09:30"[3..] == "30";
  }

  lemma HourTwentyFourRefused()
    ensures ValidateTime("24:00") == Invalid(BadTimeFormat("24:00"))
  {
    assert "24:00"[..2] == "24";
  }

  // ---------------------------------------------------------------------------
  // Text, memo and selection
  // ---------------------------------------------------------------------------

  /** The length limit of a text field: its own when set and non-zero, otherwise 255. */
  function TextLimit(f: TemplateField): (n: int)
    ensures f.maxLength.None? ==> n == 255
    ensures f.maxLength.Some? ==> n == (if f.maxLength.value == 0 then 255 else f.maxLength.value)
  {
    if f.maxLength.Some? && f.maxLength.value != 0 then f.maxLength.value else 255
  }

  predicate HasLineBreak(s: string)
  {
    '\n' in s || '\r' in s
  }

  /** A one-line text value: no line feed or carriage return, no longer than the field's
      limit (counted before stripping), stored with surrounding whitespace removed. */
  function ValidateText(value: string, f: TemplateField): (r: Outcome)
    ensures r.Invalid? <==> HasLineBreak(value) || |value| > TextLimit(f)
    ensures r.Invalid? ==> r.error == (if HasLineBreak(value) then LineBreakInText
                                       else TextTooLong(TextLimit(f), |value|))
    ensures r.Valid? ==> r.value.Some?
  {
    if HasLineBreak(value) then Invalid(LineBreakInText)
    else if |value| > TextLimit(f) then Invalid(TextTooLong(TextLimit(f), |value|))
    else Valid(Some(Strip(value)))
  }

  /** An accepted text value is a stripped piece of the input: within the limit, on one
      line, and accepted unchanged when validated again. */
  lemma {:induction false} TextResultIsStrippedLine(value: string, f: TemplateField)
    requires ValidateText(value, f).Valid?
    ensures var out := ValidateText(value, f).value.value;
      && out == Strip(value) && |out| <= TextLimit(f) && !HasLineBreak(out)
      && ValidateText(out, f) == Valid(Some(out))
  {
    var out := Strip(value);
    var i :| StrippedAt(value, out, i);
    assert !HasLineBreak(out) by {
      forall k | 0 <= k < |out| ensures out[k] != '\n' && out[k] != '\r' {
        assert out[k] == value[i + k];
      }
    }
    StripIdempotent(value);
  }

  /** A memo value: any text, stored with surrounding whitespace removed. */
  function ValidateMemo(value: string): (r: Outcome)
    ensures r.Valid? && r.value.Some? && |r.value.value| <= |value|
    ensures r == Valid(Some(Strip(value)))
    ensures var out := r.value.value;
            (out == [] || (!IsSpace(out[0]) && !IsSpace(out[|out| - 1])))
            && exists i :: StrippedAt(value, out, i)
  {
    Valid(Some(Strip(value)))
  }

  lemma ValidateMemoIdempotent(value: string)
    ensures ValidateMemo(ValidateMemo(value).value.value) == ValidateMemo(value)
  {
    StripIdempotent(value);
  }

  /** `not options`: no list, or an empty one. */
  predicate NoOptions(options: Option<seq<string>>)
  {
    options.None? || options.value == []
  }

  /** A selection value: accepted unchanged when it is one of the field's options; a field
      without options refuses every value. */
  function ValidateSelection(value: string, f: TemplateField): (r: Outcome)
    ensures r.Valid? <==> f.options.Some? && value in f.options.value
    ensures r.Valid? ==> r.value == Some(value)
    ensures r.Invalid? && NoOptions(f.options) ==> r.error == NoOptionsDefined
    ensures r.Invalid? && !NoOptions(f.options) ==> r.error == NotAnOption(value, f.options.value)
    ensures !r.Overflow?
  {
    if NoOptions(f.options) then Invalid(NoOptionsDefined)
    else if value !in f.options.value then Invalid(NotAnOption(value, f.options.value))
    else Valid(Some(value))
  }

  // ---------------------------------------------------------------------------
  // One field
  // ---------------------------------------------------------------------------

  /** `not value`: no value, or the empty string. Whitespace alone counts as a value. */
  predicate IsMissing(value: Option<string>)
  {
    value.None? || value.value == []
  }

  /** The validator of a field's type applied to a present value. */
  function ValidateByType(value: string, f: TemplateField, today: Calendar.ValidDate): Outcome
  {
    match f.fieldType
    case Date => ValidateDate(value, today)
    case Time => ValidateTime(value)
    case Text => ValidateText(value, f)
    case Memo => ValidateMemo(value)
    case Selection => ValidateSelection(value, f)
  }

  /** One field's value: a missing value is refused when the field is required and is
      otherwise replaced by the field's default value, which is not itself validated; a
      present value goes to the validator of the field's type. */
  function Validate(value: Option<string>, f: TemplateField, today: Calendar.ValidDate): (r: Outcome)
    ensures IsMissing(value) && f.required ==> r == Invalid(Required(f.labelText))
    ensures IsMissing(value) && !f.required ==> r == Valid(f.defaultValue)
    ensures r.Overflow? ==> f.fieldType == Date && value.Some? && value.value in {"yesterday", "tomorrow"}
    ensures !IsMissing(value) && r.Valid? ==> r.value.Some?
  {
    if f.required && IsMissing(value) then Invalid(Required(f.labelText))
    else if IsMissing(value) then Valid(f.defaultValue)
    else ValidateByType(value.value, f, today)
  }

  /** A non-empty value the validator produced is accepted unchanged when validated again
      for the same field, whatever the field's type. */
  lemma ValidateIdempotent(value: string, f: TemplateField, today: Calendar.ValidDate)
    requires !IsMissing(Some(value))
    requires Validate(Some(value), f, today).Valid?
    requires Validate(Some(value), f, today).value.Some?
    requires Validate(Some(value), f, today).value.value != []
    ensures var out := Validate(Some(value), f, today).value.value;
            Validate(Some(out), f, today) == Valid(Some(out))
  {
    assert Validate(Some(value), f, today) == ValidateByType(value, f, today);
    match f.fieldType
    case Date => ValidateDateIdempotent(value, today);
    case Time => ValidateTimeIdempotent(value);
    case Text => TextResultIsStrippedLine(value, f);
    case Memo => ValidateMemoIdempotent(value);
    case Selection =>
  }

  // ---------------------------------------------------------------------------
  // A whole report
  // ---------------------------------------------------------------------------

  /** A refusal with the label of the field it concerns, as listed in the error report. */
  datatype LabelledError = LabelledError(labelText: string, error: FieldError)

  /** Why a report's data was refused: the list of per-field refusals, or the uncaught
      date overflow. */
  datatype ReportDataError = FieldErrors(errors: seq<LabelledError>) | DateOverflow

  /** What the validation loop has gathered so far. */
  datatype Collected = Collected(validated: map<string, string>, errors: seq<LabelledError>)

  /** The outcome for one field of the template. */
  function FieldOutcome(data: Document, f: TemplateField, today: Calendar.ValidDate): Outcome
  {
    Validate(Lookup(data, f.name), f, today)
  }

  /** The fields taken in order: a refusal is appended to the errors, a value is stored
      under the field's name (a later field of the same name overwrites it), `None` stores
      nothing; `None` overall once a field overflowed, since the exception ends the loop. */
  function Collect(data: Document, fields: seq<TemplateField>, today: Calendar.ValidDate): Option<Collected>
    decreases |fields|
  {
    if fields == [] then Some(Collected(map[], []))
    else
      match Collect(data, fields[..|fields| - 1], today)
      case None => None
      case Some(c) =>
        var f := fields[|fields| - 1];
        match FieldOutcome(data, f, today)
        case Overflow => None
        case Invalid(e) => Some(Collected(c.validated, c.errors + [LabelledError(f.labelText, e)]))
        case Valid(v) => Some(if v.Some? then Collected(c.validated[f.name := v.value], c.errors) else c)
  }

  /** The result of validating a report's data against its template's fields. */
  function ReportDataResult(data: Document, fields: seq<TemplateField>, today: Calendar.ValidDate): Result<map<string, string>, ReportDataError>
  {
    match Collect(data, fields, today)
    case None => Err(DateOverflow)
    case Some(c) => if c.errors != [] then Err(FieldErrors(c.errors)) else Ok(c.validated)
  }

  /** `validate_report_data`: validates every field of the template against `data`,
      gathering all refusals before reporting them together. */
  method ValidateReportData(data: Document, fields: seq<TemplateField>, today: Calendar.ValidDate)
    returns (r: Result<map<string, string>, ReportDataError>)
    ensures r == ReportDataResult(data, fields, today)
  {
    var validated: map<string, string> := map[];
    var errors: seq<LabelledError> := [];
    var i := 0;
    while i < |fields|
      invariant 0 <= i <= |fields|
      invariant Collect(data, fields[..i], today) == Some(Collected(validated, errors))
    {
      var f := fields[i];
      assert fields[..i + 1][..i] == fields[..i];
      var outcome := Validate(Lookup(data, f.name), f, today);
      match outcome {
        case Overflow =>
          OverflowEndsCollection(data, fields, i + 1, today);
          assert fields[..|fields|] == fields;
          return Err(DateOverflow);
        case Invalid(e) =>
          errors := errors + [LabelledError(f.labelText, e)];
        case Valid(v) =>
          if v.Some? {
            validated := validated[f.name := v.value];
          }
      }
      i := i + 1;
    }
    assert fields[..|fields|] == fields;
    if errors != [] {
      return Err(FieldErrors(errors));
    }
    return Ok(validated);
  }

  /** Once a prefix of the fields overflows, so does every longer prefix. */
  lemma {:induction false} OverflowEndsCollection(data: Document, fields: seq<TemplateField>, n: nat, today: Calendar.ValidDate)
    requires n <= |fields| && Collect(data, fields[..n], today).None?
    ensures Collect(data, fields, today).None?
    decreases |fields| - n
  {
    if n < |fields| {
      assert fields[..n + 1][..n] == fields[..n];
      OverflowEndsCollection(data, fields, n + 1, today);
    } else {
      assert fields[..n] == fields;
    }
  }

  /** The result is the overflow exactly when some field's date overflows. */
  lemma {:induction false} OverflowIffSomeFieldOverflows(data: Document, fields: seq<TemplateField>, today: Calendar.ValidDate)
    ensures ReportDataResult(data, fields, today) == Err(DateOverflow)
            <==> exists f :: f in fields && FieldOutcome(data, f, today).Overflow?
    decreases |fields|
  {
    CollectNoneIff(data, fields, today);
  }

  lemma {:induction false} CollectNoneIff(data: Document, fields: seq<TemplateField>, today: Calendar.ValidDate)
    ensures Collect(data, fields, today).None? <==> exists f :: f in fields && FieldOutcome(data, f, today).Overflow?
    decreases |fields|
  {
    if fields != [] {
      var init, last := fields[..|fields| - 1], fields[|fields| - 1];
      assert fields == init + [last];
      CollectNoneIff(data, init, today);
    }
  }

  /** The refusals of a list of fields, in field order. */
  function Failures(data: Document, fields: seq<TemplateField>, today: Calendar.ValidDate): (errs: seq<LabelledError>)
    ensures |errs| <= |fields|
  {
    if fields == [] then [] else Refusal(data, fields[0], today) + Failures(data, fields[1..], today)
  }

  /** The refusal of one field, labelled with the field's label, if it fails. */
  function Refusal(data: Document, f: TemplateField, today: Calendar.ValidDate): (errs: seq<LabelledError>)
    ensures |errs| <= 1
  {
    match FieldOutcome(data, f, today)
    case Invalid(e) => [LabelledError(f.labelText, e)]
    case _ => []
  }

  lemma {:induction false} FailuresAppend(data: Document, a: seq<TemplateField>, b: seq<TemplateField>, today: Calendar.ValidDate)
    ensures Failures(data, a + b, today) == Failures(data, a, today) + Failures(data, b, today)
    decreases |a|
  {
    if a != [] {
      assert (a + b)[1..] == a[1..] + b;
      FailuresAppend(data, a[1..], b, today);
    } else {
      assert a + b == b;
    }
  }

  /** Without an overflow, the errors gathered are the refusals of the failing fields, one
      per failing field, in template order. */
  lemma {:induction false} CollectedErrorsAreFailures(data: Document, fields: seq<TemplateField>, today: Calendar.ValidDate)
    requires Collect(data, fields, today).Some?
    ensures Collect(data, fields, today).value.errors == Failures(data, fields, today)
    decreases |fields|
  {
    if fields != [] {
      var init, last := fields[..|fields| - 1], fields[|fields| - 1];
      assert fields == init + [last];
      CollectErrorsStep(data, fields, today);
      CollectedErrorsAreFailures(data, init, today);
      FailuresAppend(data, init, [last], today);
      assert Failures(data, [last], today) == Refusal(data, last, today) by {
        assert [last][1..] == [];
      }
    }
  }

  /** One more field adds its refusal, if any, to the errors gathered so far. */
  lemma CollectErrorsStep(data: Document, fields: seq<TemplateField>, today: Calendar.ValidDate)
    requires fields != [] && Collect(data, fields, today).Some?
    ensures Collect(data, fields[..|fields| - 1], today).Some?
    ensures Collect(data, fields, today).value.errors
            == Collect(data, fields[..|fields| - 1], today).value.errors + Refusal(data, fields[|fields| - 1], today)
  {
  }

  /** The data are accepted exactly when every field of the template is; when refused
      without an overflow, the report lists exactly the failing fields' refusals. */
  lemma ReportDataAcceptedIff(data: Document, fields: seq<TemplateField>, today: Calendar.ValidDate)
    ensures ReportDataResult(data, fields, today).Ok?
            <==> forall f :: f in fields ==> FieldOutcome(data, f, today).Valid?
    ensures ReportDataResult(data, fields, today).Err? && ReportDataResult(data, fields, today).error.FieldErrors?
            ==> ReportDataResult(data, fields, today).error.errors == Failures(data, fields, today)
  {
    CollectNoneIff(data, fields, today);
    if Collect(data, fields, today).Some? {
      CollectedErrorsAreFailures(data, fields, today);
      NoFailuresIffAllValid(data, fields, today);
    }
  }

  lemma {:induction false} NoFailuresIffAllValid(data: Document, fields: seq<TemplateField>, today: Calendar.ValidDate)
    requires forall f :: f in fields ==> !FieldOutcome(data, f, today).Overflow?
    ensures Failures(data, fields, today) == [] <==> forall f :: f in fields ==> FieldOutcome(data, f, today).Valid?
    decreases |fields|
  {
    if fields != [] {
      NoFailuresIffAllValid(data, fields[1..], today);
      assert forall f :: f in fields <==> f == fields[0] || f in fields[1..];
    }
  }

  /** A field whose validation stores a value. */
  predicate Stores(data: Document, f: TemplateField, today: Calendar.ValidDate)
  {
    FieldOutcome(data, f, today).Valid? && FieldOutcome(data, f, today).value.Some?
  }

  /** The names of the fields that store a value. */
  ghost function StoringNames(data: Document, fields: seq<TemplateField>, today: Calendar.ValidDate): set<string>
  {
    set f | f in fields && Stores(data, f, today) :: f.name
  }

  /** The accepted data hold a value under the name of every field that stores one and
      under no other name. */
  lemma {:induction false} CollectedKeys(data: Document, fields: seq<TemplateField>, today: Calendar.ValidDate)
    requires Collect(data, fields, today).Some?
    ensures Collect(data, fields, today).value.validated.Keys == StoringNames(data, fields, today)
    decreases |fields|
  {
    if fields != [] {
      var init, last := fields[..|fields| - 1], fields[|fields| - 1];
      assert fields == init + [last];
      CollectedKeys(data, init, today);
      var m := Collect(data, fields, today).value.validated;
      var m0 := Collect(data, init, today).value.validated;
      var extra: set<string> := if Stores(data, last, today) then {last.name} else {};
      assert m.Keys == m0.Keys + extra;
      forall n ensures n in StoringNames(data, fields, today) <==> n in StoringNames(data, init, today) + extra {
        if n in StoringNames(data, fields, today) {
          var f :| f in fields && Stores(data, f, today) && f.name == n;
          if f != last { assert f in init; }
        }
      }
    }
  }

  /** With unique field names, the accepted data hold under each storing field's name that
      field's validated value. */
  lemma {:induction false} CollectedValues(data: Document, fields: seq<TemplateField>, today: Calendar.ValidDate)
    requires Collect(data, fields, today).Some? && NamesUnique(fields)
    ensures var m := Collect(data, fields, today).value.validated;
            forall f :: f in fields && Stores(data, f, today) ==> f.name in m && m[f.name] == FieldOutcome(data, f, today).value.value
    decreases |fields|
  {
    if fields != [] {
      var init, last := fields[..|fields| - 1], fields[|fields| - 1];
      assert fields == init + [last];
      assert NamesUnique(init);
      CollectedValues(data, init, today);
      var m := Collect(data, fields, today).value.validated;
      var m0 := Collect(data, init, today).value.validated;
      forall f | f in fields && Stores(data, f, today)
        ensures f.name in m && m[f.name] == FieldOutcome(data, f, today).value.value
      {
        if f != last {
          var k :| 0 <= k < |init| && init[k] == f;
          assert fields[k] == f && fields[|fields| - 1] == last;
          assert f.name != last.name;
          assert f.name in m0;
        }
      }
    }
  }

  /** Keys of `data` that name no field of the template play no part. */
  lemma {:induction false} OtherKeysIgnored(data: Document, other: Document,
                                             fields: seq<TemplateField>, today: Calendar.ValidDate)
    requires forall f :: f in fields ==> Lookup(data, f.name) == Lookup(other, f.name)
    ensures ReportDataResult(data, fields, today) == ReportDataResult(other, fields, today)
  {
    SameLookupsSameCollection(data, other, fields, today);
  }

  lemma {:induction false} SameLookupsSameCollection(data: Document, other: Document,
                                                      fields: seq<TemplateField>, today: Calendar.ValidDate)
    requires forall f :: f in fields ==> Lookup(data, f.name) == Lookup(other, f.name)
    ensures Collect(data, fields, today) == Collect(other, fields, today)
    decreases |fields|
  {
    if fields != [] {
      var init, last := fields[..|fields| - 1], fields[|fields| - 1];
      assert fields == init + [last];
      SameLookupsSameCollection(data, other, init, today);
      assert FieldOutcome(data, last, today) == FieldOutcome(other, last, today);
    }
  }
}
