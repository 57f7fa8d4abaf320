# smart-nippo core in Dafny

smart-nippo keeps daily reports (日報). A **template** is a named, ordered list of
input fields. Each field has a type: date, time, one-line text, memo or selection. At
most one template is the **default**. A **report** is a dictionary of field values
written against one template and filed under a date. This project models the core of
the program:

- the field validators;
- the template, field-type and report models;
- the two database row classes, which hold options and report data as JSON text;
- the template service and the report service, which read and change the template and
  report tables.

The model also proves what they promise.

| file | module | models |
|---|---|---|
| `wrappers.dfy` | `Wrappers` | `Option` and `Result` |
| `strings.dfy` | `Strings` | `str.strip`, ASCII digits and zero padding, SQLite text order, `ILIKE '%term%'` |
| `calendar.dfy` | `Calendar` | `datetime.date` (years 1 to 9999), `isoformat`, `strptime("%Y-%m-%d")`, day arithmetic, month bounds |
| `query.dfy` | `Query` | first match, filtering, Python's stable `sorted`, `limit`, counting into dictionaries |
| `json.dfy` | `Json` | `json.dumps` / `json.loads` of a list of strings and of a report dictionary |
| `field_types.dfy` | `FieldTypes` | `FieldType`, `DateDefault` |
| `template_model.dfy` | `TemplateModel` | `TemplateField`, `Template`, their validators, the standard template |
| `validators.dfy` | `Validators` | `FieldValidator` and `validate_report_data` |
| `report_model.dfy` | `ReportModel` | the `Report` model (a class: `set_field_value` changes it in place) |
| `db_models.dfy` | `DbModels` | `TemplateFieldDB.options` and `ReportDB.data` over their JSON columns (classes) |
| `store.dfy` | `Store` | the tables as rows, the `Database` object, reading a template back from its rows, `init_database` |
| `template_service.dfy` | `TemplateService` | `TemplateService` |
| `report_service.dfy` | `ReportService` | `ReportService` |

**How the model works**

- The database is a `Database` object. It holds the template table, with each template's
  field rows inside it, the report table, and a clock.
- The service operations that change the database are methods that `modify` it.
- Every method keeps `Database.Valid()`:
  - ids ascend in row order and are positive;
  - creation and update times precede the clock;
  - at most one template is the default;
  - every stored field row can be read back and meets its type's constraints;
  - every report's template exists.
- Read-only queries are functions over the two tables.
- Where the source loops, the model has a `while` loop proved against a specification
  function: `validate_report_data`, `validate_template_data`, the search for a report
  when several share a date, and the counting loop of `get_statistics`.

## Model

Source paths are relative to the repository root.

| member | source | states |
|---|---|---|
| Strings.Strip | src/smart_nippo/core/validators.py:76 | `str.strip()` is a contiguous piece of the input that neither starts nor ends with whitespace |
| Strings.StripIdempotent | src/smart_nippo/core/validators.py:82 | stripping a stripped text changes nothing |
| Strings.BlankIffStripEmpty | src/smart_nippo/core/services/template_service.py:296 | `not s.strip()` holds exactly when every character of `s` is whitespace |
| Strings.LexLeTotal | src/smart_nippo/core/services/report_service.py:212-216 | any two texts are comparable in SQLite's text order |
| Strings.LexLeAntisymmetric | src/smart_nippo/core/services/report_service.py:212-216 | two texts each no greater than the other are equal |
| Strings.LexLeTransitive | src/smart_nippo/core/services/report_service.py:212-216 | text order is transitive |
| Strings.LexLeAppend | src/smart_nippo/core/services/report_service.py:212-216 | text order after a common prefix compares the rest; a smaller prefix of the same length decides |
| Strings.DigitsLexLe | src/smart_nippo/core/services/report_service.py:211-216 | two zero-padded numbers of equal width compare as text as they compare as numbers |
| Strings.Pad2 | src/smart_nippo/core/validators.py:54 | `f"{n:02d}"` has two digits that read back as `n` |
| Strings.Pad4 | src/smart_nippo/core/services/report_service.py:55 | `%Y` for years 0-9999 has four digits that read back as the year |
| Strings.LikePrefix | src/smart_nippo/core/services/report_service.py:225 | a pattern without wildcards followed by `%` matches exactly the texts it begins |
| Strings.LikeLeadingPercent | src/smart_nippo/core/services/report_service.py:225 | a leading `%` matches when the rest matches some suffix |
| Strings.ContainsIsInfix | src/smart_nippo/core/services/report_service.py:234 | `value ILIKE '%term%'` (a term without wildcards) holds exactly when lower-cased `term` occurs in lower-cased `value` |
| Calendar.DaysInMonth | src/smart_nippo/core/validators.py:31 | month lengths: 28 to 31 days, 29 exactly in February of a leap year |
| Calendar.NextDay | src/smart_nippo/core/validators.py:27 | `d + timedelta(days=1)` is the immediate successor of `d`; it fails only on 9999-12-31 |
| Calendar.PrevDay | src/smart_nippo/core/validators.py:25 | `d - timedelta(days=1)` is the immediate predecessor of `d`; it fails only on 0001-01-01 |
| Calendar.NextPrevInverse | src/smart_nippo/core/validators.py:25-27 | a day forward then back, or back then forward, returns to the start |
| Calendar.PredecessorUnique | src/smart_nippo/core/validators.py:25-27 | a date has at most one immediate predecessor |
| Calendar.SuccessorUnique | src/smart_nippo/core/validators.py:25-27 | a date has at most one immediate successor |
| Calendar.ParseIsoFormat | src/smart_nippo/core/validators.py:31-32 | `strptime(isoformat(d), "%Y-%m-%d")` gives `d` back |
| Calendar.IsoFormatInjective | src/smart_nippo/core/validators.py:32 | distinct dates have distinct ISO texts |
| Calendar.IsoFormatOrder | src/smart_nippo/core/services/report_service.py:210-216 | comparing ISO texts as SQLite compares text is comparing the dates chronologically, both ways |
| Calendar.MonthBounds | src/smart_nippo/core/services/report_service.py:343-348 | the first and last day of a month; no bounds exactly where `date(...)` raises: an impossible month or year, or December 9999 |
| Calendar.MonthBoundsSpan | src/smart_nippo/core/services/report_service.py:343-350 | a date lies within the bounds exactly when it is in that month |
| Query.IndexOf | src/smart_nippo/core/services/template_service.py:96 | `.first()`: the first row that matches, or none exactly when no row matches |
| Query.MapAll | src/smart_nippo/core/services/template_service.py:120 | a list comprehension whose element conversion may raise: all converted in order, or the error of some element |
| Query.Filter | src/smart_nippo/core/services/report_service.py:210-236 | `query.filter(p)` keeps exactly the rows meeting `p` |
| Query.FilterIncreasing | src/smart_nippo/core/services/report_service.py:252 | filtering keeps row order |
| Query.Sort | src/smart_nippo/core/services/template_service.py:258 | `sorted` returns a permutation of its input |
| Query.SortSorted | src/smart_nippo/core/services/template_service.py:258 | `sorted` under a total preorder returns sorted output |
| Query.SortStable | src/smart_nippo/core/services/template_service.py:258 | `sorted` is stable: elements the key ties keep their original order |
| Query.SortOfSorted | src/smart_nippo/core/services/template_service.py:258 | sorting sorted input changes nothing |
| Query.InsertSorted | src/smart_nippo/core/services/template_service.py:258 | inserting into a sorted list keeps it sorted |
| Query.InsertStable | src/smart_nippo/core/services/template_service.py:258 | inserting an element that came first keeps ties in order |
| Query.Take | src/smart_nippo/core/services/report_service.py:249-250 | `.limit(n)` gives a prefix of length `min(n, len)` |
| Query.Bump | src/smart_nippo/core/services/report_service.py:390 | `d[k] = d.get(k, 0) + 1` raises `k`'s count by one, leaves every other count, and adds one to the total |
| Query.TallyOf | src/smart_nippo/core/services/report_service.py:387-394 | counting keys one by one gives a dictionary whose count per key is its number of occurrences, totalling the number of keys |
| Json.HexRoundTrip | src/smart_nippo/core/database/models.py:75 | a `\u00XX` hex digit reads back to its value |
| Json.ReadCharsEscaped | src/smart_nippo/core/database/models.py:75 | reading a string escaped as `json.dumps` escapes it gives the string back and stops at its closing quote |
| Json.ReadQuoted | src/smart_nippo/core/database/models.py:68 | a JSON string literal reads back to its string and the text after it |
| Json.ListRoundTrip | src/smart_nippo/core/database/models.py:64-77 | `json.loads(json.dumps(options))` gives the list of options back in order |
| Json.EntriesRoundTrip | src/smart_nippo/core/database/models.py:129-137 | decoding an encoded object gives back its members, in order |
| Json.EntriesMap | src/smart_nippo/core/database/models.py:132 | the dictionary `json.loads` builds has exactly the member names as keys |
| Json.EncodeDocument | src/smart_nippo/core/database/models.py:134-137 | `json.dumps` of a report dictionary is text that `json.loads` turns back into the same dictionary |
| FieldTypes.FromTag | src/smart_nippo/core/models/field_types.py:6-13 | `FieldType(s)` finds the member whose value is `s`, failing exactly for the five unknown strings |
| FieldTypes.TagRoundTrip | src/smart_nippo/core/services/template_service.py:262 | a field type stored as `field_type.value` reads back as the same member |
| FieldTypes.TagInjective | src/smart_nippo/core/models/field_types.py:9-13 | distinct field types have distinct values |
| FieldTypes.DateDefaultFromTag | src/smart_nippo/core/models/field_types.py:16-21 | `today`, `yesterday` and `tomorrow` are exactly the relative dates |
| FieldTypes.DateDefaultTagRoundTrip | src/smart_nippo/core/models/field_types.py:16-21 | a relative date's value reads back as the same member |
| TemplateModel.NewField | src/smart_nippo/core/models/template.py:10-21 | a field built from name, label and type takes the declared defaults: required, order 0, nothing else set |
| TemplateModel.ValidateFieldTypeConstraints | src/smart_nippo/core/models/template.py:23-38 | a field is accepted exactly when it meets its type's constraints (a selection has options; a text limit, when set, is at most 255); otherwise the selection or the text error |
| TemplateModel.NewFieldAccepted | src/smart_nippo/core/models/template.py:23-38 | a field with only the required attributes is refused exactly when it is a selection |
| TemplateModel.SetSizeIffDistinct | src/smart_nippo/core/models/template.py:56 | a list has as many distinct names as entries exactly when no name repeats |
| TemplateModel.NamesUniqueIffDistinct | src/smart_nippo/core/models/template.py:55-56 | fields have unique names exactly when their name list has no repeats |
| TemplateModel.NamesUniquePermutation | src/smart_nippo/core/models/template.py:52-58 | whether field names repeat does not depend on the fields' order |
| TemplateModel.RepeatsFieldNameIff | src/smart_nippo/core/models/template.py:55-56 | `len(names) != len(set(names))` holds exactly when two fields share a name |
| TemplateModel.ValidateUniqueFieldNames | src/smart_nippo/core/models/template.py:52-58 | a template is accepted unchanged exactly when its field names are unique, else refused with the duplicate-names error |
| TemplateModel.NewTemplate | src/smart_nippo/core/models/template.py:41-58 | a template built from name and fields has no id, description or timestamps, is not the default, and is built exactly when its field names are unique |
| TemplateModel.CreateDefaultTemplate | src/smart_nippo/core/models/template.py:61-173 | the standard template is the unstored default with the standard name and description |
| TemplateModel.DefaultTemplateNamesUnique | src/smart_nippo/core/models/template.py:63-173 | the standard template's nine field names are the listed ones and pass the uniqueness check |
| TemplateModel.DefaultTemplateFields | src/smart_nippo/core/models/template.py:63-162 | nine fields, each passing its type check, in display order 1-9; the date field is required and defaults to today; the project name is limited to 100; the progress default is one of its options |
| Validators.ValidateDate | src/smart_nippo/core/validators.py:13-35 | a date value is accepted exactly when it is a relative date or parses as `%Y-%m-%d`, and then yields canonical ISO text; the relative dates overflow only past the calendar's ends |
| Validators.TodayResolves | src/smart_nippo/core/validators.py:22-23 | `today` yields today's ISO date |
| Validators.YesterdayResolves | src/smart_nippo/core/validators.py:24-25 | `yesterday` yields the previous day's ISO date |
| Validators.TomorrowResolves | src/smart_nippo/core/validators.py:26-27 | `tomorrow` yields the next day's ISO date |
| Validators.CanonicalDateUnchanged | src/smart_nippo/core/validators.py:30-32 | an ISO date is accepted as it stands |
| Validators.ValidateDateIdempotent | src/smart_nippo/core/validators.py:13-35 | an accepted date validates to itself again |
| Validators.DatePadded | src/smart_nippo/core/validators.py:31-32 | `2024-1-5` is accepted and written as `2024-01-05` |
| Validators.LeapDayKept | src/smart_nippo/core/validators.py:31-32 | `2024-02-29` is accepted |
| Validators.SlashDateRefused | src/smart_nippo/core/validators.py:33-35 | `2024/01/15` is refused with the format error |
| Validators.MissingDayRefused | src/smart_nippo/core/validators.py:33-35 | `2023-02-29` is refused |
| Validators.YearZeroRefused | src/smart_nippo/core/validators.py:33-35 | `0000-01-01` is refused |
| Validators.MatchTime | src/smart_nippo/core/validators.py:41-42 | the time pattern yields hour 0-23 and minute 0-59 |
| Validators.RoundToQuarter | src/smart_nippo/core/validators.py:50 | `round(minute / 15) * 15` is a multiple of 15 within 7 of the minute |
| Validators.NearestQuarter | src/smart_nippo/core/validators.py:48-53 | rounding keeps a valid clock time on a quarter hour, rolling 60 over to the next hour |
| Validators.ValidateTime | src/smart_nippo/core/validators.py:38-58 | refused exactly when the pattern fails; a quarter-hour minute keeps the text as typed; otherwise the text written reads back as the nearest quarter hour |
| Validators.FormatTimeMatches | src/smart_nippo/core/validators.py:54 | the `HH:MM` text written after rounding matches the time pattern with the same hour and minute |
| Validators.TimeRoundsToNearestQuarter | src/smart_nippo/core/validators.py:45-54 | the accepted time is on a quarter hour at most seven minutes from the one typed, round the clock |
| Validators.QuarterDistance | src/smart_nippo/core/validators.py:48-53 | the rounded clock time is within seven minutes of the original, modulo a day |
| Validators.ValidateTimeIdempotent | src/smart_nippo/core/validators.py:38-58 | an accepted time validates to itself again |
| Validators.TimeRoundsDown | src/smart_nippo/core/validators.py:50-54 | `09:07` becomes `09:00` |
| Validators.TimeRoundsUp | src/smart_nippo/core/validators.py:50-54 | `09:08` becomes `09:15` |
| Validators.TimeRollsOverMidnight | src/smart_nippo/core/validators.py:51-53 | `23:53` becomes `00:00` |
| Validators.TimeKeptAsTyped | src/smart_nippo/core/validators.py:48 | `9:00` is accepted unchanged |
| Validators.TimeTrailingLineFeedKept | src/smart_nippo/core/validators.py:41-42 | `09:30` followed by a line feed is accepted unchanged, since `$` matches before a final line feed |
| Validators.HourTwentyFourRefused | src/smart_nippo/core/validators.py:41-43 | `24:00` is refused |
| Validators.TextLimit | src/smart_nippo/core/validators.py:68 | `max_length or 255`: the field's limit, or 255 when unset or zero |
| Validators.ValidateText | src/smart_nippo/core/validators.py:61-76 | refused exactly for a line break or a text over the limit, with the line-break error first |
| Validators.TextResultIsStrippedLine | src/smart_nippo/core/validators.py:61-76 | an accepted text is the stripped input, within the limit, on one line, and accepted unchanged again |
| Validators.ValidateMemo | src/smart_nippo/core/validators.py:79-82 | a memo is always accepted, as `value.strip()`: the input with only its leading and trailing whitespace cut, neither starting nor ending with whitespace |
| Validators.ValidateMemoIdempotent | src/smart_nippo/core/validators.py:79-82 | a validated memo validates to itself |
| Validators.ValidateSelection | src/smart_nippo/core/validators.py:85-96 | accepted, as typed, exactly when it is one of the options; otherwise the no-options or not-an-option error |
| Validators.Validate | src/smart_nippo/core/validators.py:98-122 | a missing or empty value is refused when required, else becomes the field's default; only a date can overflow |
| Validators.ValidateIdempotent | src/smart_nippo/core/validators.py:98-122 | a non-empty accepted value is accepted unchanged when validated again, for every field type |
| Validators.ValidateReportData | src/smart_nippo/core/validators.py:125-144 | the loop computes the result of validating every field in order |
| Validators.ReportDataAcceptedIff | src/smart_nippo/core/validators.py:141-144 | the data are accepted exactly when every field is; a refusal lists exactly the failing fields' errors, in field order |
| Validators.OverflowIffSomeFieldOverflows | src/smart_nippo/core/validators.py:132-139 | the uncaught date overflow ends validation exactly when some field's relative date overflows |
| Validators.OverflowEndsCollection | src/smart_nippo/core/validators.py:132-139 | once a field overflowed, the later fields change nothing |
| Validators.CollectNoneIff | src/smart_nippo/core/validators.py:132-139 | the loop is cut short exactly when some field overflows |
| Validators.Failures | src/smart_nippo/core/validators.py:138-139 | at most one refusal per field |
| Validators.FailuresAppend | src/smart_nippo/core/validators.py:132-139 | the refusals of two field lists together are the refusals of each, in order |
| Validators.CollectedErrorsAreFailures | src/smart_nippo/core/validators.py:138-139 | the errors the loop gathers are the failing fields' refusals in field order |
| Validators.NoFailuresIffAllValid | src/smart_nippo/core/validators.py:141-144 | no refusal exactly when every field is accepted |
| Validators.CollectedKeys | src/smart_nippo/core/validators.py:136-137 | the validated dictionary has a key exactly for each field that stores a value |
| Validators.CollectedValues | src/smart_nippo/core/validators.py:135-137 | with unique field names, each storing field's key holds its validated value |
| Validators.OtherKeysIgnored | src/smart_nippo/core/validators.py:134 | keys of the data that name no field do not affect the result |
| ReportModel.Lookup | src/smart_nippo/core/models/report.py:17-19 | `dict.get`: the value under the key, or none when absent |
| ReportModel.Report.New | src/smart_nippo/core/models/report.py:8-15 | a new report has no id or timestamps and holds the given template and data |
| ReportModel.Report.GetFieldValue | src/smart_nippo/core/models/report.py:17-19 | the stored value under the name, or none when absent |
| ReportModel.Report.SetFieldValue | src/smart_nippo/core/models/report.py:21-23 | the name now maps to the value, every other name keeps its value, and nothing else changes |
| ReportModel.Report.GetDate | src/smart_nippo/core/models/report.py:25-27 | the value under `date` |
| ReportModel.Report.GetProject | src/smart_nippo/core/models/report.py:29-31 | the value under `project` |
| DbModels.StoreOptions | src/smart_nippo/core/database/models.py:71-77 | no column exactly for no options or an empty list; otherwise JSON text that decodes to the options |
| DbModels.LoadOptions | src/smart_nippo/core/database/models.py:64-69 | an empty or missing column gives no options |
| DbModels.OptionsRoundTrip | src/smart_nippo/core/database/models.py:64-77 | options written and read back are the same, except that an empty list reads back as none |
| DbModels.TemplateFieldDb.constructor | src/smart_nippo/core/database/models.py:44-59 | a new field row takes the column defaults |
| DbModels.TemplateFieldDb.SetOptions | src/smart_nippo/core/database/models.py:71-77 | the options setter writes the JSON column, reads back as the options, and changes no other column |
| DbModels.ReportDb.constructor | src/smart_nippo/core/database/models.py:105-121 | a new report row holds the data given |
| DbModels.ReportDb.SetData | src/smart_nippo/core/database/models.py:134-137 | the data setter stores JSON text that reads back as the data, and changes no other column |
| DbModels.ReportDb.GetFieldValue | src/smart_nippo/core/database/models.py:139-141 | `dict.get` on the decoded data: the value under the name, or none when the key is absent |
| DbModels.ReportDb.SetFieldValue | src/smart_nippo/core/database/models.py:143-147 | decode, set one key, encode: the name maps to the value and every other name keeps its value |
| DbModels.ReportDb.GetDate | src/smart_nippo/core/database/models.py:149-151 | the decoded value under `date` |
| DbModels.ReportDb.GetProjectName | src/smart_nippo/core/database/models.py:153-155 | the decoded value under `project` |
| Store.FieldsToRows | src/smart_nippo/core/services/template_service.py:57-71 | one field row per field, in order |
| Store.FieldRowRoundTrip | src/smart_nippo/core/services/template_service.py:259-269 | a field written as a row reads back as the same field, except that empty options read back as none; a valid field gives a valid row |
| Store.FieldsRoundTrip | src/smart_nippo/core/services/template_service.py:257-270 | all fields written as rows read back in the same order |
| Store.Normalized | src/smart_nippo/core/database/models.py:74-77 | reading back keeps name and order, turns empty options into none, and keeps the type constraints |
| Store.FieldOrderIsPreorder | src/smart_nippo/core/services/template_service.py:258 | ordering fields by `order` is a total preorder |
| Store.SortThenRead | src/smart_nippo/core/services/template_service.py:258-270 | sorting rows by `order` and then reading them equals reading and then sorting |
| Store.ToModel | src/smart_nippo/core/services/template_service.py:255-280 | a template is built from its row exactly when its field names are unique; it carries the row's columns and its fields sorted by `order` |
| Store.ToModelFields | src/smart_nippo/core/services/template_service.py:258 | the built fields are sorted, a permutation of the rows, and fields of equal order keep row order |
| Store.WrittenTemplateReadsBack | src/smart_nippo/core/services/template_service.py:56-76 | fields written in display order read back as the same fields |
| Store.NextTemplateId | src/smart_nippo/core/database/models.py:21 | the auto-incremented id exceeds every existing id, and is 1 in an empty table |
| Store.NextReportId | src/smart_nippo/core/database/models.py:110 | the same for reports |
| Store.TemplateIndex | src/smart_nippo/core/services/template_service.py:147 | `filter_by(id=…).first()`: the row with that id, or none exactly when no row has it |
| Store.DefaultIndex | src/smart_nippo/core/services/template_service.py:110 | `filter_by(is_default=True).first()`: a default row, or none exactly when there is none |
| Store.AppendTemplateValid | src/smart_nippo/core/services/template_service.py:48-54 | appending a new row with the next id keeps the template table valid |
| Store.TemplatesValidLater | src/smart_nippo/core/services/template_service.py:73 | a valid table stays valid as the clock advances |
| Store.ReportsValidKept | src/smart_nippo/core/database/models.py:111 | reports stay valid when every template they reference remains |
| Store.Database.constructor | src/smart_nippo/core/database/init.py:10-16 | freshly created tables are empty and valid |
| Store.Commit | src/smart_nippo/core/services/template_service.py:73 | `session.commit()` installs the new tables and ticks the clock |
| Store.StandardTemplateRow | src/smart_nippo/core/database/init.py:31-66 | the standard template's row is the default with the given id and time |
| Store.StandardTemplateRowValid | src/smart_nippo/core/database/init.py:47-64 | its field rows are valid |
| Store.AppendTemplate | src/smart_nippo/core/database/init.py:43-66 | inserting a row appends it, ticks the clock, and keeps the tables valid |
| Store.InitDatabase | src/smart_nippo/core/database/init.py:19-28 | with no default template, the standard template is appended; otherwise nothing changes; afterwards a default exists |
| TemplateService.NameIndex | src/smart_nippo/core/services/template_service.py:36 | the first row with that name, or none exactly when no row has it |
| TemplateService.ConvertAt | src/smart_nippo/core/services/template_service.py:102-104 | a row found is built into its template, failing exactly when its field names repeat |
| TemplateService.GetTemplate | src/smart_nippo/core/services/template_service.py:78-104 | the id takes precedence over the name; nothing found exactly when no row matches; a row found is handed out exactly when its template can be built, and has that id or name |
| TemplateService.GetDefaultTemplate | src/smart_nippo/core/services/template_service.py:106-113 | none exactly when no template is the default; otherwise a default template, handed out exactly when it can be built |
| TemplateService.ListTemplates | src/smart_nippo/core/services/template_service.py:115-120 | every template built, in table order, or the error when one cannot be built |
| TemplateService.ClearDefaultsValid | src/smart_nippo/core/services/template_service.py:43-45 | clearing every default flag keeps ids, names and fields, leaves no default, and keeps the table valid |
| TemplateService.CreatedTablesShape | src/smart_nippo/core/services/template_service.py:40-54 | creation appends the new row with the next id and keeps every existing id and name; a new default clears the others |
| TemplateService.CreatedTablesValid | src/smart_nippo/core/services/template_service.py:40-73 | the tables after creation are valid |
| TemplateService.CreatedTablesFindId | src/smart_nippo/core/services/template_service.py:48-54 | the new template is found by its id |
| TemplateService.CreatedTablesFindName | src/smart_nippo/core/services/template_service.py:48-54 | the new template is the first one with its name |
| TemplateService.CreatedTablesFindDefault | src/smart_nippo/core/services/template_service.py:41-51 | a template created as the default is the one default found |
| TemplateService.CreatedTablesDistinct | src/smart_nippo/core/services/template_service.py:36-38 | creation keeps template names distinct |
| TemplateService.CreatedTemplateReadsBack | src/smart_nippo/core/services/template_service.py:56-76 | the new template reads back exactly when its field names are unique, with its fields sorted by `order` |
| TemplateService.CreatedTemplateFound | src/smart_nippo/core/services/template_service.py:73-76 | the created template is built exactly when its names are unique, and is then found by id, by name and as the default |
| TemplateService.CreateTemplate | src/smart_nippo/core/services/template_service.py:12-76 | a taken name is refused with nothing changed; otherwise the row is stored, and the template is returned with its id, columns and sorted fields, or refused after storing when field names repeat |
| TemplateService.AddTemplateRow | src/smart_nippo/core/services/template_service.py:40-73 | the stored tables are exactly the created tables, and the tables stay valid |
| TemplateService.UpdatedRowFacts | src/smart_nippo/core/services/template_service.py:151-193 | the updated row keeps id and creation time, takes each given attribute, and gets a new update time exactly when a column changed value |
| TemplateService.UpdatedOthers | src/smart_nippo/core/services/template_service.py:163-169 | every other row is unchanged, except that making a template the default clears another default |
| TemplateService.UpdatedTablesValid | src/smart_nippo/core/services/template_service.py:122-195 | the tables after an update are valid |
| TemplateService.UpdatedIdsAndTimes | src/smart_nippo/core/services/template_service.py:122-195 | ids are kept, and creation and update times stay ordered |
| TemplateService.UpdatedFieldsValid | src/smart_nippo/core/services/template_service.py:172-193 | new fields replace the old rows and are valid rows |
| TemplateService.UpdatedAtMostOneDefault | src/smart_nippo/core/services/template_service.py:163-169 | at most one default remains |
| TemplateService.UpdatedDefaults | src/smart_nippo/core/services/template_service.py:163-169 | made the default, the template is the only default; unset, it stops being one and the others keep their flags |
| TemplateService.UpdatedNamesDistinct | src/smart_nippo/core/services/template_service.py:151-156 | an update that is not refused keeps template names distinct |
| TemplateService.UpdatedFound | src/smart_nippo/core/services/template_service.py:196 | the updated template is found by its id, and as the default when made one |
| TemplateService.ApplyUpdate | src/smart_nippo/core/services/template_service.py:151-195 | the stored tables are exactly the updated tables, and they stay valid |
| TemplateService.ConvertRow | src/smart_nippo/core/services/template_service.py:196 | builds the template of one row, as a lookup would |
| TemplateService.UpdateTemplate | src/smart_nippo/core/services/template_service.py:122-196 | an unknown id or a taken new name is refused with nothing changed; otherwise the update is stored, and the template is returned exactly when the stored row can be built: when the new fields, or else the kept fields, have unique names |
| TemplateService.DefaultSetIsUpdate | src/smart_nippo/core/services/template_service.py:243-249 | setting the default is the update that only sets the default flag |
| TemplateService.SetDefaultTemplate | src/smart_nippo/core/services/template_service.py:224-252 | an unknown id is refused with nothing changed; otherwise the template becomes the one and only default and is returned as the default |
| TemplateService.ReportUsing | src/smart_nippo/core/database/models.py:39-41 | a report written with the template, or none exactly when there is none |
| TemplateService.RemovedAtMostOneDefault | src/smart_nippo/core/services/template_service.py:220 | removing a row keeps at most one default |
| TemplateService.RemovedIds | src/smart_nippo/core/services/template_service.py:220 | after removal the id is gone and every other id remains |
| TemplateService.RemovedTablesValid | src/smart_nippo/core/services/template_service.py:220-221 | removing a template no report uses keeps the tables valid |
| TemplateService.RemovedKeeps | src/smart_nippo/core/services/template_service.py:217-220 | removing a template that is not the default keeps the default and keeps names distinct |
| TemplateService.RemoveTemplateRow | src/smart_nippo/core/services/template_service.py:220-221 | the row is removed, the clock ticks, and the tables stay valid |
| TemplateService.DeleteTemplate | src/smart_nippo/core/services/template_service.py:198-222 | false for an unknown id; the default is refused; a template still in use is refused; otherwise it is removed; the default always survives |
| TemplateService.ValidateTemplateData | src/smart_nippo/core/services/template_service.py:282-319 | the complaints are the name, field-list, duplicate and per-field checks, in order |
| TemplateService.AddFieldIssues | src/smart_nippo/core/services/template_service.py:308-317 | the loop appends each field's complaints in turn |
| TemplateService.FieldIssuesMembers | src/smart_nippo/core/services/template_service.py:309-317 | a field's complaints are exactly those it earns at its position |
| TemplateService.FieldIssuePositions | src/smart_nippo/core/services/template_service.py:308-317 | each per-field complaint appears exactly for the positions of the fields that earn it |
| TemplateService.FieldIssuesEmpty | src/smart_nippo/core/services/template_service.py:308-317 | no per-field complaint exactly when every field has a name, a label and, for a selection, options |
| TemplateService.TemplateIssuesEmpty | src/smart_nippo/core/services/template_service.py:293-319 | no complaint exactly when the name is not blank, there are fields, their names are unique, and each field is complete |
| TemplateService.RepeatedNamesIssue | src/smart_nippo/core/services/template_service.py:303-306 | the duplicate complaint appears exactly when the template model would refuse the fields |
| TemplateService.OptionsIssue | src/smart_nippo/core/services/template_service.py:314-317 | the missing-options complaint names exactly the selection fields the field model would refuse |
| TemplateService.SelectionRefusedIff | src/smart_nippo/core/models/template.py:27-28 | a selection field is refused by the field model exactly when it lacks options |
| ReportService.StoredText | src/smart_nippo/core/services/report_service.py:59 | `data_json ->> key`: the stored value under the key, or null when absent |
| ReportService.ReportIndex | src/smart_nippo/core/services/report_service.py:149 | the row with the report id, or none exactly when there is none |
| ReportService.FiledIndex | src/smart_nippo/core/services/report_service.py:56-61 | a report of the template filed under the date text, or none exactly when there is none |
| ReportService.Deliver | src/smart_nippo/core/services/report_service.py:301-313 | a report is handed out, unchanged, exactly when its template can be built |
| ReportService.ResolveDate | src/smart_nippo/core/services/report_service.py:43-52 | the date given; else the data's `date` when it parses; else today |
| ReportService.ResolvedDateOfIsoData | src/smart_nippo/core/services/report_service.py:46-48 | data holding an ISO date are filed under that date |
| ReportService.UndatedNeverConflicts | src/smart_nippo/core/services/report_service.py:56-61 | a report without a date never blocks a later one |
| ReportService.AppendReportValid | src/smart_nippo/core/services/report_service.py:66-72 | appending a new report with the next id keeps the report table valid |
| ReportService.CreateReport | src/smart_nippo/core/services/report_service.py:18-75 | an unknown template or a report of the same template on the resolved date is refused with nothing changed; otherwise one fresh report holding the data is appended and handed out |
| ReportService.FiledReports | src/smart_nippo/core/services/report_service.py:110 | exactly the reports filed under the date, in table order |
| ReportService.PickAmong | src/smart_nippo/core/services/report_service.py:111-122 | none exactly for no candidates; otherwise a candidate, one of the default template whenever there is one |
| ReportService.PickByDate | src/smart_nippo/core/services/report_service.py:109-122 | none exactly when no report is filed under the date; otherwise such a report, preferring the default template's |
| ReportService.PickFirstDefault | src/smart_nippo/core/services/report_service.py:115-118 | the first candidate of the default template is the one picked |
| ReportService.PickFirstWithoutDefault | src/smart_nippo/core/services/report_service.py:119-120 | with no default candidate, the first one is picked |
| ReportService.PickPrefersDefault | src/smart_nippo/core/services/report_service.py:113-118 | a report of the default template filed that day makes the pick one of the default template |
| ReportService.PickReport | src/smart_nippo/core/services/report_service.py:110-122 | the loop picks what the specification picks |
| ReportService.GetReport | src/smart_nippo/core/services/report_service.py:78-128 | the id takes precedence, then the date with or without a template; nothing found exactly when nothing matches; a report found is returned exactly when its template can be built; nothing changes |
| ReportService.ReplaceReportValid | src/smart_nippo/core/services/report_service.py:154-156 | replacing a report's data and update time keeps the table valid |
| ReportService.ReplaceReport | src/smart_nippo/core/services/report_service.py:154-158 | the report's data and update time are replaced, and the clock ticks |
| ReportService.UpdateReport | src/smart_nippo/core/services/report_service.py:131-159 | an unknown id is refused with nothing changed; without data nothing changes; with data only that report's data and update time change |
| ReportService.RemoveReportValid | src/smart_nippo/core/services/report_service.py:177 | removing a report keeps the table valid and the id gone |
| ReportService.DeleteReport | src/smart_nippo/core/services/report_service.py:162-179 | false for an unknown id; otherwise that report is removed and true returned; afterwards no report has the id |
| ReportService.FilteredRows | src/smart_nippo/core/services/report_service.py:209-236 | a report passes the filters exactly when it meets every given one |
| ReportService.FilteredRowsIncreasing | src/smart_nippo/core/services/report_service.py:209-236 | filtering keeps table order |
| ReportService.DateLeIsPreorder | src/smart_nippo/core/services/report_service.py:239-242 | ordering by date text, ascending or descending, is a total preorder |
| ReportService.KnownOrders | src/smart_nippo/core/services/report_service.py:239-246 | the four order names select the four orderings |
| ReportService.OrdersArePreorders | src/smart_nippo/core/services/report_service.py:239-246 | every known ordering is a total preorder |
| ReportService.OrderedRows | src/smart_nippo/core/services/report_service.py:238-246 | ordering keeps exactly the same reports |
| ReportService.Limited | src/smart_nippo/core/services/report_service.py:248-250 | a positive limit keeps a prefix of that length; no limit, zero or negative keeps all |
| ReportService.ListedRows | src/smart_nippo/core/services/report_service.py:206-252 | every listed report passes the filters; without a limit every passing report is listed |
| ReportService.ListedRowsSorted | src/smart_nippo/core/services/report_service.py:238-252 | a known ordering gives a sorted listing |
| ReportService.ListedRowsInTableOrder | src/smart_nippo/core/services/report_service.py:238-252 | ties, and the listing without a known ordering, keep table order |
| ReportService.ListedRowsFirstInOrder | src/smart_nippo/core/services/report_service.py:238-250 | with a positive limit and a known ordering, the listing holds min(limit, passing reports) reports, and no passing report left out comes before a kept one in that ordering |
| ReportService.DeliverAll | src/smart_nippo/core/services/report_service.py:253-256 | all reports handed out exactly when each one's template can be built |
| ReportService.ListReports | src/smart_nippo/core/services/report_service.py:182-256 | the listed reports, or the error when one of their templates cannot be built |
| ReportService.RangeRowsExact | src/smart_nippo/core/services/report_service.py:259-280 | the range listing holds exactly the reports between the dates, of the template if given |
| ReportService.GetReportByDateRange | src/smart_nippo/core/services/report_service.py:259-280 | exactly the reports in the range, in ascending date order |
| ReportService.SearchRowsMatch | src/smart_nippo/core/services/report_service.py:283-298 | every result contains the keyword; without a limit every such report is found; with a positive limit, exactly min(limit, matches) are found and no match left out is newer than one found |
| ReportService.SearchReports | src/smart_nippo/core/services/report_service.py:283-298 | the search results contain the keyword, run newest first, and with a positive limit are the min(limit, matches) newest matches (no match left out is newer than one returned); they are handed out exactly when every listed report's template can be built |
| ReportService.GetMonthlyReports | src/smart_nippo/core/services/report_service.py:331-350 | refused exactly when the month has no bounds; otherwise reports of the table in date order, handed out exactly when every report within the bounds has a template that can be built |
| ReportService.BoundedListing | src/smart_nippo/core/services/report_service.py:343-350 | the date-range listing between a month's bounds, or the error when it has none |
| ReportService.MonthlyReportsByDate | src/smart_nippo/core/services/report_service.py:342-350 | a report with an ISO date is listed exactly when its date is in that month |
| ReportService.ProjectKey | src/smart_nippo/core/services/report_service.py:393 | the report's project, or 未分類 when missing or empty |
| ReportService.StatisticsOf | src/smart_nippo/core/services/report_service.py:353-403 | the total is the number of listed reports, and each count is that key's number of reports; the counts add up to the total |
| ReportService.GetStatistics | src/smart_nippo/core/services/report_service.py:353-403 | the method computes the statistics of the specification |
| ReportService.CountReports | src/smart_nippo/core/services/report_service.py:387-394 | the loop's counts are the tallies of the template names and project keys |

## Left out

- Sessions, the SQL engine and commits are not modelled. Each service call is one
  atomic step on the two tables, and there is no concurrency.
- `datetime.now()` and `datetime.utcnow()` are not modelled. Timestamps come from a
  counter that ticks once per committed change. The local-time `updated_at` that
  `update_report` writes is the same counter.
- `date.today()` is a parameter.
- SQL gives no order without `ORDER BY`. The model reads rows in id order: `.first()`
  finds the lowest id, and sorting ties keep id order.
- `ReportDB.data_json` is modelled by the dictionary it decodes to. The JSON encoding of
  the column is proved separately, in `Json.EncodeDocument` and `DbModels.ReportDb`.
- `Json.DecodeObject` accepts only text in the layout `json.dumps` writes. Other JSON
  that `json.loads` would accept is not modelled.
- `Json.EncodeDocument` picks the key order itself. A dictionary's insertion order is not
  modelled, and the round trip does not depend on it.
- Values in the report data are strings or null. Other JSON values are not modelled.
- `ReportService.validate_report_data` is left out because it calls `validate_report_data`
  with its arguments swapped. `validators.validate_report_data` itself is modelled.
- `ReportService.StatisticsOf`, `ReportService.GetStatistics` and
  `ReportService.CountReports` model the counts `get_statistics` evidently intends, not
  what it does. The report model has no `template` attribute, and pydantic drops the
  `template=` argument that `_db_to_model` passes. It has no `get_project_name` either.
  So `get_statistics` raises `AttributeError` on its first report
  (src/smart_nippo/core/services/report_service.py:389) whenever the listing is non-empty. Only the empty listing
  returns (src/smart_nippo/core/services/report_service.py:372-381). The model counts the name of the template found
  by the report's `template_id`, and the report's `project` value read directly from its
  data.
- `ReportService._db_to_model` also passes `template=`, which the report model ignores.
  It is modelled as handing out the report once its template has been built.
- Projects (`ProjectDB`, `project_id`) are left out. No core operation reads or writes
  them.
- The CLI, input handlers, config and clipboard are left out.
- `Strings.ContainsIsInfix`: requires a term without `%` or `_`. With wildcards, `ILIKE`
  is still modelled exactly by `Strings.Like`, but no infix reading is stated.
- `Strings.Lower` folds only ASCII letters, as SQLite's `ILIKE` does. Unicode case
  folding is not modelled.
- Digits are ASCII `0`-`9` only. Python's `int` and `strptime` also accept other Unicode
  digits.
- `Calendar.IsoFormat` writes four-digit years. `strftime("%Y")` on years below 1000 is
  platform-dependent and is taken to zero-pad.
- `TemplateService.CreateTemplate`: requires every field to meet its type constraints.
  A `TemplateField` object cannot exist otherwise, because pydantic runs the check when
  it is built. The same precondition is on `UpdateTemplate` and `ApplyUpdate`.
- `TemplateService.DeleteTemplate`: deleting a template that reports still use is read
  as refused with nothing changed (`TemplateInUse`). In the source the ORM would null
  the reports' non-nullable `template_id`, so the commit fails and is rolled back.
- `TemplateService.UpdatedRowFacts`: the update time is modelled as moving only when a
  column of the template row takes a different value, as the ORM's `onupdate` does.
  Replacing the field rows alone leaves it.
- `ReportService.ListedRows`: completeness is stated only without a positive limit. With
  a limit and a known ordering, which rows are kept is stated by
  `ReportService.ListedRowsFirstInOrder`; with a limit and an unknown ordering, `Limited`
  keeps a prefix of the passing reports, which `ListedRowsInTableOrder` puts in table order.
- `ReportService.GetMonthlyReports`: the month membership is proved, in
  `MonthlyReportsByDate`, only for reports whose stored date is ISO text. Other date
  texts are compared as text, as in SQLite.
- `ReportService.SearchReports`: `limit` is an explicit argument. The caller passes 50
  for Python's default.
- `TemplateModel.DefaultTemplateFields`: does not state that each field's default value
  passes that field's validator, except for the progress field.
- `Validators.ValidateIdempotent`: requires a non-empty accepted value. An empty one is
  treated as missing and becomes the field's default.
- `GetTemplate`, `GetDefaultTemplate`, `ListTemplates`, `ListReports`,
  `GetReportByDateRange`, `SearchReports` and `GetMonthlyReports` are functions over the
  tables rather than methods on the database. They change nothing.
