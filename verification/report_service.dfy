/** The report service: filing a report under a date, reading one back by id or by date,
    replacing its data, deleting it, listing reports through the date, template, project
    and keyword filters, and the monthly and statistical views built on the listing.
    Each call is one transaction on the database. */
module ReportService {
  import opened Wrappers
  import opened Strings
  import opened Calendar
  import opened ReportModel
  import opened DbModels
  import opened TemplateModel
  import opened Query
  import opened Store
  import opened TemplateService

  // ---------------------------------------------------------------------------
  // Reading a stored report
  // ---------------------------------------------------------------------------

  /** `data_json ->> key`: the text a report's stored data holds under `key`, or SQL NULL
      (`None`) when the key is absent or its value is null. */
  function StoredText(r: ReportRow, key: string): (v: Option<string>)
    ensures key !in r.data ==> v.None?
    ensures key in r.data ==> v == r.data[key]
  {
    Lookup(r.data, key)
  }

  /** The report is filed under `dateText`: its stored `date` is exactly that text. */
  predicate FiledUnder(r: ReportRow, dateText: string)
  {
    StoredText(r, "date") == Some(dateText)
  }

  /** The first report with the given id. */
  function ReportIndex(rs: seq<ReportRow>, id: int): (r: Option<nat>)
    ensures r.Some? ==> r.value < |rs| && rs[r.value].id == id
    ensures r.None? <==> forall i :: 0 <= i < |rs| ==> rs[i].id != id
  {
    IndexOf(rs, (x: ReportRow) => x.id == id)
  }

  /** The first report written with `templateId` and filed under `dateText`. */
  function FiledIndex(rs: seq<ReportRow>, templateId: int, dateText: string): (r: Option<nat>)
    ensures r.Some? ==> r.value < |rs| && rs[r.value].templateId == templateId && FiledUnder(rs[r.value], dateText)
    ensures r.None? <==> forall i :: 0 <= i < |rs| ==> !(rs[i].templateId == templateId && FiledUnder(rs[i], dateText))
  {
    IndexOf(rs, (x: ReportRow) => x.templateId == templateId && FiledUnder(x, dateText))
  }

  /** `_db_to_model` for a report: the report is handed out as stored once its template
      has been built from its rows, which fails when two of the template's fields share a
      name. */
  function Deliver(ts: seq<TemplateRow>, r: ReportRow): (res: Result<ReportRow, ServiceError>)
    requires TemplateFieldsValid(ts) && TemplateIndex(ts, r.templateId).Some?
    ensures RowsValid(ts[TemplateIndex(ts, r.templateId).value].fields)
    ensures res.Ok? <==> ToModel(ts[TemplateIndex(ts, r.templateId).value]).Ok?
    ensures res.Ok? ==> res.value == r
    ensures res.Err? ==> res.error == InvalidTemplate(DuplicateFieldNames)
  {
    match ConvertRow(ts, TemplateIndex(ts, r.templateId).value)
    case Ok(_) => Ok(r)
    case Err(e) => Err(e)
  }

  // ---------------------------------------------------------------------------
  // Filing a report
  // ---------------------------------------------------------------------------

  /** The date a new report is filed under: the date asked for; else the report's own
      `date` value when it is non-empty text that parses as `YYYY-MM-DD`; else today. */
  function ResolveDate(data: Document, reportDate: Option<ValidDate>, today: ValidDate): (d: ValidDate)
    ensures reportDate.Some? ==> d == reportDate.value
    ensures reportDate.None? && Lookup(data, "date").Some? && ParseIso(Lookup(data, "date").value).Some? ==>
              d == ParseIso(Lookup(data, "date").value).value
    ensures reportDate.None? && (Lookup(data, "date").None? || ParseIso(Lookup(data, "date").value).None?) ==>
              d == today
  {
    if reportDate.Some? then reportDate.value
    else
      var given := Lookup(data, "date");
      if given.Some? && given.value != "" then
        match ParseIso(given.value)
        case Some(parsed) => parsed
        case None => today
      else today
  }

  /** A report whose own `date` is already the ISO form of a date is filed under that
      very text, so the duplicate check compares like with like. */
  lemma ResolvedDateOfIsoData(data: Document, d: ValidDate, today: ValidDate)
    requires Lookup(data, "date") == Some(IsoFormat(d))
    ensures ResolveDate(data, None, today) == d
    ensures IsoFormat(ResolveDate(data, None, today)) == IsoFormat(d)
  {
    ParseIsoFormat(d);
  }

  /** The row a new report is stored as: the next id, the template, the data exactly as
      given, stamped with the current time. */
  predicate IsNewReportRow(row: ReportRow, rs: seq<ReportRow>, templateId: int, data: Document, now: int)
    requires Increasing(rs, ReportId)
  {
    row.id == NextReportId(rs) && row.templateId == templateId && row.data == data
    && row.createdAt == now && row.updatedAt == now
  }

  /** Appending a new report for an existing template keeps the report table valid. */
  lemma AppendReportValid(rs: seq<ReportRow>, ts: seq<TemplateRow>, row: ReportRow, now: int)
    requires ReportsValid(rs, ts, now)
    requires row.id == NextReportId(rs) && 1 <= row.id && row.createdAt == now && row.updatedAt == now
    requires TemplateIndex(ts, row.templateId).Some?
    ensures ReportsValid(rs + [row], ts, now + 1)
  {
    var rs' := rs + [row];
    forall i, j | 0 <= i < j < |rs'| ensures rs'[i].id < rs'[j].id && rs'[i].createdAt < rs'[j].createdAt {
      if j == |rs| {
        assert rs'[i] in rs;
      }
    }
    assert forall i :: 0 <= i < |rs| ==> rs'[i] == rs[i];
  }

  /** A report whose data has no `date` (or a null one) never stands in the way of a later
      report: the duplicate check finds exactly what it found without it. */
  lemma UndatedNeverConflicts(rs: seq<ReportRow>, row: ReportRow, templateId: int, dateText: string)
    requires StoredText(row, "date").None?
    ensures FiledIndex(rs + [row], templateId, dateText) == FiledIndex(rs, templateId, dateText)
  {
    var rs' := rs + [row];
    assert forall i :: 0 <= i < |rs| ==> rs'[i] == rs[i];
    assert !FiledUnder(rs'[|rs|], dateText);
  }

  /** `create_report`. An unknown template is refused. The report is filed under the
      resolved date, and refused when a report of the same template is already filed
      under that date's text. Otherwise the data is stored as given (the resolved date is
      not written into it) with a fresh id, and the report is handed out once its
      template has been built. Templates never change. */
  method CreateReport(db: Database, templateId: int, data: Document, reportDate: Option<ValidDate>, today: ValidDate)
    returns (r: Result<ReportRow, ServiceError>)
    requires db.Valid()
    modifies db
    ensures db.Valid() && db.templates == old(db.templates)
    ensures TemplateIndex(db.templates, templateId).None? ==>
              r == Err(TemplateNotFound(templateId)) && db.reports == old(db.reports) && db.clock == old(db.clock)
    ensures TemplateIndex(db.templates, templateId).Some? ==>
              var dateText := IsoFormat(ResolveDate(data, reportDate, today));
              && (FiledIndex(old(db.reports), templateId, dateText).Some? ==>
                    r == Err(ReportExists(dateText)) && db.reports == old(db.reports) && db.clock == old(db.clock))
              && (FiledIndex(old(db.reports), templateId, dateText).None? ==>
                    && |db.reports| == |old(db.reports)| + 1
                    && db.reports[..|old(db.reports)|] == old(db.reports)
                    && IsNewReportRow(db.reports[|old(db.reports)|], old(db.reports), templateId, data, old(db.clock))
                    && db.clock == old(db.clock) + 1
                    && (r.Ok? <==> ToModel(db.templates[TemplateIndex(db.templates, templateId).value]).Ok?)
                    && (r.Ok? ==> r.value == db.reports[|old(db.reports)|]))
    ensures r.Ok? ==> forall x :: x in old(db.reports) ==> x.id != r.value.id
    ensures r.Err? ==> r.error == TemplateNotFound(templateId) || r.error.ReportExists?
                       || r.error == InvalidTemplate(DuplicateFieldNames)
  {
    var found := TemplateIndex(db.templates, templateId);
    if found.None? {
      return Err(TemplateNotFound(templateId));
    }
    var date := ResolveDate(data, reportDate, today);
    var dateText := IsoFormat(date);
    if FiledIndex(db.reports, templateId, dateText).Some? {
      return Err(ReportExists(dateText));
    }
    var stored := new ReportDb(templateId, data);
    var row := ReportRow(NextReportId(db.reports), templateId, stored.Data(), db.clock, db.clock);
    AppendReportValid(db.reports, db.templates, row, db.clock);
    TemplatesValidLater(db.templates, db.clock, db.clock + 1);
    ghost var rs := db.reports;
    Commit(db, db.templates, db.reports + [row]);
    assert db.reports[..|rs|] == rs && db.reports[|rs|] == row;
    r := Deliver(db.templates, row);
  }

  // ---------------------------------------------------------------------------
  // Reading a report back
  // ---------------------------------------------------------------------------

  /** The report was written with the template that is currently the default. */
  predicate UsesDefault(ts: seq<TemplateRow>, r: ReportRow)
  {
    match TemplateIndex(ts, r.templateId)
    case Some(k) => ts[k].isDefault
    case None => false
  }

  /** The report `get_report` picks for a date when no template is named: among the
      reports filed under that date, the first written with the default template, or
      else the first. */
  function PickByDate(ts: seq<TemplateRow>, rs: seq<ReportRow>, dateText: string): (r: Option<ReportRow>)
    ensures r.None? <==> forall x :: x in rs ==> !FiledUnder(x, dateText)
    ensures r.Some? ==> r.value in rs && FiledUnder(r.value, dateText)
    ensures r.Some? && (exists x :: x in rs && FiledUnder(x, dateText) && UsesDefault(ts, x)) ==> UsesDefault(ts, r.value)
  {
    var ms := FiledReports(rs, dateText);
    assert ms != [] ==> ms[0] in ms;
    PickAmong(ts, ms)
  }

  /** The reports filed under `dateText`, in table order. */
  function FiledReports(rs: seq<ReportRow>, dateText: string): (ms: seq<ReportRow>)
    ensures forall x :: x in ms <==> x in rs && FiledUnder(x, dateText)
  {
    Filter(rs, (x: ReportRow) => FiledUnder(x, dateText))
  }

  /** The first of `ms` written with the default template, or else the first of `ms`. */
  function PickAmong(ts: seq<TemplateRow>, ms: seq<ReportRow>): (r: Option<ReportRow>)
    ensures r.None? <==> ms == []
    ensures r.Some? ==> r.value in ms
    ensures r.Some? && (exists x :: x in ms && UsesDefault(ts, x)) ==> UsesDefault(ts, r.value)
  {
    if ms == [] then None
    else
      match IndexOf(ms, (x: ReportRow) => UsesDefault(ts, x))
      case Some(i) => Some(ms[i])
      case None => Some(ms[0])
  }

  lemma PickFirstDefault(ts: seq<TemplateRow>, ms: seq<ReportRow>, i: nat)
    requires i < |ms| && UsesDefault(ts, ms[i]) && forall j :: 0 <= j < i ==> !UsesDefault(ts, ms[j])
    ensures PickAmong(ts, ms) == Some(ms[i])
  {
    var k := IndexOf(ms, (x: ReportRow) => UsesDefault(ts, x));
    assert k.Some? && k.value == i;
  }

  lemma PickFirstWithoutDefault(ts: seq<TemplateRow>, ms: seq<ReportRow>)
    requires ms != [] && forall j :: 0 <= j < |ms| ==> !UsesDefault(ts, ms[j])
    ensures PickAmong(ts, ms) == Some(ms[0])
  {
    var k := IndexOf(ms, (x: ReportRow) => UsesDefault(ts, x));
    assert k.None?;
  }

  /** With a single default template, a date that one of its reports is filed under
      picks a report of the default template. */
  lemma PickPrefersDefault(ts: seq<TemplateRow>, rs: seq<ReportRow>, dateText: string, x: ReportRow)
    requires x in rs && FiledUnder(x, dateText) && UsesDefault(ts, x) && AtMostOneDefault(ts)
    ensures PickByDate(ts, rs, dateText).Some?
    ensures PickByDate(ts, rs, dateText).value.templateId == x.templateId
  {
    var p := PickByDate(ts, rs, dateText).value;
    var k, k' := TemplateIndex(ts, x.templateId).value, TemplateIndex(ts, p.templateId).value;
    assert ts[k].isDefault && ts[k'].isDefault;
  }

  /** `get_report`. An id takes precedence and finds the report with that id. Failing
      that, a date finds a report filed under it: of the named template when one is
      named, else the one `PickByDate` chooses. With neither, nothing is found. A report
      found is handed out once its template has been built. Nothing changes. */
  method GetReport(db: Database, reportId: Option<int>, reportDate: Option<ValidDate>, templateId: Option<int>)
    returns (r: Result<Option<ReportRow>, ServiceError>)
    requires db.Valid()
    ensures r.Ok? && r.value.Some? ==> r.value.value in db.reports
    ensures reportId.Some? ==>
              && (r == Ok(None) <==> ReportIndex(db.reports, reportId.value).None?)
              && (r.Ok? && r.value.Some? ==> r.value.value == db.reports[ReportIndex(db.reports, reportId.value).value])
              && (ReportIndex(db.reports, reportId.value).Some? ==>
                    (r.Ok? <==> Deliver(db.templates, db.reports[ReportIndex(db.reports, reportId.value).value]).Ok?))
    ensures reportId.None? && reportDate.None? ==> r == Ok(None)
    ensures reportId.None? && reportDate.Some? && templateId.Some? ==>
              var found := FiledIndex(db.reports, templateId.value, IsoFormat(reportDate.value));
              && (r == Ok(None) <==> found.None?)
              && (r.Ok? && r.value.Some? ==> r.value.value == db.reports[found.value])
              && (found.Some? ==> (r.Ok? <==> Deliver(db.templates, db.reports[found.value]).Ok?))
    ensures reportId.None? && reportDate.Some? && templateId.None? ==>
              var pick := PickByDate(db.templates, db.reports, IsoFormat(reportDate.value));
              && (r == Ok(None) <==> pick.None?)
              && (r.Ok? && r.value.Some? ==> r.value == pick)
              && (pick.Some? ==> (r.Ok? <==> Deliver(db.templates, pick.value).Ok?))
    ensures r.Err? ==> r.error == InvalidTemplate(DuplicateFieldNames)
  {
    var chosen: Option<ReportRow>;
    if reportId.Some? {
      var i := ReportIndex(db.reports, reportId.value);
      chosen := if i.Some? then Some(db.reports[i.value]) else None;
    } else if reportDate.Some? {
      var dateText := IsoFormat(reportDate.value);
      if templateId.Some? {
        var i := FiledIndex(db.reports, templateId.value, dateText);
        chosen := if i.Some? then Some(db.reports[i.value]) else None;
      } else {
        chosen := PickReport(db.templates, db.reports, dateText);
      }
    } else {
      return Ok(None);
    }
    if chosen.None? {
      return Ok(None);
    }
    assert chosen.value in db.reports;
    var delivered := Deliver(db.templates, chosen.value);
    r := match delivered
      case Ok(x) => Ok(Some(x))
      case Err(e) => Err(e);
  }

  /** The date-only search of `get_report`: a single report filed under the date is
      taken; among several, the first written with the default template, or else the
      first. */
  method PickReport(ts: seq<TemplateRow>, rs: seq<ReportRow>, dateText: string) returns (chosen: Option<ReportRow>)
    ensures chosen == PickByDate(ts, rs, dateText)
  {
    var ms := FiledReports(rs, dateText);
    if |ms| == 0 {
      return None;
    }
    var i := 0;
    while i < |ms|
      invariant 0 <= i <= |ms|
      invariant forall j :: 0 <= j < i ==> !UsesDefault(ts, ms[j])
    {
      if UsesDefault(ts, ms[i]) {
        PickFirstDefault(ts, ms, i);
        return Some(ms[i]);
      }
      i := i + 1;
    }
    PickFirstWithoutDefault(ts, ms);
    chosen := Some(ms[0]);
  }

  // ---------------------------------------------------------------------------
  // Replacing a report's data
  // ---------------------------------------------------------------------------

  /** Replacing one report's data and update time keeps the report table valid. */
  lemma ReplaceReportValid(rs: seq<ReportRow>, ts: seq<TemplateRow>, i: nat, data: Document, now: int)
    requires ReportsValid(rs, ts, now) && i < |rs|
    ensures ReportsValid(rs[i := rs[i].(data := data, updatedAt := now)], ts, now + 1)
  {
  }

  /** Replaces the data of the report in row `i` and stamps it with the current time. */
  method ReplaceReport(db: Database, i: nat, data: Document)
    requires db.Valid() && i < |db.reports|
    modifies db
    ensures db.Valid() && db.templates == old(db.templates) && db.clock == old(db.clock) + 1
    ensures db.reports == old(db.reports)[i := old(db.reports)[i].(data := data, updatedAt := old(db.clock))]
  {
    var rs := db.reports[i := db.reports[i].(data := data, updatedAt := db.clock)];
    ReplaceReportValid(db.reports, db.templates, i, data, db.clock);
    TemplatesValidLater(db.templates, db.clock, db.clock + 1);
    Commit(db, db.templates, rs);
  }

  /** `update_report`. An unknown id is refused. Without new data nothing changes;
      with it, the data is replaced wholesale and the update time set, while the id,
      template and creation time stay (no date check is made). The report is handed out
      once its template has been built. */
  method UpdateReport(db: Database, reportId: int, data: Option<Document>) returns (r: Result<ReportRow, ServiceError>)
    requires db.Valid()
    modifies db
    ensures db.Valid() && db.templates == old(db.templates)
    ensures ReportIndex(old(db.reports), reportId).None? ==>
              r == Err(ReportNotFound(reportId)) && db.reports == old(db.reports) && db.clock == old(db.clock)
    ensures ReportIndex(old(db.reports), reportId).Some? ==>
              var i := ReportIndex(old(db.reports), reportId).value;
              && |db.reports| == |old(db.reports)|
              && (forall j :: 0 <= j < |db.reports| && j != i ==> db.reports[j] == old(db.reports)[j])
              && db.reports[i].id == reportId && db.reports[i].templateId == old(db.reports)[i].templateId
              && db.reports[i].createdAt == old(db.reports)[i].createdAt
              && (data.None? ==> db.reports == old(db.reports) && db.clock == old(db.clock))
              && (data.Some? ==> db.reports[i].data == data.value
                                 && db.reports[i].updatedAt == old(db.clock) && db.clock == old(db.clock) + 1)
              && (r.Ok? <==> ToModel(db.templates[TemplateIndex(db.templates, db.reports[i].templateId).value]).Ok?)
              && (r.Ok? ==> r.value == db.reports[i])
    ensures r.Err? ==> r.error == ReportNotFound(reportId) || r.error == InvalidTemplate(DuplicateFieldNames)
  {
    var found := ReportIndex(db.reports, reportId);
    if found.None? {
      return Err(ReportNotFound(reportId));
    }
    var i := found.value;
    if data.Some? {
      ReplaceReport(db, i, data.value);
    }
    r := Deliver(db.templates, db.reports[i]);
  }

  // ---------------------------------------------------------------------------
  // Deleting a report
  // ---------------------------------------------------------------------------

  lemma RemoveReportValid(rs: seq<ReportRow>, ts: seq<TemplateRow>, i: nat, now: int)
    requires ReportsValid(rs, ts, now) && i < |rs|
    ensures ReportsValid(Without(rs, i), ts, now + 1)
    ensures ReportIndex(Without(rs, i), rs[i].id).None?
  {
    WithoutIncreasing(rs, i, ReportId);
    WithoutIncreasing(rs, i, ReportCreated);
    var rs' := Without(rs, i);
    forall j | 0 <= j < |rs'| ensures rs'[j].id != rs[i].id {
      assert Kept(i, j) != i;
    }
  }

  /** `delete_report`: `false` for an unknown id; otherwise the report is removed and the
      answer is `true`. Afterwards no report has that id. */
  method DeleteReport(db: Database, reportId: int) returns (deleted: bool)
    requires db.Valid()
    modifies db
    ensures db.Valid() && db.templates == old(db.templates)
    ensures ReportIndex(old(db.reports), reportId).None? ==>
              !deleted && db.reports == old(db.reports) && db.clock == old(db.clock)
    ensures ReportIndex(old(db.reports), reportId).Some? ==>
              deleted && db.reports == Without(old(db.reports), ReportIndex(old(db.reports), reportId).value)
              && db.clock == old(db.clock) + 1
    ensures ReportIndex(db.reports, reportId).None?
  {
    var found := ReportIndex(db.reports, reportId);
    if found.None? {
      return false;
    }
    RemoveReportValid(db.reports, db.templates, found.value, db.clock);
    TemplatesValidLater(db.templates, db.clock, db.clock + 1);
    Commit(db, db.templates, Without(db.reports, found.value));
    return true;
  }

  // ---------------------------------------------------------------------------
  // Listing reports
  // ---------------------------------------------------------------------------

  /** The arguments of `list_reports`. */
  datatype ListRequest = ListRequest(
    startDate: Option<ValidDate>,
    endDate: Option<ValidDate>,
    templateId: Option<int>,
    projectName: Option<string>,
    keyword: Option<string>,
    limit: Option<int>,
    orderBy: string)

  /** The call with every argument at its default: no filter, no limit, newest date first. */
  const AllReports := ListRequest(None, None, None, None, None, None, "date_desc")

  /** The data keys the keyword is looked for in. */
  const KeywordKeys: seq<string> := ["content", "issues", "tomorrow_plan", "notes"]

  /** An argument that is present and truthy: a non-zero id, a non-empty text. */
  predicate GivenId(x: Option<int>) { x.Some? && x.value != 0 }
  predicate GivenText(x: Option<string>) { x.Some? && x.value != "" }

  /** `data_json ->> key ILIKE '%term%'`: the stored text under `key` contains `term`,
      ignoring ASCII case (with `%` and `_` in `term` acting as wildcards). A NULL never
      matches. */
  predicate TextMatches(r: ReportRow, key: string, term: string)
  {
    StoredText(r, key).Some? && ILike(StoredText(r, key).value, Contains(term))
  }

  predicate OnOrAfter(r: ReportRow, start: ValidDate)
  {
    StoredText(r, "date").Some? && LexLe(IsoFormat(start), StoredText(r, "date").value)
  }

  predicate OnOrBefore(r: ReportRow, end: ValidDate)
  {
    StoredText(r, "date").Some? && LexLe(StoredText(r, "date").value, IsoFormat(end))
  }

  predicate KeywordMatches(r: ReportRow, keyword: string)
  {
    TextMatches(r, "content", keyword) || TextMatches(r, "issues", keyword)
    || TextMatches(r, "tomorrow_plan", keyword) || TextMatches(r, "notes", keyword)
  }

  /** The rows the filters of a listing let through, filter by filter as the query is
      built: the date bounds (compared as text, so a report without a date fails both),
      the template, the project and the keyword. A filter whose argument is absent or
      falsy is skipped. The filters combine with AND: a report gets through exactly when
      it meets every one of them. */
  function FilteredRows(rs: seq<ReportRow>, q: ListRequest): (r: seq<ReportRow>)
    ensures forall x :: x in r <==> x in rs && Selected(q, x)
  {
    var afterStart := if q.startDate.Some? then Filter(rs, (r: ReportRow) => OnOrAfter(r, q.startDate.value)) else rs;
    var afterEnd := if q.endDate.Some? then Filter(afterStart, (r: ReportRow) => OnOrBefore(r, q.endDate.value)) else afterStart;
    var ofTemplate := if GivenId(q.templateId) then Filter(afterEnd, (r: ReportRow) => r.templateId == q.templateId.value) else afterEnd;
    var ofProject := if GivenText(q.projectName) then Filter(ofTemplate, (r: ReportRow) => TextMatches(r, "project", q.projectName.value)) else ofTemplate;
    if GivenText(q.keyword) then Filter(ofProject, (r: ReportRow) => KeywordMatches(r, q.keyword.value)) else ofProject
  }

  /** What the filters of a listing ask of one report, all together. */
  predicate Selected(q: ListRequest, r: ReportRow)
  {
    && (q.startDate.Some? ==> OnOrAfter(r, q.startDate.value))
    && (q.endDate.Some? ==> OnOrBefore(r, q.endDate.value))
    && (GivenId(q.templateId) ==> r.templateId == q.templateId.value)
    && (GivenText(q.projectName) ==> TextMatches(r, "project", q.projectName.value))
    && (GivenText(q.keyword) ==> KeywordMatches(r, q.keyword.value))
  }

  /** Filtering keeps the table order. */
  lemma FilteredRowsIncreasing(rs: seq<ReportRow>, q: ListRequest)
    requires Increasing(rs, ReportId)
    ensures Increasing(FilteredRows(rs, q), ReportId)
  {
    var afterStart := if q.startDate.Some? then Filter(rs, (r: ReportRow) => OnOrAfter(r, q.startDate.value)) else rs;
    var afterEnd := if q.endDate.Some? then Filter(afterStart, (r: ReportRow) => OnOrBefore(r, q.endDate.value)) else afterStart;
    var ofTemplate := if GivenId(q.templateId) then Filter(afterEnd, (r: ReportRow) => r.templateId == q.templateId.value) else afterEnd;
    var ofProject := if GivenText(q.projectName) then Filter(ofTemplate, (r: ReportRow) => TextMatches(r, "project", q.projectName.value)) else ofTemplate;
    if q.startDate.Some? { FilterIncreasing(rs, (r: ReportRow) => OnOrAfter(r, q.startDate.value), ReportId); }
    if q.endDate.Some? { FilterIncreasing(afterStart, (r: ReportRow) => OnOrBefore(r, q.endDate.value), ReportId); }
    if GivenId(q.templateId) { FilterIncreasing(afterEnd, (r: ReportRow) => r.templateId == q.templateId.value, ReportId); }
    if GivenText(q.projectName) { FilterIncreasing(ofTemplate, (r: ReportRow) => TextMatches(r, "project", q.projectName.value), ReportId); }
    if GivenText(q.keyword) { FilterIncreasing(ofProject, (r: ReportRow) => KeywordMatches(r, q.keyword.value), ReportId); }
  }

  /** `ORDER BY data_json ->> 'date'`, ascending: SQLite puts NULL before any text. */
  predicate DateLe(a: ReportRow, b: ReportRow)
  {
    StoredText(a, "date").None?
    || (StoredText(b, "date").Some? && LexLe(StoredText(a, "date").value, StoredText(b, "date").value))
  }

  predicate DateDescLe(a: ReportRow, b: ReportRow) { DateLe(b, a) }
  predicate CreatedLe(a: ReportRow, b: ReportRow) { a.createdAt <= b.createdAt }
  predicate CreatedDescLe(a: ReportRow, b: ReportRow) { b.createdAt <= a.createdAt }

  lemma DateLeIsPreorder()
    ensures TotalPreorder(DateLe) && TotalPreorder(DateDescLe)
  {
    forall a: ReportRow, b: ReportRow ensures DateLe(a, b) || DateLe(b, a) {
      if StoredText(a, "date").Some? && StoredText(b, "date").Some? {
        LexLeTotal(StoredText(a, "date").value, StoredText(b, "date").value);
      }
    }
    forall a: ReportRow, b: ReportRow, c: ReportRow | DateLe(a, b) && DateLe(b, c) ensures DateLe(a, c) {
      if StoredText(a, "date").Some? {
        LexLeTransitive(StoredText(a, "date").value, StoredText(b, "date").value, StoredText(c, "date").value);
      }
    }
  }

  /** The order an `order_by` text asks for; any text but the four known ones adds no
      ORDER BY, and the rows stay in table order. */
  function OrderOf(orderBy: string): Option<(ReportRow, ReportRow) -> bool>
  {
    if orderBy == "date_asc" then Some(DateLe)
    else if orderBy == "date_desc" then Some(DateDescLe)
    else if orderBy == "created_asc" then Some(CreatedLe)
    else if orderBy == "created_desc" then Some(CreatedDescLe)
    else None
  }

  /** The four orders the listing knows, by name. */
  lemma KnownOrders()
    ensures OrderOf("date_asc") == Some(DateLe) && OrderOf("date_desc") == Some(DateDescLe)
    ensures OrderOf("created_asc") == Some(CreatedLe) && OrderOf("created_desc") == Some(CreatedDescLe)
  {
  }

  lemma OrdersArePreorders(orderBy: string)
    ensures OrderOf(orderBy).Some? ==> TotalPreorder(OrderOf(orderBy).value)
  {
    DateLeIsPreorder();
  }

  /** The rows in the requested order. Rows the order ties keep their table order. */
  function OrderedRows(rows: seq<ReportRow>, orderBy: string): (r: seq<ReportRow>)
    ensures forall x :: x in r <==> x in rows
  {
    match OrderOf(orderBy)
    case Some(le) => SortMembers(rows, le); Sort(rows, le)
    case None => rows
  }

  /** `.limit(n)` when `n` is truthy. SQLite reads a negative LIMIT as no limit at all. */
  function Limited(rows: seq<ReportRow>, limit: Option<int>): (r: seq<ReportRow>)
    ensures r <= rows
    ensures limit.Some? && limit.value > 0 ==> |r| == if limit.value < |rows| then limit.value else |rows|
    ensures !(limit.Some? && limit.value > 0) ==> r == rows
  {
    if limit.Some? && limit.value > 0 then Take(rows, limit.value) else rows
  }

  /** The rows a listing returns, before they are handed out. */
  function ListedRows(rs: seq<ReportRow>, q: ListRequest): (r: seq<ReportRow>)
    ensures forall x :: x in r ==> x in rs && Selected(q, x)
    ensures !(q.limit.Some? && q.limit.value > 0) ==> forall x :: x in rs && Selected(q, x) ==> x in r
  {
    Limited(OrderedRows(FilteredRows(rs, q), q.orderBy), q.limit)
  }

  /** A report whose template can be built, so that it can be handed out. */
  predicate Deliverable(ts: seq<TemplateRow>, x: ReportRow)
    requires TemplateFieldsValid(ts)
  {
    TemplateIndex(ts, x.templateId).Some? && ToModel(ts[TemplateIndex(ts, x.templateId).value]).Ok?
  }

  /** The `[self._db_to_model(r) for r in rows]` step: every row handed out in turn, the
      first failure ending the whole call. */
  function DeliverAll(ts: seq<TemplateRow>, rows: seq<ReportRow>): (r: Result<seq<ReportRow>, ServiceError>)
    requires TemplateFieldsValid(ts)
    requires forall x :: x in rows ==> TemplateIndex(ts, x.templateId).Some?
    ensures r.Ok? <==> forall x :: x in rows ==> Deliverable(ts, x)
    ensures r.Ok? ==> r.value == rows
    ensures r.Err? ==> r.error == InvalidTemplate(DuplicateFieldNames)
  {
    var deliver := (x: ReportRow) requires TemplateIndex(ts, x.templateId).Some? => Deliver(ts, x);
    var res := MapAll(rows, deliver);
    if res.Ok? then
      assert forall i :: 0 <= i < |rows| ==> res.value[i] == rows[i];
      Ok(res.value)
    else
      Err(res.error)
  }

  /** `list_reports`: the listed rows, each handed out once its template has been built;
      the listing fails when one of them cannot be. */
  function ListReports(ts: seq<TemplateRow>, rs: seq<ReportRow>, q: ListRequest): (r: Result<seq<ReportRow>, ServiceError>)
    requires TemplateFieldsValid(ts)
    requires forall x :: x in rs ==> TemplateIndex(ts, x.templateId).Some?
    ensures r.Ok? <==> forall x :: x in ListedRows(rs, q) ==> Deliverable(ts, x)
    ensures r.Ok? ==> r.value == ListedRows(rs, q)
    ensures r.Err? ==> r.error == InvalidTemplate(DuplicateFieldNames)
  {
    DeliverAll(ts, ListedRows(rs, q))
  }

  /** The listing comes out in the requested order. */
  lemma ListedRowsSorted(rs: seq<ReportRow>, q: ListRequest)
    ensures OrderOf(q.orderBy).Some? ==> SortedBy(ListedRows(rs, q), OrderOf(q.orderBy).value)
  {
    var f := FilteredRows(rs, q);
    if OrderOf(q.orderBy).Some? {
      OrdersArePreorders(q.orderBy);
      SortSorted(f, OrderOf(q.orderBy).value);
    }
    var o := OrderedRows(f, q.orderBy);
    var listed := ListedRows(rs, q);
    assert forall i :: 0 <= i < |listed| ==> listed[i] == o[i];
  }

  /** Rows the requested order ties stay in table (id) order; with no known order the
      whole listing stays in table order. */
  lemma ListedRowsInTableOrder(rs: seq<ReportRow>, q: ListRequest)
    requires Increasing(rs, ReportId)
    ensures OrderOf(q.orderBy).Some? ==> Stable(ListedRows(rs, q), OrderOf(q.orderBy).value, ReportId)
    ensures OrderOf(q.orderBy).None? ==> Increasing(ListedRows(rs, q), ReportId)
  {
    FilteredRowsIncreasing(rs, q);
    var f := FilteredRows(rs, q);
    if OrderOf(q.orderBy).Some? {
      SortStable(f, OrderOf(q.orderBy).value, ReportId);
    }
    var o := OrderedRows(f, q.orderBy);
    var listed := ListedRows(rs, q);
    assert forall i :: 0 <= i < |listed| ==> listed[i] == o[i];
  }

  /** With a positive limit and a known order, the listing holds as many reports as the
      limit allows, and every passing report it leaves out comes, in the requested order,
      after every report it keeps. */
  lemma ListedRowsFirstInOrder(rs: seq<ReportRow>, q: ListRequest)
    requires q.limit.Some? && q.limit.value > 0 && OrderOf(q.orderBy).Some?
    ensures var m := FilteredRows(rs, q);
            |ListedRows(rs, q)| == if q.limit.value < |m| then q.limit.value else |m|
    ensures var m, listed := FilteredRows(rs, q), ListedRows(rs, q);
            forall x, y :: x in listed && y in m && y !in listed ==> OrderOf(q.orderBy).value(x, y)
  {
    var m := FilteredRows(rs, q);
    var le := OrderOf(q.orderBy).value;
    OrdersArePreorders(q.orderBy);
    SortSorted(m, le);
    var o := Sort(m, le);
    SortMembers(m, le);
    var listed := ListedRows(rs, q);
    assert listed == Take(o, q.limit.value);
    assert forall k :: 0 <= k < |listed| ==> listed[k] == o[k];
    forall x, y | x in listed && y in m && y !in listed
      ensures le(x, y)
    {
      var i :| 0 <= i < |listed| && listed[i] == x;
      var j :| 0 <= j < |o| && o[j] == y;
      assert |listed| <= j;
      assert o[i] == x;
    }
  }

  /** The listing by date range: reports filed from `start` to `end` inclusive (and under
      `templateId` when given), by date, oldest first. */
  function RangeRequest(start: ValidDate, end: ValidDate, templateId: Option<int>): ListRequest
  {
    ListRequest(Some(start), Some(end), templateId, None, None, None, "date_asc")
  }

  predicate InRange(x: ReportRow, start: ValidDate, end: ValidDate, templateId: Option<int>)
  {
    OnOrAfter(x, start) && OnOrBefore(x, end) && (GivenId(templateId) ==> x.templateId == templateId.value)
  }

  lemma RangeRowsExact(rs: seq<ReportRow>, start: ValidDate, end: ValidDate, templateId: Option<int>)
    ensures forall x :: x in ListedRows(rs, RangeRequest(start, end, templateId)) <==> x in rs && InRange(x, start, end, templateId)
  {
    var q := RangeRequest(start, end, templateId);
  }

  function GetReportByDateRange(ts: seq<TemplateRow>, rs: seq<ReportRow>, start: ValidDate, end: ValidDate, templateId: Option<int>)
    : (r: Result<seq<ReportRow>, ServiceError>)
    requires TemplateFieldsValid(ts)
    requires forall x :: x in rs ==> TemplateIndex(ts, x.templateId).Some?
    ensures r.Ok? ==> forall x :: x in r.value <==> x in rs && InRange(x, start, end, templateId)
    ensures r.Ok? ==> SortedBy(r.value, DateLe)
    ensures r.Ok? <==> forall x :: x in rs && InRange(x, start, end, templateId) ==> Deliverable(ts, x)
    ensures r.Err? ==> r.error == InvalidTemplate(DuplicateFieldNames)
  {
    RangeRowsExact(rs, start, end, templateId);
    KnownOrders();
    ListedRowsSorted(rs, RangeRequest(start, end, templateId));
    ListReports(ts, rs, RangeRequest(start, end, templateId))
  }

  /** The keyword search: reports whose content, issues, plan for tomorrow or notes contain
      the keyword (any report when the keyword is empty), newest first, at most `limit` of
      them when `limit` is positive and all of them otherwise. The service's default
      `limit` is 50. */
  function SearchRequest(keyword: string, limit: int): ListRequest
  {
    ListRequest(None, None, None, None, Some(keyword), Some(limit), "created_desc")
  }

  predicate Found(x: ReportRow, keyword: string)
  {
    keyword != "" ==> KeywordMatches(x, keyword)
  }

  lemma SearchRowsMatch(rs: seq<ReportRow>, keyword: string, limit: int)
    ensures forall x :: x in ListedRows(rs, SearchRequest(keyword, limit)) ==> x in rs && Found(x, keyword)
    ensures limit <= 0 ==> forall x :: x in rs && Found(x, keyword) ==> x in ListedRows(rs, SearchRequest(keyword, limit))
    ensures limit > 0 ==> |ListedRows(rs, SearchRequest(keyword, limit))| <= limit
    ensures limit > 0 ==>
              var matches := FilteredRows(rs, SearchRequest(keyword, limit));
              |ListedRows(rs, SearchRequest(keyword, limit))| == if limit < |matches| then limit else |matches|
    ensures limit > 0 ==>
              var listed := ListedRows(rs, SearchRequest(keyword, limit));
              forall x, y :: x in listed && y in rs && Found(y, keyword) && y !in listed ==> y.createdAt <= x.createdAt
  {
    var q := SearchRequest(keyword, limit);
    if limit > 0 {
      KnownOrders();
      ListedRowsFirstInOrder(rs, q);
    }
  }

  function SearchReports(ts: seq<TemplateRow>, rs: seq<ReportRow>, keyword: string, limit: int)
    : (r: Result<seq<ReportRow>, ServiceError>)
    requires TemplateFieldsValid(ts)
    requires forall x :: x in rs ==> TemplateIndex(ts, x.templateId).Some?
    ensures r.Ok? ==> forall x :: x in r.value ==> x in rs && Found(x, keyword)
    ensures r.Ok? && limit > 0 ==> |r.value| <= limit
    ensures r.Ok? && limit > 0 ==>
              var matches := FilteredRows(rs, SearchRequest(keyword, limit));
              |r.value| == if limit < |matches| then limit else |matches|
    ensures r.Ok? && limit > 0 ==>
              forall x, y :: x in r.value && y in rs && Found(y, keyword) && y !in r.value ==> y.createdAt <= x.createdAt
    ensures r.Ok? && limit <= 0 ==> forall x :: x in rs && Found(x, keyword) ==> x in r.value
    ensures r.Ok? ==> SortedBy(r.value, CreatedDescLe)
    ensures r.Ok? <==> forall x :: x in ListedRows(rs, SearchRequest(keyword, limit)) ==> Deliverable(ts, x)
    ensures r.Err? ==> r.error == InvalidTemplate(DuplicateFieldNames)
  {
    SearchRowsMatch(rs, keyword, limit);
    KnownOrders();
    ListedRowsSorted(rs, SearchRequest(keyword, limit));
    ListReports(ts, rs, SearchRequest(keyword, limit))
  }

  /** The date-range listing between a month's first and last day, or the error when
      the month has no bounds. */
  function BoundedListing(ts: seq<TemplateRow>, rs: seq<ReportRow>, bounds: Option<(ValidDate, ValidDate)>)
    : (r: Result<seq<ReportRow>, ServiceError>)
    requires TemplateFieldsValid(ts)
    requires forall x :: x in rs ==> TemplateIndex(ts, x.templateId).Some?
    ensures bounds.None? <==> r == Err(MalformedDate)
    ensures r.Ok? ==> SortedBy(r.value, DateLe)
    ensures r.Ok? ==> forall x :: x in r.value ==> x in rs
    ensures bounds.Some? ==>
              (r.Ok? <==> forall x :: x in rs && InRange(x, bounds.value.0, bounds.value.1, None) ==> Deliverable(ts, x))
    ensures r.Err? ==> r.error == MalformedDate || r.error == InvalidTemplate(DuplicateFieldNames)
  {
    if bounds.None? then Err(MalformedDate)
    else
      var listing := GetReportByDateRange(ts, rs, bounds.value.0, bounds.value.1, None);
      assert listing.Err? ==> listing.error != MalformedDate;
      listing
  }

  /** The monthly listing: the date-range listing from the first to the last day of the
      month; a month `date(...)` cannot build (including December 9999, whose following
      month is out of range) is an error. */
  function GetMonthlyReports(ts: seq<TemplateRow>, rs: seq<ReportRow>, year: int, month: int)
    : (r: Result<seq<ReportRow>, ServiceError>)
    requires TemplateFieldsValid(ts)
    requires forall x :: x in rs ==> TemplateIndex(ts, x.templateId).Some?
    ensures MonthBounds(year, month).None? <==> r == Err(MalformedDate)
    ensures r.Ok? ==> SortedBy(r.value, DateLe)
    ensures r.Ok? ==> forall x :: x in r.value ==> x in rs
    ensures MonthBounds(year, month).Some? ==>
              var bounds := MonthBounds(year, month).value;
              (r.Ok? <==> forall x :: x in rs && InRange(x, bounds.0, bounds.1, None) ==> Deliverable(ts, x))
    ensures r.Err? ==> r.error == MalformedDate || r.error == InvalidTemplate(DuplicateFieldNames)
  {
    BoundedListing(ts, rs, MonthBounds(year, month))
  }

  /** A report filed under the ISO form of a date is in the monthly listing exactly when
      that date falls in the month. */
  lemma MonthlyReportsByDate(ts: seq<TemplateRow>, rs: seq<ReportRow>, year: int, month: int, x: ReportRow, d: ValidDate)
    requires TemplateFieldsValid(ts)
    requires forall x :: x in rs ==> TemplateIndex(ts, x.templateId).Some?
    requires GetMonthlyReports(ts, rs, year, month).Ok?
    requires x in rs && StoredText(x, "date") == Some(IsoFormat(d))
    ensures x in GetMonthlyReports(ts, rs, year, month).value <==> d.year == year && d.month == month
  {
    var (first, last) := MonthBounds(year, month).value;
    MonthBoundsSpan(year, month, d);
    IsoFormatOrder(first, d);
    IsoFormatOrder(d, last);
  }

  // ---------------------------------------------------------------------------
  // Statistics
  // ---------------------------------------------------------------------------

  /** The summary `get_statistics` returns: the number of reports listed, the range asked
      for, and how many of them use each template and each project, each table in the
      order its keys were first met. */
  datatype Statistics = Statistics(
    totalReports: nat,
    rangeStart: Option<ValidDate>,
    rangeEnd: Option<ValidDate>,
    templatesUsed: seq<(string, nat)>,
    projects: seq<(string, nat)>)

  /** The project a report is counted under: its `project` text, or 未分類 ("unclassified")
      when that is missing, null or empty. */
  const Unclassified := "未分類"

  function ProjectKey(x: ReportRow): (k: string)
    ensures k != ""
    ensures StoredText(x, "project").Some? && StoredText(x, "project").value != "" ==> k == StoredText(x, "project").value
  {
    match StoredText(x, "project")
    case Some(p) => if p != "" then p else Unclassified
    case None => Unclassified
  }

  function TemplateName(ts: seq<TemplateRow>, x: ReportRow): string
    requires TemplateIndex(ts, x.templateId).Some?
  {
    ts[TemplateIndex(ts, x.templateId).value].name
  }

  /** The template name of each report, in order. */
  function TemplateNames(ts: seq<TemplateRow>, rows: seq<ReportRow>): (names: seq<string>)
    requires forall x :: x in rows ==> TemplateIndex(ts, x.templateId).Some?
    ensures |names| == |rows|
  {
    seq(|rows|, i requires 0 <= i < |rows| => TemplateName(ts, rows[i]))
  }

  /** The project key of each report, in order. */
  function ProjectKeys(rows: seq<ReportRow>): (keys: seq<string>)
    ensures |keys| == |rows|
  {
    seq(|rows|, i requires 0 <= i < |rows| => ProjectKey(rows[i]))
  }

  /** The statistics of the reports between the optional bounds, listed newest first. */
  function StatisticsRequest(start: Option<ValidDate>, end: Option<ValidDate>): ListRequest
  {
    ListRequest(start, end, None, None, None, None, "date_desc")
  }

  /** `get_statistics`: the listed reports counted per template name and per project.
      The counts of each table add up to the number of reports, each count is the number
      of reports with that name or project, and an empty listing gives empty tables. */
  function StatisticsOf(ts: seq<TemplateRow>, rs: seq<ReportRow>, start: Option<ValidDate>, end: Option<ValidDate>)
    : (r: Result<Statistics, ServiceError>)
    requires TemplateFieldsValid(ts)
    requires forall x :: x in rs ==> TemplateIndex(ts, x.templateId).Some?
    ensures r.Ok? <==> ListReports(ts, rs, StatisticsRequest(start, end)).Ok?
    ensures r.Err? ==> r.error == InvalidTemplate(DuplicateFieldNames)
    ensures r.Ok? ==> var rows := ListedRows(rs, StatisticsRequest(start, end));
      && r.value.totalReports == |rows| && r.value.rangeStart == start && r.value.rangeEnd == end
      && Total(r.value.templatesUsed) == |rows| && Total(r.value.projects) == |rows|
      && DistinctKeys(r.value.templatesUsed) && DistinctKeys(r.value.projects)
      && (forall k :: CountOf(r.value.templatesUsed, k) == multiset(TemplateNames(ts, rows))[k])
      && (forall k :: CountOf(r.value.projects, k) == multiset(ProjectKeys(rows))[k])
      && (rows == [] ==> r.value.templatesUsed == [] && r.value.projects == [])
  {
    match ListReports(ts, rs, StatisticsRequest(start, end))
    case Err(e) => Err(e)
    case Ok(rows) =>
      if rows == [] then Ok(Statistics(0, start, end, [], []))
      else Ok(Statistics(|rows|, start, end, TallyOf(TemplateNames(ts, rows)), TallyOf(ProjectKeys(rows))))
  }

  /** The loop of `get_statistics`: one pass over the listed reports, bumping the count of
      the report's template name and of its project. */
  method GetStatistics(db: Database, start: Option<ValidDate>, end: Option<ValidDate>)
    returns (r: Result<Statistics, ServiceError>)
    requires db.Valid()
    ensures r == StatisticsOf(db.templates, db.reports, start, end)
  {
    var ts, rs := db.templates, db.reports;
    var listed := ListReports(ts, rs, StatisticsRequest(start, end));
    if listed.Err? {
      return Err(listed.error);
    }
    var reports := listed.value;
    if |reports| == 0 {
      return Ok(Statistics(0, start, end, [], []));
    }
    var templatesUsed, projects := CountReports(ts, reports);
    return Ok(Statistics(|reports|, start, end, templatesUsed, projects));
  }

  /** The loop body of `get_statistics`: for each report in turn, one more for its
      template's name and one more for its project. */
  method CountReports(ts: seq<TemplateRow>, reports: seq<ReportRow>)
    returns (templatesUsed: seq<(string, nat)>, projects: seq<(string, nat)>)
    requires forall x :: x in reports ==> TemplateIndex(ts, x.templateId).Some?
    ensures templatesUsed == TallyOf(TemplateNames(ts, reports))
    ensures projects == TallyOf(ProjectKeys(reports))
  {
    ghost var names, keys := TemplateNames(ts, reports), ProjectKeys(reports);
    templatesUsed, projects := [], [];
    var i := 0;
    while i < |reports|
      invariant 0 <= i <= |reports|
      invariant templatesUsed == TallyOf(names[..i]) && projects == TallyOf(keys[..i])
    {
      var report := reports[i];
      PrefixGrows(names, i);
      PrefixGrows(keys, i);
      templatesUsed := Bump(templatesUsed, TemplateName(ts, report));
      projects := Bump(projects, ProjectKey(report));
      i := i + 1;
    }
    assert names[..i] == names && keys[..i] == keys;
  }
}
