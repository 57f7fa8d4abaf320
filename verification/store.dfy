/** The three tables the services work on (templates, their fields, reports), the rows
    they hold, the conversion of a template's rows back to a template, and the database
    as one mutable object whose invariant every service call keeps. */
module Store {
  import opened Wrappers
  import opened Json
  import opened FieldTypes
  import opened TemplateModel
  import opened DbModels
  import opened ReportModel
  import opened Query

  /** A row of the template-field table; it belongs to the template row that holds it. */
  datatype FieldRow = FieldRow(
    name: string,
    labelText: string,
    fieldType: string,
    required: bool,
    defaultValue: Option<string>,
    optionsJson: Option<string>,
    placeholder: Option<string>,
    maxLength: Option<int>,
    order: int)

  /** A row of the template table with its field rows in insertion order. Timestamps are
      ticks of the database clock. */
  datatype TemplateRow = TemplateRow(
    id: int,
    name: string,
    description: Option<string>,
    isDefault: bool,
    fields: seq<FieldRow>,
    createdAt: int,
    updatedAt: int)

  /** A row of the report table. `data` is the document its JSON column reads back as
      through the `data` property, which returns exactly what was set (see `ReportDb`). */
  datatype ReportRow = ReportRow(
    id: int,
    templateId: int,
    data: Document,
    createdAt: int,
    updatedAt: int)

  /** Why a service call was refused. */
  datatype ServiceError =
    | NameExists(name: string)
    | TemplateNotFound(templateId: int)
    | DefaultNotDeletable
    | TemplateInUse(templateId: int)
    | InvalidTemplate(reason: ModelError)
    | ReportNotFound(reportId: int)
    | ReportExists(date: string)
    | MalformedDate

  // ---------------------------------------------------------------------------
  // Field rows
  // ---------------------------------------------------------------------------

  /** The row written for a field: its type as the tag, its options through the options
      setter (which leaves the column empty for a missing or empty list). */
  function FieldToRow(f: TemplateField): FieldRow
  {
    FieldRow(f.name, f.labelText, Tag(f.fieldType), f.required, f.defaultValue,
             StoreOptions(f.options), f.placeholder, f.maxLength, f.order)
  }

  function FieldsToRows(fs: seq<TemplateField>): (rows: seq<FieldRow>)
    ensures |rows| == |fs|
    ensures forall i :: 0 <= i < |fs| ==> rows[i] == FieldToRow(fs[i])
  {
    if fs == [] then [] else [FieldToRow(fs[0])] + FieldsToRows(fs[1..])
  }

  /** A row the conversion back to a field can read: a known type tag and an options
      column that is empty or holds a list. */
  predicate RowReadable(r: FieldRow)
  {
    FromTag(r.fieldType).Some? && OptionsColumnReadable(r.optionsJson)
  }

  predicate RowsReadable(rows: seq<FieldRow>)
  {
    forall r :: r in rows ==> RowReadable(r)
  }

  /** The field a row reads back as. */
  function FieldFromRow(r: FieldRow): TemplateField
    requires RowReadable(r)
  {
    TemplateField(r.name, r.labelText, FromTag(r.fieldType).value, r.required, r.defaultValue,
                  LoadOptions(r.optionsJson), r.placeholder, r.maxLength, r.order)
  }

  /** A row that reads back as a field its type accepts. */
  predicate RowValid(r: FieldRow)
  {
    RowReadable(r) && TypeConstraintsHold(FieldFromRow(r))
  }

  predicate RowsValid(rows: seq<FieldRow>)
  {
    RowsReadable(rows) && forall r :: r in rows ==> RowValid(r)
  }

  /** A field as it comes back from the table: an empty options list comes back as none. */
  function Normalized(f: TemplateField): (g: TemplateField)
    ensures g.name == f.name && g.order == f.order
    ensures g.options == if f.options == Some([]) then None else f.options
    ensures TypeConstraintsHold(g) <==> TypeConstraintsHold(f)
  {
    if f.options == Some([]) then f.(options := None) else f
  }

  function NormalizedAll(fs: seq<TemplateField>): (gs: seq<TemplateField>)
    ensures |gs| == |fs|
    ensures forall i :: 0 <= i < |fs| ==> gs[i] == Normalized(fs[i])
  {
    if fs == [] then [] else [Normalized(fs[0])] + NormalizedAll(fs[1..])
  }

  /** A field written to the table reads back as itself, up to an empty options list. */
  lemma FieldRowRoundTrip(f: TemplateField)
    ensures RowReadable(FieldToRow(f))
    ensures FieldFromRow(FieldToRow(f)) == Normalized(f)
    ensures TypeConstraintsHold(f) ==> RowValid(FieldToRow(f))
  {
    TagRoundTrip(f.fieldType);
    OptionsRoundTrip(f.options);
  }

  function FieldsFromRows(rows: seq<FieldRow>): (fs: seq<TemplateField>)
    requires RowsReadable(rows)
    ensures |fs| == |rows|
    ensures forall i :: 0 <= i < |rows| ==> fs[i] == FieldFromRow(rows[i])
  {
    if rows == [] then [] else [FieldFromRow(rows[0])] + FieldsFromRows(rows[1..])
  }

  /** A list of fields written to the table reads back as itself, up to empty options lists. */
  lemma {:induction false} FieldsRoundTrip(fs: seq<TemplateField>)
    ensures RowsReadable(FieldsToRows(fs))
    ensures FieldsFromRows(FieldsToRows(fs)) == NormalizedAll(fs)
  {
    var rows := FieldsToRows(fs);
    forall i | 0 <= i < |fs| ensures RowReadable(rows[i]) && FieldFromRow(rows[i]) == Normalized(fs[i]) {
      FieldRowRoundTrip(fs[i]);
    }
  }

  // ---------------------------------------------------------------------------
  // Reading a template back
  // ---------------------------------------------------------------------------

  function RowOrderLe(a: FieldRow, b: FieldRow): bool
  {
    a.order <= b.order
  }

  function FieldOrderLe(a: TemplateField, b: TemplateField): bool
  {
    a.order <= b.order
  }

  lemma FieldOrderIsPreorder()
    ensures TotalPreorder(FieldOrderLe)
  {
  }

  lemma ReadCons(x: FieldRow, s: seq<FieldRow>)
    requires RowReadable(x) && RowsReadable(s)
    ensures RowsReadable([x] + s)
    ensures FieldsFromRows([x] + s) == [FieldFromRow(x)] + FieldsFromRows(s)
  {
    var l, m := FieldsFromRows([x] + s), [FieldFromRow(x)] + FieldsFromRows(s);
    forall i | 0 <= i < |l| ensures l[i] == m[i] {
      if i > 0 {
        assert ([x] + s)[i] == s[i - 1];
      }
    }
  }

  lemma {:induction false} InsertThenRead(x: FieldRow, s: seq<FieldRow>)
    requires RowReadable(x) && RowsReadable(s)
    ensures RowsReadable(Insert(x, s, RowOrderLe))
    ensures FieldsFromRows(Insert(x, s, RowOrderLe)) == Insert(FieldFromRow(x), FieldsFromRows(s), FieldOrderLe)
  {
    var t := Insert(x, s, RowOrderLe);
    forall r | r in t ensures RowReadable(r) {
      assert r in multiset(t);
    }
    var fx, fs := FieldFromRow(x), FieldsFromRows(s);
    if s == [] || RowOrderLe(x, s[0]) {
      assert fs == [] || FieldOrderLe(fx, fs[0]);
      assert t == [x] + s;
      ReadCons(x, s);
    } else {
      InsertThenRead(x, s[1..]);
      var u := Insert(x, s[1..], RowOrderLe);
      assert t == [s[0]] + u;
      assert fs[0] == FieldFromRow(s[0]) && !FieldOrderLe(fx, fs[0]);
      assert fs[1..] == FieldsFromRows(s[1..]);
      assert Insert(fx, fs, FieldOrderLe) == [fs[0]] + Insert(fx, fs[1..], FieldOrderLe);
      ReadCons(s[0], u);
    }
  }

  /** Sorting the rows by `order` and reading them gives the same fields as reading the
      rows and sorting the fields. */
  lemma {:induction false} SortThenRead(rows: seq<FieldRow>)
    requires RowsReadable(rows)
    ensures RowsReadable(Sort(rows, RowOrderLe))
    ensures FieldsFromRows(Sort(rows, RowOrderLe)) == Sort(FieldsFromRows(rows), FieldOrderLe)
  {
    var sorted := Sort(rows, RowOrderLe);
    forall r | r in sorted ensures RowReadable(r) {
      assert r in multiset(sorted);
    }
    if rows != [] {
      SortThenRead(rows[1..]);
      InsertThenRead(rows[0], Sort(rows[1..], RowOrderLe));
      assert FieldsFromRows(rows)[1..] == FieldsFromRows(rows[1..]);
    }
  }

  /** `_db_to_model`: the template of a row, its fields rebuilt from their rows in
      ascending `order` (ties in insertion order). Building the template fails, as its
      validator does, when two fields share a name. */
  function ToModel(t: TemplateRow): (r: Result<Template, ModelError>)
    requires RowsReadable(t.fields)
    ensures r.Ok? <==> NamesUnique(FieldsFromRows(t.fields))
    ensures r.Err? ==> r.error == DuplicateFieldNames
    ensures r.Ok? ==> r.value.id == Some(t.id) && r.value.name == t.name
                      && r.value.description == t.description && r.value.isDefault == t.isDefault
                      && r.value.createdAt == Some(t.createdAt) && r.value.updatedAt == Some(t.updatedAt)
    ensures r.Ok? ==> r.value.fields == Sort(FieldsFromRows(t.fields), FieldOrderLe)
  {
    SortThenRead(t.fields);
    var fields := FieldsFromRows(Sort(t.fields, RowOrderLe));
    NamesUniquePermutation(fields, FieldsFromRows(t.fields));
    ValidateUniqueFieldNames(Template(Some(t.id), t.name, t.description, fields, t.isDefault,
                                      Some(t.createdAt), Some(t.updatedAt)))
  }

  /** The fields a template reads back with are in ascending `order`, are exactly the
      stored fields (as a multiset), and fields with equal `order` keep the order in which
      they were written. */
  lemma ToModelFields(t: TemplateRow, pos: TemplateField -> int)
    requires RowsReadable(t.fields)
    requires ToModel(t).Ok?
    requires Increasing(FieldsFromRows(t.fields), pos)
    ensures SortedBy(ToModel(t).value.fields, FieldOrderLe)
    ensures multiset(ToModel(t).value.fields) == multiset(FieldsFromRows(t.fields))
    ensures Stable(ToModel(t).value.fields, FieldOrderLe, pos)
  {
    SortSorted(FieldsFromRows(t.fields), FieldOrderLe);
    SortStable(FieldsFromRows(t.fields), FieldOrderLe, pos);
  }

  /** A template written with fields already in `order` reads back with those very fields
      (up to empty options lists), when their names are distinct. */
  lemma WrittenTemplateReadsBack(t: TemplateRow, fs: seq<TemplateField>)
    requires t.fields == FieldsToRows(fs)
    requires SortedBy(fs, FieldOrderLe)
    ensures RowsReadable(t.fields)
    ensures ToModel(t).Ok? <==> NamesUnique(fs)
    ensures ToModel(t).Ok? ==> ToModel(t).value.fields == NormalizedAll(fs)
  {
    FieldsRoundTrip(fs);
    var gs := NormalizedAll(fs);
    assert SortedBy(gs, FieldOrderLe);
    SortOfSorted(gs, FieldOrderLe);
    assert NamesUnique(gs) <==> NamesUnique(fs);
  }

  // ---------------------------------------------------------------------------
  // Table invariants
  // ---------------------------------------------------------------------------

  function TemplateId(t: TemplateRow): int { t.id }
  function ReportId(r: ReportRow): int { r.id }
  function ReportCreated(r: ReportRow): int { r.createdAt }

  /** The id the next inserted row receives: one more than the largest id, 1 for an empty
      table (rows are kept in id order, so the largest is the last). */
  function NextTemplateId(ts: seq<TemplateRow>): (id: int)
    requires Increasing(ts, TemplateId)
    ensures forall t :: t in ts ==> t.id < id
    ensures ts == [] ==> id == 1
  {
    if ts == [] then 1 else ts[|ts| - 1].id + 1
  }

  function NextReportId(rs: seq<ReportRow>): (id: int)
    requires Increasing(rs, ReportId)
    ensures forall r :: r in rs ==> r.id < id
    ensures rs == [] ==> id == 1
  {
    if rs == [] then 1 else rs[|rs| - 1].id + 1
  }

  /** At most one template is the default. */
  predicate AtMostOneDefault(ts: seq<TemplateRow>)
  {
    forall i, j :: 0 <= i < |ts| && 0 <= j < |ts| && ts[i].isDefault && ts[j].isDefault ==> i == j
  }

  /** No two templates share a name. */
  predicate TemplateNamesDistinct(ts: seq<TemplateRow>)
  {
    forall i, j :: 0 <= i < |ts| && 0 <= j < |ts| && ts[i].name == ts[j].name ==> i == j
  }

  predicate TemplateFieldsValid(ts: seq<TemplateRow>)
  {
    forall i :: 0 <= i < |ts| ==> RowsValid(ts[i].fields)
  }

  predicate TemplatesValid(ts: seq<TemplateRow>, clock: int)
  {
    Increasing(ts, TemplateId)
    && (forall i :: 0 <= i < |ts| ==> 1 <= ts[i].id && ts[i].createdAt <= ts[i].updatedAt < clock)
    && AtMostOneDefault(ts)
    && TemplateFieldsValid(ts)
  }

  function TemplateIndex(ts: seq<TemplateRow>, id: int): (r: Option<nat>)
    ensures r.Some? ==> r.value < |ts| && ts[r.value].id == id
    ensures r.None? <==> forall t :: t in ts ==> t.id != id
  {
    IndexOf(ts, (t: TemplateRow) => t.id == id)
  }

  /** Every report names an existing template; report rows are in id order and were
      created in that order. */
  predicate ReportsValid(rs: seq<ReportRow>, ts: seq<TemplateRow>, clock: int)
  {
    Increasing(rs, ReportId)
    && Increasing(rs, ReportCreated)
    && (forall i :: 0 <= i < |rs| ==> 1 <= rs[i].id && rs[i].createdAt <= rs[i].updatedAt < clock)
    && (forall x :: x in rs ==> TemplateIndex(ts, x.templateId).Some?)
  }

  /** The database: the template table (with its field rows) and the report table, each
      in row-id order, and a clock that ticks once per committed change. */
  class Database {
    var templates: seq<TemplateRow>
    var reports: seq<ReportRow>
    var clock: int

    ghost predicate Valid()
      reads this
    {
      0 <= clock && TemplatesValid(templates, clock) && ReportsValid(reports, templates, clock)
    }

    /** Freshly created tables: empty. */
    constructor ()
      ensures Valid() && templates == [] && reports == [] && clock == 0
    {
      templates := [];
      reports := [];
      clock := 0;
    }
  }

  /** The row of a template inserted at time `now`. */
  function NewTemplateRow(id: int, name: string, description: Option<string>, isDefault: bool,
                          fields: seq<TemplateField>, now: int): TemplateRow
  {
    TemplateRow(id, name, description, isDefault, FieldsToRows(fields), now, now)
  }

  lemma NewTemplateRowValid(id: int, name: string, description: Option<string>, isDefault: bool,
                            fields: seq<TemplateField>, now: int)
    requires forall f :: f in fields ==> TypeConstraintsHold(f)
    ensures RowsValid(NewTemplateRow(id, name, description, isDefault, fields, now).fields)
  {
    var rows := FieldsToRows(fields);
    forall f | f in rows ensures RowValid(f) {
      var i :| 0 <= i < |rows| && rows[i] == f;
      FieldRowRoundTrip(fields[i]);
    }
  }

  function DefaultIndex(ts: seq<TemplateRow>): (r: Option<nat>)
    ensures r.Some? ==> r.value < |ts| && ts[r.value].isDefault
    ensures r.None? <==> forall t :: t in ts ==> !t.isDefault
  {
    IndexOf(ts, (t: TemplateRow) => t.isDefault)
  }

  /** Appending a row with the next id keeps the template table valid, provided the row
      is well formed and does not add a second default. */
  lemma AppendTemplateValid(ts: seq<TemplateRow>, row: TemplateRow, clock: int)
    requires TemplatesValid(ts, clock)
    requires row.id == NextTemplateId(ts) && 1 <= row.id && row.createdAt <= row.updatedAt < clock
    requires RowsValid(row.fields)
    requires row.isDefault ==> DefaultIndex(ts).None?
    ensures TemplatesValid(ts + [row], clock)
  {
    var ts' := ts + [row];
    forall i, j | 0 <= i < j < |ts'| ensures ts'[i].id < ts'[j].id {
      if j == |ts| {
        assert ts'[i] in ts;
      }
    }
    forall i | 0 <= i < |ts'| ensures RowsValid(ts'[i].fields) {
      if i < |ts| {
        assert ts'[i] == ts[i];
      }
    }
  }

  lemma TemplatesValidLater(ts: seq<TemplateRow>, clock: int, clock': int)
    requires TemplatesValid(ts, clock) && clock <= clock'
    ensures TemplatesValid(ts, clock')
  {
  }

  /** The report table stays valid when no template id disappears and the clock only
      moves forward. */
  lemma ReportsValidKept(rs: seq<ReportRow>, ts: seq<TemplateRow>, ts': seq<TemplateRow>, clock: int, clock': int)
    requires ReportsValid(rs, ts, clock)
    requires forall i :: 0 <= i < |ts| ==> TemplateIndex(ts', ts[i].id).Some?
    requires clock <= clock'
    ensures ReportsValid(rs, ts', clock')
  {
    forall x | x in rs ensures TemplateIndex(ts', x.templateId).Some? {
      var k := TemplateIndex(ts, x.templateId).value;
      assert ts[k].id == x.templateId;
    }
  }

  /** `session.commit()`: the tables take their new contents and the clock ticks. */
  method Commit(db: Database, ts: seq<TemplateRow>, rs: seq<ReportRow>)
    requires 0 <= db.clock && TemplatesValid(ts, db.clock + 1) && ReportsValid(rs, ts, db.clock + 1)
    modifies db
    ensures db.Valid()
    ensures db.templates == ts && db.reports == rs && db.clock == old(db.clock) + 1
  {
    db.templates := ts;
    db.reports := rs;
    db.clock := db.clock + 1;
  }

  /** The standard template's row, inserted with id `id` at time `now`. */
  function StandardTemplateRow(id: int, now: int): (row: TemplateRow)
    ensures row.id == id && row.isDefault && row.createdAt == now && row.updatedAt == now
  {
    var t := CreateDefaultTemplate();
    NewTemplateRow(id, t.name, t.description, t.isDefault, t.fields, now)
  }

  lemma StandardTemplateRowValid(id: int, now: int)
    ensures RowsValid(StandardTemplateRow(id, now).fields)
  {
    var t := CreateDefaultTemplate();
    DefaultTemplateFields();
    NewTemplateRowValid(id, t.name, t.description, t.isDefault, t.fields, now);
  }

  /** `init_database`: when no template is the default, the standard template is inserted
      as the default; otherwise nothing changes. Afterwards exactly one template is the
      default. */
  method InitDatabase(db: Database)
    requires db.Valid()
    modifies db
    ensures db.Valid()
    ensures DefaultIndex(old(db.templates)).Some? ==> db.templates == old(db.templates) && db.clock == old(db.clock)
    ensures DefaultIndex(old(db.templates)).None? ==>
              db.templates == old(db.templates) + [StandardTemplateRow(NextTemplateId(old(db.templates)), old(db.clock))]
              && db.clock == old(db.clock) + 1
    ensures db.reports == old(db.reports)
    ensures DefaultIndex(db.templates).Some?
  {
    if DefaultIndex(db.templates).Some? {
      return;
    }
    var id := NextTemplateId(db.templates);
    StandardTemplateRowValid(id, db.clock);
    AppendTemplate(db, StandardTemplateRow(id, db.clock));
  }

  /** Inserts a template row with the next id, stamped with the current time. */
  method AppendTemplate(db: Database, row: TemplateRow)
    requires db.Valid()
    requires row.id == NextTemplateId(db.templates) && row.createdAt == db.clock && row.updatedAt == db.clock
    requires RowsValid(row.fields)
    requires row.isDefault ==> DefaultIndex(db.templates).None?
    modifies db
    ensures db.Valid()
    ensures db.templates == old(db.templates) + [row] && db.reports == old(db.reports)
    ensures db.clock == old(db.clock) + 1
    ensures row.isDefault ==> DefaultIndex(db.templates).Some?
  {
    TemplatesValidLater(db.templates, db.clock, db.clock + 1);
    AppendTemplateValid(db.templates, row, db.clock + 1);
    var ts := db.templates + [row];
    forall i | 0 <= i < |db.templates| ensures TemplateIndex(ts, db.templates[i].id).Some? {
      assert ts[i] == db.templates[i];
    }
    ReportsValidKept(db.reports, db.templates, ts, db.clock, db.clock + 1);
    Commit(db, ts, db.reports);
    assert ts[|ts| - 1] == row;
  }
}
