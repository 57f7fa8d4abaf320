/** The template service: creating, reading, listing, updating and deleting templates,
    choosing the default template, and the consistency check run on a template before it
    is saved. Each call is one transaction on the database. */
module TemplateService {
  import opened Wrappers
  import opened Strings
  import opened FieldTypes
  import opened TemplateModel
  import opened Query
  import opened Store

  // ---------------------------------------------------------------------------
  // Reading templates
  // ---------------------------------------------------------------------------

  function NameIndex(ts: seq<TemplateRow>, name: string): (r: Option<nat>)
    ensures r.Some? ==> r.value < |ts| && ts[r.value].name == name
    ensures r.Some? ==> forall i :: 0 <= i < r.value ==> ts[i].name != name
    ensures r.None? <==> forall i :: 0 <= i < |ts| ==> ts[i].name != name
  {
    IndexOf(ts, (t: TemplateRow) => t.name == name)
  }

  /** The template at a table position, or nothing. */
  function ConvertAt(ts: seq<TemplateRow>, idx: Option<nat>): (r: Result<Option<Template>, ServiceError>)
    requires TemplateFieldsValid(ts)
    requires idx.Some? ==> idx.value < |ts|
    ensures idx.Some? ==> RowsValid(ts[idx.value].fields)
    ensures idx.None? ==> r == Ok(None)
    ensures idx.Some? ==> (r.Err? <==> ToModel(ts[idx.value]).Err?)
    ensures idx.Some? ==> r.Ok? ==> r.value.Some? && r.value.value == ToModel(ts[idx.value]).value
    ensures r.Err? ==> r.error == InvalidTemplate(DuplicateFieldNames)
  {
    match idx
    case None => Ok(None)
    case Some(i) =>
      assert RowsValid(ts[i].fields);
      match ToModel(ts[i])
      case Ok(t) => Ok(Some(t))
      case Err(e) => Err(InvalidTemplate(e))
  }

  /** `get_template`: by id when an id is given, else by name when a name is given, else
      nothing; the first matching row wins. */
  function GetTemplate(ts: seq<TemplateRow>, templateId: Option<int>, name: Option<string>): (r: Result<Option<Template>, ServiceError>)
    requires TemplateFieldsValid(ts)
    ensures templateId.None? && name.None? ==> r == Ok(None)
    ensures templateId.Some? ==> (r == Ok(None) <==> TemplateIndex(ts, templateId.value).None?)
    ensures templateId.None? && name.Some? ==> (r == Ok(None) <==> NameIndex(ts, name.value).None?)
    ensures r.Ok? && r.value.Some? && templateId.Some? ==> r.value.value.id == templateId
    ensures r.Ok? && r.value.Some? && templateId.None? ==> name.Some? && r.value.value.name == name.value
    ensures templateId.Some? && TemplateIndex(ts, templateId.value).Some? ==>
              (r.Ok? <==> ToModel(ts[TemplateIndex(ts, templateId.value).value]).Ok?)
    ensures templateId.None? && name.Some? && NameIndex(ts, name.value).Some? ==>
              (r.Ok? <==> ToModel(ts[NameIndex(ts, name.value).value]).Ok?)
    ensures r.Err? ==> r.error == InvalidTemplate(DuplicateFieldNames)
  {
    if templateId.Some? then ConvertAt(ts, TemplateIndex(ts, templateId.value))
    else if name.Some? then ConvertAt(ts, NameIndex(ts, name.value))
    else Ok(None)
  }

  /** `get_default_template`: the first template marked as the default, or nothing. */
  function GetDefaultTemplate(ts: seq<TemplateRow>): (r: Result<Option<Template>, ServiceError>)
    requires TemplateFieldsValid(ts)
    ensures r == Ok(None) <==> forall i :: 0 <= i < |ts| ==> !ts[i].isDefault
    ensures r.Ok? && r.value.Some? ==> r.value.value.isDefault
    ensures DefaultIndex(ts).Some? ==> (r.Ok? <==> ToModel(ts[DefaultIndex(ts).value]).Ok?)
    ensures r.Err? ==> r.error == InvalidTemplate(DuplicateFieldNames)
  {
    ConvertAt(ts, DefaultIndex(ts))
  }

  /** `list_templates`: every stored template, in row-id order, each converted as `_db_to_model` does; the
      first template whose fields repeat a name makes the whole listing fail. */
  function ListTemplates(ts: seq<TemplateRow>): (r: Result<seq<Template>, ServiceError>)
    requires TemplateFieldsValid(ts)
    ensures r.Ok? <==> forall i :: 0 <= i < |ts| ==> RowsValid(ts[i].fields) && ToModel(ts[i]).Ok?
    ensures r.Ok? ==> |r.value| == |ts|
    ensures r.Ok? ==> forall i :: 0 <= i < |ts| ==> RowsValid(ts[i].fields) && ToModel(ts[i]) == Ok(r.value[i])
    ensures r.Err? ==> r.error == InvalidTemplate(DuplicateFieldNames)
  {
    var convert := (t: TemplateRow) requires RowsReadable(t.fields) => ToModel(t);
    assert forall i :: 0 <= i < |ts| ==> RowsValid(ts[i].fields);
    match MapAll(ts, convert)
    case Ok(v) => Ok(v)
    case Err(e) => Err(InvalidTemplate(e))
  }

  // ---------------------------------------------------------------------------
  // Changing the default
  // ---------------------------------------------------------------------------

  /** The bulk update that clears every default flag; the rows it changes get the new
      update time. */
  function ClearDefaults(ts: seq<TemplateRow>, now: int): (r: seq<TemplateRow>)
    ensures |r| == |ts|
    ensures forall i :: 0 <= i < |ts| ==>
              r[i] == if ts[i].isDefault then ts[i].(isDefault := false, updatedAt := now) else ts[i]
  {
    if ts == [] then []
    else [if ts[0].isDefault then ts[0].(isDefault := false, updatedAt := now) else ts[0]]
         + ClearDefaults(ts[1..], now)
  }

  /** After the bulk update no template is the default, each row keeps its id, name and
      fields, and the table stays valid. */
  lemma ClearDefaultsValid(ts: seq<TemplateRow>, now: int)
    requires TemplatesValid(ts, now)
    ensures TemplatesValid(ClearDefaults(ts, now), now + 1)
    ensures forall i :: 0 <= i < |ts| ==> !ClearDefaults(ts, now)[i].isDefault
    ensures forall i :: 0 <= i < |ts| ==>
              (ClearDefaults(ts, now)[i].id == ts[i].id && ClearDefaults(ts, now)[i].name == ts[i].name
               && ClearDefaults(ts, now)[i].fields == ts[i].fields)
  {
    var c := ClearDefaults(ts, now);
    ClearDefaultsKeeps(ts, now);
    SameIdsIncreasing(ts, c);
    forall i | 0 <= i < |c| ensures 1 <= c[i].id && c[i].createdAt <= c[i].updatedAt < now + 1 {
      assert 1 <= ts[i].id && ts[i].createdAt <= ts[i].updatedAt < now;
    }
    forall i | 0 <= i < |c| ensures RowsValid(c[i].fields) {
      assert RowsValid(ts[i].fields);
    }
  }

  lemma ClearDefaultsKeeps(ts: seq<TemplateRow>, now: int)
    ensures var c := ClearDefaults(ts, now);
            |c| == |ts|
            && forall i :: 0 <= i < |ts| ==>
                 && !c[i].isDefault && c[i].id == ts[i].id && c[i].name == ts[i].name
                 && c[i].fields == ts[i].fields && c[i].createdAt == ts[i].createdAt
                 && (c[i].updatedAt == ts[i].updatedAt || c[i].updatedAt == now)
  {
  }

  /** Replacing one row by a row with the same id keeps the ids, hence the references
      from reports. */
  lemma SameIds(ts: seq<TemplateRow>, ts': seq<TemplateRow>)
    requires |ts| == |ts'| && forall i :: 0 <= i < |ts| ==> ts'[i].id == ts[i].id
    ensures forall i :: 0 <= i < |ts| ==> TemplateIndex(ts', ts[i].id).Some?
  {
    forall i | 0 <= i < |ts| ensures TemplateIndex(ts', ts[i].id).Some? {
      assert ts'[i].id == ts[i].id;
    }
  }

  // ---------------------------------------------------------------------------
  // Creating a template
  // ---------------------------------------------------------------------------

  /** The tables after `create_template` stores a template whose name is free: the old
      default is cleared when the new template is to be the default, and the new row is
      appended with the next id. */
  function CreatedTables(ts: seq<TemplateRow>, name: string, fields: seq<TemplateField>,
                         description: Option<string>, isDefault: bool, now: int): seq<TemplateRow>
    requires Increasing(ts, TemplateId)
  {
    (if isDefault then ClearDefaults(ts, now) else ts)
    + [NewTemplateRow(NextTemplateId(ts), name, description, isDefault, fields, now)]
  }

  /** Creating a template keeps every existing row's id and name, clears every other
      default when the new one is the default, and appends the new row last. */
  lemma CreatedTablesShape(ts: seq<TemplateRow>, name: string, fields: seq<TemplateField>,
                           description: Option<string>, isDefault: bool, now: int)
    requires Increasing(ts, TemplateId)
    ensures var ts' := CreatedTables(ts, name, fields, description, isDefault, now);
            |ts'| == |ts| + 1
            && ts'[|ts|] == NewTemplateRow(NextTemplateId(ts), name, description, isDefault, fields, now)
            && (forall i :: 0 <= i < |ts| ==> ts'[i].id == ts[i].id && ts'[i].name == ts[i].name)
            && (isDefault ==> forall i :: 0 <= i < |ts| ==> !ts'[i].isDefault)
  {
  }

  /** The tables after a template is created are valid. */
  lemma CreatedTablesValid(ts: seq<TemplateRow>, rs: seq<ReportRow>, name: string, fields: seq<TemplateField>,
                           description: Option<string>, isDefault: bool, now: int)
    requires TemplatesValid(ts, now) && ReportsValid(rs, ts, now)
    requires forall f :: f in fields ==> TypeConstraintsHold(f)
    requires NameIndex(ts, name).None?
    ensures var ts' := CreatedTables(ts, name, fields, description, isDefault, now);
            TemplatesValid(ts', now + 1) && ReportsValid(rs, ts', now + 1)
  {
    CreatedTemplatesValid(ts, name, fields, description, isDefault, now);
    var ts' := CreatedTables(ts, name, fields, description, isDefault, now);
    CreatedTablesShape(ts, name, fields, description, isDefault, now);
    forall i | 0 <= i < |ts| ensures TemplateIndex(ts', ts[i].id).Some? {
      assert ts'[i] in ts' && ts'[i].id == ts[i].id;
    }
    ReportsValidKept(rs, ts, ts', now, now + 1);
  }

  lemma CreatedTemplatesValid(ts: seq<TemplateRow>, name: string, fields: seq<TemplateField>,
                              description: Option<string>, isDefault: bool, now: int)
    requires TemplatesValid(ts, now)
    requires forall f :: f in fields ==> TypeConstraintsHold(f)
    ensures TemplatesValid(CreatedTables(ts, name, fields, description, isDefault, now), now + 1)
  {
    var id := NextTemplateId(ts);
    var base := if isDefault then ClearDefaults(ts, now) else ts;
    if isDefault {
      ClearDefaultsValid(ts, now);
    } else {
      TemplatesValidLater(ts, now, now + 1);
    }
    assert |base| == |ts|;
    var row := NewTemplateRow(id, name, description, isDefault, fields, now);
    NewTemplateRowValid(id, name, description, isDefault, fields, now);
    assert NextTemplateId(base) == id by {
      if base != [] {
        assert base[|base| - 1].id == ts[|ts| - 1].id;
      }
    }
    AppendTemplateValid(base, row, now + 1);
    assert base + [row] == CreatedTables(ts, name, fields, description, isDefault, now);
  }

  /** The new row is the one found by its id. */
  lemma CreatedTablesFindId(ts: seq<TemplateRow>, name: string, fields: seq<TemplateField>,
                            description: Option<string>, isDefault: bool, now: int)
    requires Increasing(ts, TemplateId)
    ensures TemplateIndex(CreatedTables(ts, name, fields, description, isDefault, now), NextTemplateId(ts))
            == Some(|ts|)
  {
    var ts' := CreatedTables(ts, name, fields, description, isDefault, now);
    CreatedTablesShape(ts, name, fields, description, isDefault, now);
    forall i | 0 <= i < |ts| ensures ts'[i].id != NextTemplateId(ts) {
      assert ts'[i].id == ts[i].id && ts[i].id <= ts[|ts| - 1].id;
    }
  }

  /** The new row is the one found by its name. */
  lemma CreatedTablesFindName(ts: seq<TemplateRow>, name: string, fields: seq<TemplateField>,
                              description: Option<string>, isDefault: bool, now: int)
    requires Increasing(ts, TemplateId)
    requires NameIndex(ts, name).None?
    ensures NameIndex(CreatedTables(ts, name, fields, description, isDefault, now), name) == Some(|ts|)
  {
    var ts' := CreatedTables(ts, name, fields, description, isDefault, now);
    CreatedTablesShape(ts, name, fields, description, isDefault, now);
    forall i | 0 <= i < |ts| ensures ts'[i].name != name {
      assert ts'[i].name == ts[i].name;
    }
    var r := NameIndex(ts', name);
    assert ts'[|ts|].name == name;
    assert r.Some? && r.value == |ts|;
  }

  /** A new default row is the one found as the default. */
  lemma CreatedTablesFindDefault(ts: seq<TemplateRow>, name: string, fields: seq<TemplateField>,
                                 description: Option<string>, isDefault: bool, now: int)
    requires Increasing(ts, TemplateId) && isDefault
    ensures DefaultIndex(CreatedTables(ts, name, fields, description, isDefault, now)) == Some(|ts|)
  {
    var ts' := CreatedTables(ts, name, fields, description, isDefault, now);
    CreatedTablesShape(ts, name, fields, description, isDefault, now);
    var r := DefaultIndex(ts');
    assert ts'[|ts|].isDefault;
    assert r.Some?;
  }

  /** Creating a template under an unused name keeps template names distinct. */
  lemma CreatedTablesDistinct(ts: seq<TemplateRow>, name: string, fields: seq<TemplateField>,
                              description: Option<string>, isDefault: bool, now: int)
    requires Increasing(ts, TemplateId)
    requires NameIndex(ts, name).None?
    ensures TemplateNamesDistinct(ts) ==>
              TemplateNamesDistinct(CreatedTables(ts, name, fields, description, isDefault, now))
  {
    var ts' := CreatedTables(ts, name, fields, description, isDefault, now);
    CreatedTablesShape(ts, name, fields, description, isDefault, now);
    if TemplateNamesDistinct(ts) {
      forall i, j | 0 <= i < |ts'| && 0 <= j < |ts'| && ts'[i].name == ts'[j].name ensures i == j {
        if i < |ts| && j < |ts| {
          assert ts[i].name == ts[j].name;
        }
      }
    }
  }

  /** A template written by `create_template` reads back with its fields in `order`, up to
      empty options lists, exactly when their names are distinct. */
  lemma CreatedTemplateReadsBack(row: TemplateRow, fields: seq<TemplateField>)
    requires row.fields == FieldsToRows(fields)
    ensures RowsReadable(row.fields)
    ensures ToModel(row).Ok? <==> NamesUnique(fields)
    ensures ToModel(row).Ok? ==> ToModel(row).value.fields == Sort(NormalizedAll(fields), FieldOrderLe)
  {
    FieldsRoundTrip(fields);
    assert NamesUnique(NormalizedAll(fields)) <==> NamesUnique(fields);
  }

  /** The template built from the new row: refused exactly when its fields share a name,
      otherwise found again by its id, by its name and, when it is the default, as the
      default. */
  lemma CreatedTemplateFound(ts: seq<TemplateRow>, name: string, fields: seq<TemplateField>,
                             description: Option<string>, isDefault: bool, now: int)
    requires Increasing(ts, TemplateId) && NameIndex(ts, name).None?
    requires TemplateFieldsValid(CreatedTables(ts, name, fields, description, isDefault, now))
    ensures |CreatedTables(ts, name, fields, description, isDefault, now)| == |ts| + 1
    ensures var ts' := CreatedTables(ts, name, fields, description, isDefault, now);
            RowsReadable(ts'[|ts|].fields)
            && (ToModel(ts'[|ts|]).Ok? <==> NamesUnique(fields))
    ensures var ts' := CreatedTables(ts, name, fields, description, isDefault, now);
            var t := ToModel(ts'[|ts|]);
            t.Ok? ==> t.value.id == Some(NextTemplateId(ts)) && t.value.name == name
                      && t.value.description == description && t.value.isDefault == isDefault
                      && t.value.createdAt == Some(now) && t.value.updatedAt == Some(now)
                      && t.value.fields == Sort(NormalizedAll(fields), FieldOrderLe)
                      && GetTemplate(ts', t.value.id, None) == Ok(Some(t.value))
                      && GetTemplate(ts', None, Some(name)) == Ok(Some(t.value))
                      && (isDefault ==> GetDefaultTemplate(ts') == Ok(Some(t.value)))
  {
    CreatedTablesShape(ts, name, fields, description, isDefault, now);
    CreatedTablesFindId(ts, name, fields, description, isDefault, now);
    CreatedTablesFindName(ts, name, fields, description, isDefault, now);
    if isDefault {
      CreatedTablesFindDefault(ts, name, fields, description, isDefault, now);
    }
    var ts' := CreatedTables(ts, name, fields, description, isDefault, now);
    CreatedTemplateReadsBack(ts'[|ts|], fields);
  }

  /** `create_template`. A name already in use is refused and nothing changes. Otherwise
      the template is stored, and only then built from its rows: a template whose fields
      share a name is stored and yet reported as invalid. A stored template is found again
      by its id and by its name, and when created as the default it is the one default. */
  method CreateTemplate(db: Database, name: string, fields: seq<TemplateField>,
                        description: Option<string>, isDefault: bool)
    returns (r: Result<Template, ServiceError>)
    requires db.Valid()
    requires forall f :: f in fields ==> TypeConstraintsHold(f)
    modifies db
    ensures db.Valid()
    ensures NameIndex(old(db.templates), name).Some? ==>
              r == Err(NameExists(name)) && db.templates == old(db.templates)
              && db.reports == old(db.reports) && db.clock == old(db.clock)
    ensures NameIndex(old(db.templates), name).None? ==>
              db.templates == CreatedTables(old(db.templates), name, fields, description, isDefault, old(db.clock))
              && db.reports == old(db.reports) && db.clock == old(db.clock) + 1
    ensures NameIndex(old(db.templates), name).None? ==> (r.Ok? <==> NamesUnique(fields))
    ensures NameIndex(old(db.templates), name).None? && r.Err? ==> r.error == InvalidTemplate(DuplicateFieldNames)
    ensures r.Ok? ==> r.value.id == Some(NextTemplateId(old(db.templates))) && r.value.name == name
                      && r.value.description == description && r.value.isDefault == isDefault
                      && r.value.createdAt == Some(old(db.clock)) && r.value.updatedAt == Some(old(db.clock))
    ensures r.Ok? ==> r.value.fields == Sort(NormalizedAll(fields), FieldOrderLe)
    ensures r.Ok? ==> GetTemplate(db.templates, r.value.id, None) == Ok(Some(r.value))
    ensures r.Ok? ==> GetTemplate(db.templates, None, Some(name)) == Ok(Some(r.value))
    ensures r.Ok? && isDefault ==> GetDefaultTemplate(db.templates) == Ok(Some(r.value))
    ensures TemplateNamesDistinct(old(db.templates)) ==> TemplateNamesDistinct(db.templates)
  {
    if NameIndex(db.templates, name).Some? {
      return Err(NameExists(name));
    }
    ghost var before := db.templates;
    var now, n := db.clock, |db.templates|;
    AddTemplateRow(db, name, fields, description, isDefault);
    CreatedTemplateFound(before, name, fields, description, isDefault, now);
    var row := db.templates[n];
    match ToModel(row) {
      case Ok(t) => r := Ok(t);
      case Err(e) => r := Err(InvalidTemplate(e));
    }
  }

  /** The insert and commit of `create_template`: the new row is appended and the clock
      ticks. */
  method AddTemplateRow(db: Database, name: string, fields: seq<TemplateField>,
                        description: Option<string>, isDefault: bool)
    requires db.Valid() && NameIndex(db.templates, name).None?
    requires forall f :: f in fields ==> TypeConstraintsHold(f)
    modifies db
    ensures db.Valid()
    ensures db.templates == CreatedTables(old(db.templates), name, fields, description, isDefault, old(db.clock))
    ensures db.reports == old(db.reports) && db.clock == old(db.clock) + 1
    ensures TemplateNamesDistinct(old(db.templates)) ==> TemplateNamesDistinct(db.templates)
  {
    var now := db.clock;
    CreatedTablesValid(db.templates, db.reports, name, fields, description, isDefault, now);
    CreatedTablesDistinct(db.templates, name, fields, description, isDefault, now);
    Commit(db, CreatedTables(db.templates, name, fields, description, isDefault, now), db.reports);
  }

  // ---------------------------------------------------------------------------
  // Updating a template
  // ---------------------------------------------------------------------------

  /** The row `update_template` writes over `cur`, the row as it stands after the optional
      bulk update of the default flags: a given name, description or default flag replaces
      the stored one, given fields replace all field rows, and the row takes the new update
      time when one of its own columns ends up with a different value. */
  function UpdatedRow(cur: TemplateRow, name: Option<string>, description: Option<string>,
                      fields: Option<seq<TemplateField>>, isDefault: Option<bool>, now: int): TemplateRow
  {
    var n := if name.Some? then name.value else cur.name;
    var d := if description.Some? then description else cur.description;
    var f := if isDefault.Some? then isDefault.value else cur.isDefault;
    var changed := n != cur.name || d != cur.description || f != cur.isDefault;
    TemplateRow(cur.id, n, d, f, if fields.Some? then FieldsToRows(fields.value) else cur.fields,
                cur.createdAt, if changed then now else cur.updatedAt)
  }

  /** The tables after `update_template` changes the row at `idx`: every default is cleared
      first when the template is to become the default. */
  function UpdatedTables(ts: seq<TemplateRow>, idx: nat, name: Option<string>, description: Option<string>,
                         fields: Option<seq<TemplateField>>, isDefault: Option<bool>, now: int): seq<TemplateRow>
    requires idx < |ts|
  {
    var base := if isDefault == Some(true) then ClearDefaults(ts, now) else ts;
    base[idx := UpdatedRow(base[idx], name, description, fields, isDefault, now)]
  }

  /** `update_template` refuses a new name that another template already has. */
  predicate UpdateRefused(ts: seq<TemplateRow>, idx: nat, name: Option<string>)
    requires idx < |ts|
  {
    name.Some? && name.value != ts[idx].name && NameIndex(ts, name.value).Some?
  }

  /** The updated row keeps its id and creation time; it takes every given attribute and
      keeps every other one; its update time moves to `now` exactly when the name, the
      description or the default flag was written with a different value, or the bulk
      update cleared its flag. */
  lemma UpdatedRowFacts(ts: seq<TemplateRow>, idx: nat, name: Option<string>, description: Option<string>,
                        fields: Option<seq<TemplateField>>, isDefault: Option<bool>, now: int)
    requires idx < |ts| && ts[idx].updatedAt < now
    ensures var row := UpdatedTables(ts, idx, name, description, fields, isDefault, now)[idx];
            var was := ts[idx];
            && row.id == was.id && row.createdAt == was.createdAt
            && row.name == (if name.Some? then name.value else was.name)
            && row.description == (if description.Some? then description else was.description)
            && row.isDefault == (if isDefault.Some? then isDefault.value else was.isDefault)
            && row.fields == (if fields.Some? then FieldsToRows(fields.value) else was.fields)
            && (row.updatedAt == now <==>
                  row.name != was.name || row.description != was.description || row.isDefault != was.isDefault
                  || (isDefault == Some(true) && was.isDefault))
            && (row.updatedAt != now ==> row.updatedAt == was.updatedAt)
  {
    if isDefault == Some(true) {
      assert ClearDefaults(ts, now)[idx].updatedAt == if ts[idx].isDefault then now else ts[idx].updatedAt;
    }
  }

  /** Every other row keeps its id, name, description, fields and timestamps; only its
      default flag may be cleared, and then its update time moves to `now`. */
  lemma UpdatedOthers(ts: seq<TemplateRow>, idx: nat, name: Option<string>, description: Option<string>,
                      fields: Option<seq<TemplateField>>, isDefault: Option<bool>, now: int)
    requires idx < |ts|
    ensures var ts' := UpdatedTables(ts, idx, name, description, fields, isDefault, now);
            |ts'| == |ts|
            && forall j :: 0 <= j < |ts| && j != idx ==>
                 var cleared := isDefault == Some(true) && ts[j].isDefault;
                 ts'[j] == if cleared then ts[j].(isDefault := false, updatedAt := now) else ts[j]
  {
  }

  /** After the update the tables are valid again. */
  lemma UpdatedTablesValid(ts: seq<TemplateRow>, rs: seq<ReportRow>, idx: nat, name: Option<string>,
                           description: Option<string>, fields: Option<seq<TemplateField>>,
                           isDefault: Option<bool>, now: int)
    requires TemplatesValid(ts, now) && ReportsValid(rs, ts, now) && idx < |ts|
    requires fields.Some? ==> forall f :: f in fields.value ==> TypeConstraintsHold(f)
    ensures var ts' := UpdatedTables(ts, idx, name, description, fields, isDefault, now);
            TemplatesValid(ts', now + 1) && ReportsValid(rs, ts', now + 1)
  {
    var ts' := UpdatedTables(ts, idx, name, description, fields, isDefault, now);
    UpdatedIdsAndTimes(ts, idx, name, description, fields, isDefault, now);
    UpdatedFieldsValid(ts, idx, name, description, fields, isDefault, now);
    UpdatedAtMostOneDefault(ts, idx, name, description, fields, isDefault, now);
    SameIds(ts, ts');
    ReportsValidKept(rs, ts, ts', now, now + 1);
  }

  lemma UpdatedIdsAndTimes(ts: seq<TemplateRow>, idx: nat, name: Option<string>, description: Option<string>,
                           fields: Option<seq<TemplateField>>, isDefault: Option<bool>, now: int)
    requires TemplatesValid(ts, now) && idx < |ts|
    ensures var ts' := UpdatedTables(ts, idx, name, description, fields, isDefault, now);
            |ts'| == |ts|
            && (forall j :: 0 <= j < |ts| ==> ts'[j].id == ts[j].id)
            && Increasing(ts', TemplateId)
            && (forall j :: 0 <= j < |ts'| ==> 1 <= ts'[j].id && ts'[j].createdAt <= ts'[j].updatedAt < now + 1)
  {
    var ts' := UpdatedTables(ts, idx, name, description, fields, isDefault, now);
    UpdatedIdsAndNames(ts, idx, name, description, fields, isDefault, now);
    SameIdsIncreasing(ts, ts');
    UpdatedOthers(ts, idx, name, description, fields, isDefault, now);
    UpdatedRowFacts(ts, idx, name, description, fields, isDefault, now);
  }

  /** The update keeps every row's id and every other row's name, and the updated row
      takes the given name, if any. */
  lemma UpdatedIdsAndNames(ts: seq<TemplateRow>, idx: nat, name: Option<string>, description: Option<string>,
                           fields: Option<seq<TemplateField>>, isDefault: Option<bool>, now: int)
    requires idx < |ts|
    ensures var ts' := UpdatedTables(ts, idx, name, description, fields, isDefault, now);
            |ts'| == |ts|
            && (forall j :: 0 <= j < |ts| ==> ts'[j].id == ts[j].id)
            && (forall j :: 0 <= j < |ts| && j != idx ==> ts'[j].name == ts[j].name)
            && ts'[idx].name == (if name.Some? then name.value else ts[idx].name)
  {
    var base := if isDefault == Some(true) then ClearDefaults(ts, now) else ts;
    assert |base| == |ts|;
    assert forall j :: 0 <= j < |ts| ==> base[j].id == ts[j].id && base[j].name == ts[j].name;
  }

  /** Rows that keep their ids keep the ids in increasing order. */
  lemma SameIdsIncreasing(ts: seq<TemplateRow>, ts': seq<TemplateRow>)
    requires Increasing(ts, TemplateId) && |ts'| == |ts|
    requires forall j :: 0 <= j < |ts| ==> ts'[j].id == ts[j].id
    ensures Increasing(ts', TemplateId)
  {
    forall i, j | 0 <= i < j < |ts'| ensures ts'[i].id < ts'[j].id {
      assert ts[i].id < ts[j].id;
    }
  }

  lemma UpdatedFieldsValid(ts: seq<TemplateRow>, idx: nat, name: Option<string>, description: Option<string>,
                           fields: Option<seq<TemplateField>>, isDefault: Option<bool>, now: int)
    requires TemplateFieldsValid(ts) && idx < |ts|
    requires fields.Some? ==> forall f :: f in fields.value ==> TypeConstraintsHold(f)
    ensures TemplateFieldsValid(UpdatedTables(ts, idx, name, description, fields, isDefault, now))
  {
    var ts' := UpdatedTables(ts, idx, name, description, fields, isDefault, now);
    UpdatedOthers(ts, idx, name, description, fields, isDefault, now);
    forall j | 0 <= j < |ts'| ensures RowsValid(ts'[j].fields) {
      if j != idx {
        assert ts'[j].fields == ts[j].fields;
      } else if fields.Some? {
        assert ts'[j].fields == FieldsToRows(fields.value);
        NewTemplateRowValid(0, "", None, false, fields.value, now);
      } else {
        assert ts'[j].fields == ts[j].fields;
      }
    }
  }

  lemma UpdatedAtMostOneDefault(ts: seq<TemplateRow>, idx: nat, name: Option<string>, description: Option<string>,
                                fields: Option<seq<TemplateField>>, isDefault: Option<bool>, now: int)
    requires AtMostOneDefault(ts) && idx < |ts|
    ensures AtMostOneDefault(UpdatedTables(ts, idx, name, description, fields, isDefault, now))
  {
    var ts' := UpdatedTables(ts, idx, name, description, fields, isDefault, now);
    UpdatedOthers(ts, idx, name, description, fields, isDefault, now);
    UpdatedDefaults(ts, idx, name, description, fields, isDefault, now);
    if isDefault.None? {
      assert forall j :: 0 <= j < |ts| ==> ts'[j].isDefault == ts[j].isDefault;
    }
  }

  /** When the template becomes the default it is the only default; when it stops being
      the default no template is added as one. */
  lemma UpdatedDefaults(ts: seq<TemplateRow>, idx: nat, name: Option<string>, description: Option<string>,
                        fields: Option<seq<TemplateField>>, isDefault: Option<bool>, now: int)
    requires idx < |ts|
    ensures var ts' := UpdatedTables(ts, idx, name, description, fields, isDefault, now);
            (isDefault == Some(true) ==> forall j :: 0 <= j < |ts'| ==> (ts'[j].isDefault <==> j == idx))
            && (isDefault == Some(false) ==> forall j :: 0 <= j < |ts'| ==> (ts'[j].isDefault <==> j != idx && ts[j].isDefault))
  {
    UpdatedOthers(ts, idx, name, description, fields, isDefault, now);
  }

  /** An update that is not refused keeps template names distinct. */
  lemma UpdatedNamesDistinct(ts: seq<TemplateRow>, idx: nat, name: Option<string>, description: Option<string>,
                             fields: Option<seq<TemplateField>>, isDefault: Option<bool>, now: int)
    requires idx < |ts| && !UpdateRefused(ts, idx, name)
    ensures TemplateNamesDistinct(ts) ==>
              TemplateNamesDistinct(UpdatedTables(ts, idx, name, description, fields, isDefault, now))
  {
    if TemplateNamesDistinct(ts) {
      var ts' := UpdatedTables(ts, idx, name, description, fields, isDefault, now);
      UpdatedIdsAndNames(ts, idx, name, description, fields, isDefault, now);
      RenamedDistinct(ts, ts', idx);
    }
  }

  /** Renaming one row of a table with distinct names keeps them distinct when the new
      name is the old one or no row has it. */
  lemma RenamedDistinct(ts: seq<TemplateRow>, ts': seq<TemplateRow>, idx: nat)
    requires TemplateNamesDistinct(ts) && |ts'| == |ts| && idx < |ts|
    requires forall j :: 0 <= j < |ts| && j != idx ==> ts'[j].name == ts[j].name
    requires ts'[idx].name == ts[idx].name || forall k :: 0 <= k < |ts| ==> ts[k].name != ts'[idx].name
    ensures TemplateNamesDistinct(ts')
  {
    forall i, j | 0 <= i < |ts'| && 0 <= j < |ts'| && ts'[i].name == ts'[j].name ensures i == j {
      if i != idx && j != idx {
        assert ts[i].name == ts[j].name;
      }
    }
  }

  /** The updated template is found again by its id, and as the default when it was made
      the default. */
  lemma UpdatedFound(ts: seq<TemplateRow>, idx: nat, name: Option<string>, description: Option<string>,
                     fields: Option<seq<TemplateField>>, isDefault: Option<bool>, now: int)
    requires TemplatesValid(ts, now) && idx < |ts|
    ensures var ts' := UpdatedTables(ts, idx, name, description, fields, isDefault, now);
            TemplateIndex(ts', ts[idx].id) == Some(idx)
            && (isDefault == Some(true) ==> DefaultIndex(ts') == Some(idx))
  {
    var ts' := UpdatedTables(ts, idx, name, description, fields, isDefault, now);
    UpdatedIdsAndTimes(ts, idx, name, description, fields, isDefault, now);
    forall j | 0 <= j < idx ensures ts'[j].id != ts[idx].id {
      assert ts'[j].id == ts[j].id && ts[j].id < ts[idx].id;
    }
    UpdatedDefaults(ts, idx, name, description, fields, isDefault, now);
  }

  /** Stores an update that is not refused, in one transaction. */
  method ApplyUpdate(db: Database, idx: nat, name: Option<string>, description: Option<string>,
                     fields: Option<seq<TemplateField>>, isDefault: Option<bool>)
    requires db.Valid() && idx < |db.templates| && !UpdateRefused(db.templates, idx, name)
    requires fields.Some? ==> forall f :: f in fields.value ==> TypeConstraintsHold(f)
    modifies db
    ensures db.Valid()
    ensures db.templates == UpdatedTables(old(db.templates), idx, name, description, fields, isDefault, old(db.clock))
    ensures db.reports == old(db.reports) && db.clock == old(db.clock) + 1
    ensures TemplateIndex(db.templates, old(db.templates)[idx].id) == Some(idx)
    ensures isDefault == Some(true) ==> DefaultIndex(db.templates) == Some(idx)
    ensures TemplateNamesDistinct(old(db.templates)) ==> TemplateNamesDistinct(db.templates)
  {
    var now := db.clock;
    var ts := UpdatedTables(db.templates, idx, name, description, fields, isDefault, now);
    UpdatedTablesValid(db.templates, db.reports, idx, name, description, fields, isDefault, now);
    UpdatedNamesDistinct(db.templates, idx, name, description, fields, isDefault, now);
    UpdatedFound(db.templates, idx, name, description, fields, isDefault, now);
    Commit(db, ts, db.reports);
  }

  /** The template at a known table position, as `_db_to_model` builds it. */
  function ConvertRow(ts: seq<TemplateRow>, idx: nat): (r: Result<Template, ServiceError>)
    requires TemplateFieldsValid(ts) && idx < |ts|
    ensures r.Ok? <==> ConvertAt(ts, Some(idx)).Ok?
    ensures r.Ok? ==> ConvertAt(ts, Some(idx)) == Ok(Some(r.value))
    ensures r.Err? ==> r.error == InvalidTemplate(DuplicateFieldNames)
  {
    match ConvertAt(ts, Some(idx))
    case Ok(t) => Ok(t.value)
    case Err(e) => Err(e)
  }

  /** `update_template`. An unknown id and a new name another template already has are
      refused and nothing changes. Otherwise the update is stored and the template is then
      built from its rows, which fails when its fields share a name. */
  method UpdateTemplate(db: Database, templateId: int, name: Option<string>, description: Option<string>,
                        fields: Option<seq<TemplateField>>, isDefault: Option<bool>)
    returns (r: Result<Template, ServiceError>)
    requires db.Valid()
    requires fields.Some? ==> forall f :: f in fields.value ==> TypeConstraintsHold(f)
    modifies db
    ensures db.Valid()
    ensures TemplateIndex(old(db.templates), templateId).None? ==>
              r == Err(TemplateNotFound(templateId)) && db.templates == old(db.templates)
              && db.reports == old(db.reports) && db.clock == old(db.clock)
    ensures TemplateIndex(old(db.templates), templateId).Some? &&
            UpdateRefused(old(db.templates), TemplateIndex(old(db.templates), templateId).value, name) ==>
              r == Err(NameExists(name.value)) && db.templates == old(db.templates)
              && db.reports == old(db.reports) && db.clock == old(db.clock)
    ensures TemplateIndex(old(db.templates), templateId).Some? &&
            !UpdateRefused(old(db.templates), TemplateIndex(old(db.templates), templateId).value, name) ==>
              db.templates == UpdatedTables(old(db.templates), TemplateIndex(old(db.templates), templateId).value,
                                            name, description, fields, isDefault, old(db.clock))
              && db.reports == old(db.reports) && db.clock == old(db.clock) + 1
              && (r.Ok? || r == Err(InvalidTemplate(DuplicateFieldNames)))
              && (r.Ok? <==> GetTemplate(db.templates, Some(templateId), None).Ok?)
    ensures fields.None? && TemplateIndex(old(db.templates), templateId).Some? &&
            !UpdateRefused(old(db.templates), TemplateIndex(old(db.templates), templateId).value, name) ==>
              (r.Ok? <==> NamesUnique(FieldsFromRows(old(db.templates)[TemplateIndex(old(db.templates), templateId).value].fields)))
    ensures fields.Some? && TemplateIndex(old(db.templates), templateId).Some? &&
            !UpdateRefused(old(db.templates), TemplateIndex(old(db.templates), templateId).value, name) ==>
              (r.Ok? <==> NamesUnique(fields.value))
    ensures r.Ok? ==> GetTemplate(db.templates, Some(templateId), None) == Ok(Some(r.value))
    ensures r.Ok? && isDefault == Some(true) ==> GetDefaultTemplate(db.templates) == Ok(Some(r.value))
    ensures TemplateNamesDistinct(old(db.templates)) ==> TemplateNamesDistinct(db.templates)
  {
    var found := TemplateIndex(db.templates, templateId);
    if found.None? {
      return Err(TemplateNotFound(templateId));
    }
    var idx := found.value;
    if UpdateRefused(db.templates, idx, name) {
      return Err(NameExists(name.value));
    }
    ApplyUpdate(db, idx, name, description, fields, isDefault);
    r := ConvertRow(db.templates, idx);
    UpdatedRowFacts(old(db.templates), idx, name, description, fields, isDefault, old(db.clock));
    if fields.Some? {
      CreatedTemplateReadsBack(db.templates[idx], fields.value);
    }
  }

  // ---------------------------------------------------------------------------
  // Choosing the default
  // ---------------------------------------------------------------------------

  /** The tables after `set_default_template` makes the row at `idx` the default: every
      default flag is cleared by the bulk update, then the row's flag is set. */
  function DefaultSetTables(ts: seq<TemplateRow>, idx: nat, now: int): seq<TemplateRow>
    requires idx < |ts|
  {
    var cleared := ClearDefaults(ts, now);
    cleared[idx := cleared[idx].(isDefault := true, updatedAt := now)]
  }

  /** Making a template the default changes the tables exactly as an update that only
      asks for the default flag. */
  lemma DefaultSetIsUpdate(ts: seq<TemplateRow>, idx: nat, now: int)
    requires idx < |ts|
    ensures DefaultSetTables(ts, idx, now) == UpdatedTables(ts, idx, None, None, None, Some(true), now)
  {
    var cleared := ClearDefaults(ts, now);
    assert !cleared[idx].isDefault;
  }

  /** `set_default_template`. An unknown id is refused and nothing changes. Otherwise the
      template becomes the one and only default and is then built from its rows; whether
      that succeeds depends only on its fields, which are untouched. */
  method SetDefaultTemplate(db: Database, templateId: int) returns (r: Result<Template, ServiceError>)
    requires db.Valid()
    modifies db
    ensures db.Valid()
    ensures TemplateIndex(old(db.templates), templateId).None? ==>
              r == Err(TemplateNotFound(templateId)) && db.templates == old(db.templates)
              && db.reports == old(db.reports) && db.clock == old(db.clock)
    ensures TemplateIndex(old(db.templates), templateId).Some? ==>
              var idx := TemplateIndex(old(db.templates), templateId).value;
              && db.templates == DefaultSetTables(old(db.templates), idx, old(db.clock))
              && db.reports == old(db.reports) && db.clock == old(db.clock) + 1
              && (forall j :: 0 <= j < |db.templates| ==> (db.templates[j].isDefault <==> j == idx))
              && RowsValid(old(db.templates)[idx].fields)
              && (r.Ok? <==> NamesUnique(FieldsFromRows(old(db.templates)[idx].fields)))
              && (r.Err? ==> r.error == InvalidTemplate(DuplicateFieldNames))
    ensures r.Ok? ==> r.value.id == Some(templateId) && r.value.isDefault
    ensures r.Ok? ==> GetDefaultTemplate(db.templates) == Ok(Some(r.value))
    ensures TemplateNamesDistinct(old(db.templates)) ==> TemplateNamesDistinct(db.templates)
  {
    var found := TemplateIndex(db.templates, templateId);
    if found.None? {
      return Err(TemplateNotFound(templateId));
    }
    var idx := found.value;
    DefaultSetIsUpdate(db.templates, idx, db.clock);
    UpdatedDefaults(db.templates, idx, None, None, None, Some(true), db.clock);
    UpdatedRowFacts(db.templates, idx, None, None, None, Some(true), db.clock);
    ApplyUpdate(db, idx, None, None, None, Some(true));
    assert RowsValid(old(db.templates)[idx].fields);
    r := ConvertRow(db.templates, idx);
  }

  // ---------------------------------------------------------------------------
  // Deleting a template
  // ---------------------------------------------------------------------------

  /** The first report written with the given template, if any. */
  function ReportUsing(rs: seq<ReportRow>, templateId: int): (r: Option<nat>)
    ensures r.Some? ==> r.value < |rs| && rs[r.value].templateId == templateId
    ensures r.None? <==> forall i :: 0 <= i < |rs| ==> rs[i].templateId != templateId
  {
    IndexOf(rs, (x: ReportRow) => x.templateId == templateId)
  }

  lemma RemovedAtMostOneDefault(ts: seq<TemplateRow>, idx: nat)
    requires idx < |ts| && AtMostOneDefault(ts)
    ensures AtMostOneDefault(Without(ts, idx))
  {
    var ts' := Without(ts, idx);
    forall i, j | 0 <= i < |ts'| && 0 <= j < |ts'| && ts'[i].isDefault && ts'[j].isDefault ensures i == j {
      assert ts[Kept(idx, i)].isDefault && ts[Kept(idx, j)].isDefault;
    }
  }

  /** The removed id is no longer found; every other id still is. */
  lemma RemovedIds(ts: seq<TemplateRow>, idx: nat)
    requires idx < |ts| && Increasing(ts, TemplateId)
    ensures TemplateIndex(Without(ts, idx), ts[idx].id).None?
    ensures forall k :: 0 <= k < |ts| && k != idx ==> TemplateIndex(Without(ts, idx), ts[k].id).Some?
  {
    var ts' := Without(ts, idx);
    forall t | t in ts' ensures t.id != ts[idx].id {
      var j :| 0 <= j < |ts'| && ts'[j] == t;
      assert Kept(idx, j) != idx;
    }
    forall k | 0 <= k < |ts| && k != idx ensures TemplateIndex(ts', ts[k].id).Some? {
      var j := if k < idx then k else k - 1;
      assert ts'[j] == ts[k];
    }
  }

  /** Removing a template that no report uses keeps the tables valid. */
  lemma RemovedTablesValid(ts: seq<TemplateRow>, rs: seq<ReportRow>, idx: nat, now: int)
    requires TemplatesValid(ts, now) && ReportsValid(rs, ts, now) && idx < |ts|
    requires ReportUsing(rs, ts[idx].id).None?
    ensures TemplatesValid(Without(ts, idx), now + 1) && ReportsValid(rs, Without(ts, idx), now + 1)
  {
    var ts' := Without(ts, idx);
    WithoutIncreasing(ts, idx, TemplateId);
    RemovedAtMostOneDefault(ts, idx);
    RemovedIds(ts, idx);
    forall x | x in rs ensures TemplateIndex(ts', x.templateId).Some? {
      var k := TemplateIndex(ts, x.templateId).value;
      assert k != idx;
    }
  }

  /** Removing a template that is not the default keeps the default and keeps names
      distinct. */
  lemma RemovedKeeps(ts: seq<TemplateRow>, idx: nat)
    requires idx < |ts| && !ts[idx].isDefault
    ensures DefaultIndex(ts).Some? ==> DefaultIndex(Without(ts, idx)).Some?
    ensures TemplateNamesDistinct(ts) ==> TemplateNamesDistinct(Without(ts, idx))
  {
    var ts' := Without(ts, idx);
    if DefaultIndex(ts).Some? {
      var d := DefaultIndex(ts).value;
      var d' := if d < idx then d else d - 1;
      assert ts'[d'] == ts[d];
    }
    if TemplateNamesDistinct(ts) {
      forall i, j | 0 <= i < |ts'| && 0 <= j < |ts'| && ts'[i].name == ts'[j].name ensures i == j {
        assert ts[Kept(idx, i)].name == ts[Kept(idx, j)].name;
      }
    }
  }

  /** Removes the row at `idx`, which is not the default and which no report uses, and
      commits. */
  method RemoveTemplateRow(db: Database, idx: nat)
    requires db.Valid() && idx < |db.templates| && !db.templates[idx].isDefault
    requires ReportUsing(db.reports, db.templates[idx].id).None?
    modifies db
    ensures db.Valid()
    ensures db.templates == Without(old(db.templates), idx)
    ensures db.reports == old(db.reports) && db.clock == old(db.clock) + 1
    ensures TemplateIndex(db.templates, old(db.templates)[idx].id).None?
    ensures DefaultIndex(old(db.templates)).Some? ==> DefaultIndex(db.templates).Some?
    ensures TemplateNamesDistinct(old(db.templates)) ==> TemplateNamesDistinct(db.templates)
  {
    RemovedTablesValid(db.templates, db.reports, idx, db.clock);
    RemovedIds(db.templates, idx);
    RemovedKeeps(db.templates, idx);
    Commit(db, Without(db.templates, idx), db.reports);
  }

  /** `delete_template`. An unknown id gives `false` and the default template is refused;
      a template that reports were written with cannot be removed either (the database
      refuses to leave those reports without a template). Otherwise the row and its
      fields are removed. Either way the default template survives. */
  method DeleteTemplate(db: Database, templateId: int) returns (r: Result<bool, ServiceError>)
    requires db.Valid()
    modifies db
    ensures db.Valid()
    ensures TemplateIndex(old(db.templates), templateId).None? ==>
              r == Ok(false) && db.templates == old(db.templates)
              && db.reports == old(db.reports) && db.clock == old(db.clock)
    ensures TemplateIndex(old(db.templates), templateId).Some? ==>
              var idx := TemplateIndex(old(db.templates), templateId).value;
              && (old(db.templates)[idx].isDefault ==>
                    r == Err(DefaultNotDeletable) && db.templates == old(db.templates)
                    && db.reports == old(db.reports) && db.clock == old(db.clock))
              && (!old(db.templates)[idx].isDefault && ReportUsing(old(db.reports), templateId).Some? ==>
                    r == Err(TemplateInUse(templateId)) && db.templates == old(db.templates)
                    && db.reports == old(db.reports) && db.clock == old(db.clock))
              && (!old(db.templates)[idx].isDefault && ReportUsing(old(db.reports), templateId).None? ==>
                    r == Ok(true) && db.templates == Without(old(db.templates), idx)
                    && db.reports == old(db.reports) && db.clock == old(db.clock) + 1)
    ensures r.Ok? ==> TemplateIndex(db.templates, templateId).None?
    ensures DefaultIndex(old(db.templates)).Some? ==> DefaultIndex(db.templates).Some?
    ensures TemplateNamesDistinct(old(db.templates)) ==> TemplateNamesDistinct(db.templates)
  {
    var found := TemplateIndex(db.templates, templateId);
    if found.None? {
      return Ok(false);
    }
    var idx := found.value;
    if db.templates[idx].isDefault {
      return Err(DefaultNotDeletable);
    }
    if ReportUsing(db.reports, templateId).Some? {
      return Err(TemplateInUse(templateId));
    }
    RemoveTemplateRow(db, idx);
    return Ok(true);
  }

  // ---------------------------------------------------------------------------
  // Checking a template before it is saved
  // ---------------------------------------------------------------------------

  /** One complaint of `validate_template_data`. Field positions count from 1. */
  datatype TemplateIssue =
    | NameRequired
    | FieldsRequired
    | RepeatedFieldNames
    | FieldNameRequired(position: int)
    | FieldLabelRequired(position: int)
    | OptionsRequired(position: int, fieldName: string)

  /** A selection field offers no options (`not field.options`). */
  predicate LacksOptions(f: TemplateField)
  {
    f.fieldType == Selection && (f.options.None? || f.options.value == [])
  }

  /** The complaints about the field at `position`, in the order they are raised. */
  function FieldIssues(f: TemplateField, position: int): seq<TemplateIssue>
  {
    (if IsBlank(f.name) then [FieldNameRequired(position)] else [])
    + (if IsBlank(f.labelText) then [FieldLabelRequired(position)] else [])
    + (if LacksOptions(f) then [OptionsRequired(position, f.name)] else [])
  }

  /** The complaints about the first `n` fields. */
  function FieldIssuesUpTo(fs: seq<TemplateField>, n: nat): seq<TemplateIssue>
    requires n <= |fs|
  {
    if n == 0 then [] else FieldIssuesUpTo(fs, n - 1) + FieldIssues(fs[n - 1], n)
  }

  /** Every complaint about a template, in the order they are raised: the name, the
      field list, repeated field names, then each field in turn. */
  function TemplateIssues(t: Template): seq<TemplateIssue>
  {
    (if IsBlank(t.name) then [NameRequired] else [])
    + (if t.fields == [] then [FieldsRequired] else [])
    + (if RepeatsFieldName(t.fields) then [RepeatedFieldNames] else [])
    + FieldIssuesUpTo(t.fields, |t.fields|)
  }

  /** `validate_template_data`: collects the complaints about a template. */
  method ValidateTemplateData(t: Template) returns (issues: seq<TemplateIssue>)
    ensures issues == TemplateIssues(t)
  {
    issues := [];
    if IsBlank(t.name) {
      issues := issues + [NameRequired];
    }
    if t.fields == [] {
      issues := issues + [FieldsRequired];
    }
    if RepeatsFieldName(t.fields) {
      issues := issues + [RepeatedFieldNames];
    }
    issues := AddFieldIssues(t.fields, issues);
  }

  /** The loop over the fields of `validate_template_data`: appends each field's
      complaints in turn. */
  method AddFieldIssues(fields: seq<TemplateField>, issues: seq<TemplateIssue>) returns (all: seq<TemplateIssue>)
    ensures all == issues + FieldIssuesUpTo(fields, |fields|)
  {
    all := issues;
    var i := 0;
    while i < |fields|
      invariant 0 <= i <= |fields|
      invariant all == issues + FieldIssuesUpTo(fields, i)
    {
      var f := fields[i];
      ghost var before := all;
      if IsBlank(f.name) {
        all := all + [FieldNameRequired(i + 1)];
      }
      ghost var afterName := all;
      if IsBlank(f.labelText) {
        all := all + [FieldLabelRequired(i + 1)];
      }
      ghost var afterLabel := all;
      if LacksOptions(f) {
        all := all + [OptionsRequired(i + 1, f.name)];
      }
      FieldIssuesSteps(issues, FieldIssuesUpTo(fields, i), before, afterName, afterLabel, all, f, i + 1);
      i := i + 1;
    }
  }

  /** Appending a field's complaints one condition at a time appends `FieldIssues`. */
  lemma FieldIssuesSteps(head: seq<TemplateIssue>, done: seq<TemplateIssue>,
                         s0: seq<TemplateIssue>, s1: seq<TemplateIssue>, s2: seq<TemplateIssue>,
                         s3: seq<TemplateIssue>, f: TemplateField, position: int)
    requires s0 == head + done
    requires s1 == s0 + (if IsBlank(f.name) then [FieldNameRequired(position)] else [])
    requires s2 == s1 + (if IsBlank(f.labelText) then [FieldLabelRequired(position)] else [])
    requires s3 == s2 + (if LacksOptions(f) then [OptionsRequired(position, f.name)] else [])
    ensures s3 == head + (done + FieldIssues(f, position))
  {
    assert s3 == s0 + FieldIssues(f, position);
  }

  /** `x` is a complaint that one of the first `n` fields earns. */
  predicate Earned(fs: seq<TemplateField>, n: nat, x: TemplateIssue)
    requires n <= |fs|
  {
    match x
    case FieldNameRequired(p) => 1 <= p <= n && IsBlank(fs[p - 1].name)
    case FieldLabelRequired(p) => 1 <= p <= n && IsBlank(fs[p - 1].labelText)
    case OptionsRequired(p, name) => 1 <= p <= n && LacksOptions(fs[p - 1]) && fs[p - 1].name == name
    case _ => false
  }

  /** The complaints about one field are exactly the ones it earns at its position. */
  lemma FieldIssuesMembers(fs: seq<TemplateField>, n: nat, x: TemplateIssue)
    requires 1 <= n <= |fs|
    ensures x in FieldIssues(fs[n - 1], n) <==> Earned(fs, n, x) && !Earned(fs, n - 1, x)
  {
  }

  /** The per-field complaints are exactly the complaints the fields earn: each kind
      appears at the positions of the fields that earn it and nowhere else. */
  lemma {:induction false} FieldIssuePositions(fs: seq<TemplateField>, n: nat, x: TemplateIssue)
    requires n <= |fs|
    ensures x in FieldIssuesUpTo(fs, n) <==> Earned(fs, n, x)
  {
    if n > 0 {
      FieldIssuePositions(fs, n - 1, x);
      FieldIssuesMembers(fs, n, x);
      EarnedGrows(fs, n, x);
      var prev, cur := FieldIssuesUpTo(fs, n - 1), FieldIssues(fs[n - 1], n);
      assert FieldIssuesUpTo(fs, n) == prev + cur;
      assert x in prev + cur <==> x in prev || x in cur;
    }
  }

  /** A complaint earned by the first `n - 1` fields is earned by the first `n`. */
  lemma EarnedGrows(fs: seq<TemplateField>, n: nat, x: TemplateIssue)
    requires 1 <= n <= |fs|
    ensures Earned(fs, n - 1, x) ==> Earned(fs, n, x)
  {
  }

  /** No field earns a complaint exactly when every field has a name, a label and, for a
      selection field, options. */
  lemma {:induction false} FieldIssuesEmpty(fs: seq<TemplateField>, n: nat)
    requires n <= |fs|
    ensures FieldIssuesUpTo(fs, n) == [] <==>
              forall i :: 0 <= i < n ==> !IsBlank(fs[i].name) && !IsBlank(fs[i].labelText) && !LacksOptions(fs[i])
  {
    if n > 0 {
      FieldIssuesEmpty(fs, n - 1);
    }
  }

  /** A template draws no complaint exactly when its name is not blank, it has fields, their
      names are unique, and each field has a name, a label and, for a selection field,
      options. */
  lemma TemplateIssuesEmpty(t: Template)
    ensures TemplateIssues(t) == [] <==>
              && !IsBlank(t.name) && t.fields != [] && NamesUnique(t.fields)
              && forall i :: 0 <= i < |t.fields| ==>
                   !IsBlank(t.fields[i].name) && !IsBlank(t.fields[i].labelText) && !LacksOptions(t.fields[i])
  {
    RepeatsFieldNameIff(t.fields);
    FieldIssuesEmpty(t.fields, |t.fields|);
  }

  /** The repeated-names complaint is raised exactly when the duplicate-name check that
      guards building a template would refuse it. */
  lemma RepeatedNamesIssue(t: Template)
    ensures RepeatedFieldNames in TemplateIssues(t) <==> ValidateUniqueFieldNames(t).Err?
  {
    RepeatsFieldNameIff(t.fields);
    FieldIssuePositions(t.fields, |t.fields|, RepeatedFieldNames);
  }

  /** Missing options are reported, with the field's name, exactly where a field fails its
      type check as a selection field. */
  lemma OptionsIssue(t: Template, p: int, name: string)
    ensures OptionsRequired(p, name) in TemplateIssues(t) <==>
              1 <= p <= |t.fields| && t.fields[p - 1].name == name && t.fields[p - 1].fieldType == Selection
              && ValidateFieldTypeConstraints(t.fields[p - 1]).Err?
  {
    var x := OptionsRequired(p, name);
    PerFieldIssue(t, x);
    FieldIssuePositions(t.fields, |t.fields|, x);
    if 1 <= p <= |t.fields| {
      SelectionRefusedIff(t.fields[p - 1]);
    }
  }

  /** A complaint about one field is raised exactly when the field loop raises it. */
  lemma PerFieldIssue(t: Template, x: TemplateIssue)
    requires x.FieldNameRequired? || x.FieldLabelRequired? || x.OptionsRequired?
    ensures x in TemplateIssues(t) <==> x in FieldIssuesUpTo(t.fields, |t.fields|)
  {
  }

  /** A selection field fails its type check exactly when it lacks options. */
  lemma SelectionRefusedIff(f: TemplateField)
    ensures f.fieldType == Selection && ValidateFieldTypeConstraints(f).Err? <==> LacksOptions(f)
  {
  }
}
