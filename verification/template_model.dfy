/** The in-memory template: its fields, the constraints a field's type places on it, the
    rule that field names are unique, and the standard template shipped with the tool. */
module TemplateModel {
  import opened Wrappers
  import opened FieldTypes

  /** One input field of a template. `order` is the display position. */
  datatype TemplateField = TemplateField(
    name: string,
    labelText: string,
    fieldType: FieldType,
    required: bool,
    defaultValue: Option<string>,
    options: Option<seq<string>>,
    placeholder: Option<string>,
    maxLength: Option<int>,
    order: int)

  /** Why building a template or one of its fields was refused. */
  datatype ModelError =
    | SelectionWithoutOptions
    | TextMaxLengthOver255
    | DuplicateFieldNames

  /** A field with every optional attribute at its declared default: required, no default
      value, no options, no placeholder, no length limit, order 0. */
  function NewField(name: string, labelText: string, fieldType: FieldType): (f: TemplateField)
    ensures f.name == name && f.labelText == labelText && f.fieldType == fieldType
    ensures f.required && f.order == 0
    ensures f.defaultValue.None? && f.options.None? && f.placeholder.None? && f.maxLength.None?
  {
    TemplateField(name, labelText, fieldType, true, None, None, None, None, 0)
  }

  /** What a field's type demands of it: a selection field lists at least one option, and a
      text field's length limit, when it has one, is at most 255. */
  predicate TypeConstraintsHold(f: TemplateField)
  {
    (f.fieldType == Selection ==> f.options.Some? && |f.options.value| > 0)
    && (f.fieldType == Text && f.maxLength.Some? ==> f.maxLength.value <= 255)
  }

  /** The check run whenever a field is built. The length limit is tested only when it is
      truthy, so a limit of 0 passes like a missing one; the selection check comes first. */
  function ValidateFieldTypeConstraints(f: TemplateField): (r: Result<TemplateField, ModelError>)
    ensures r.Ok? <==> TypeConstraintsHold(f)
    ensures r.Ok? ==> r.value == f
    ensures r.Err? && f.fieldType == Selection ==> r.error == SelectionWithoutOptions
    ensures r.Err? && f.fieldType != Selection ==> f.fieldType == Text && r.error == TextMaxLengthOver255
  {
    if f.fieldType == Selection && (f.options.None? || f.options.value == []) then
      Err(SelectionWithoutOptions)
    else if f.fieldType == Text && f.maxLength.Some? && f.maxLength.value != 0 && f.maxLength.value > 255 then
      Err(TextMaxLengthOver255)
    else
      Ok(f)
  }

  /** A field built with only the required attributes is accepted unless it is a selection
      field, which then has no options. */
  lemma NewFieldAccepted(name: string, labelText: string, fieldType: FieldType)
    ensures ValidateFieldTypeConstraints(NewField(name, labelText, fieldType)).Ok? <==> fieldType != Selection
  {
  }

  /** A template. `id` and the timestamps are absent until it is stored. */
  datatype Template = Template(
    id: Option<int>,
    name: string,
    description: Option<string>,
    fields: seq<TemplateField>,
    isDefault: bool,
    createdAt: Option<int>,
    updatedAt: Option<int>)

  function FieldNames(fields: seq<TemplateField>): (names: seq<string>)
    ensures |names| == |fields|
    ensures forall i :: 0 <= i < |fields| ==> names[i] == fields[i].name
  {
    if fields == [] then [] else [fields[0].name] + FieldNames(fields[1..])
  }

  /** No two fields of the list share a name. */
  predicate NamesUnique(fields: seq<TemplateField>)
  {
    forall i, j :: 0 <= i < j < |fields| ==> fields[i].name != fields[j].name
  }

  predicate Distinct(s: seq<string>)
  {
    forall i, j :: 0 <= i < j < |s| ==> s[i] != s[j]
  }

  /** A list has as many distinct elements as entries exactly when no entry repeats. */
  lemma {:induction false} SetSizeIffDistinct(s: seq<string>)
    ensures |set x | x in s| <= |s|
    ensures |set x | x in s| == |s| <==> Distinct(s)
  {
    if s != [] {
      var t := s[1..];
      SetSizeIffDistinct(t);
      DistinctCons(s);
      assert (set x | x in s) == {s[0]} + (set x | x in t) by {
        assert s == [s[0]] + t;
      }
      if s[0] in t {
        assert (set x | x in s) == (set x | x in t);
      }
    }
  }

  /** A list is free of repeats when its head does not recur and its tail is free of
      repeats. */
  lemma DistinctCons(s: seq<string>)
    requires s != []
    ensures Distinct(s) <==> s[0] !in s[1..] && Distinct(s[1..])
  {
    var t := s[1..];
    if s[0] in t {
      var k :| 0 <= k < |t| && t[k] == s[0];
      assert s[0] == s[k + 1];
    }
    if Distinct(s) {
      forall i, j | 0 <= i < j < |t| ensures t[i] != t[j] {
        assert t[i] == s[i + 1] && t[j] == s[j + 1];
      }
    }
    if s[0] !in t && Distinct(t) {
      forall i, j | 0 <= i < j < |s| ensures s[i] != s[j] {
        assert s[j] == t[j - 1];
        if i > 0 { assert s[i] == t[i - 1]; }
      }
    }
  }

  lemma NamesUniqueIffDistinct(fields: seq<TemplateField>)
    ensures NamesUnique(fields) <==> Distinct(FieldNames(fields))
  {
    var names := FieldNames(fields);
    if Distinct(names) {
      forall i, j | 0 <= i < j < |fields| ensures fields[i].name != fields[j].name {
        assert names[i] != names[j];
      }
    }
  }

  /** Whether field names repeat does not depend on the order of the fields. */
  lemma NamesUniquePermutation(a: seq<TemplateField>, b: seq<TemplateField>)
    requires multiset(a) == multiset(b)
    ensures NamesUnique(a) <==> NamesUnique(b)
  {
    var na, nb := FieldNames(a), FieldNames(b);
    assert |a| == |b| by {
      assert |multiset(a)| == |multiset(b)|;
    }
    forall x | x in na ensures x in nb {
      var i :| 0 <= i < |na| && na[i] == x;
      assert a[i] in multiset(b);
      var j :| 0 <= j < |b| && b[j] == a[i];
      assert nb[j] == x;
    }
    forall x | x in nb ensures x in na {
      var i :| 0 <= i < |nb| && nb[i] == x;
      assert b[i] in multiset(a);
      var j :| 0 <= j < |a| && a[j] == b[i];
      assert na[j] == x;
    }
    assert (set x | x in na) == (set x | x in nb);
    SetSizeIffDistinct(na);
    SetSizeIffDistinct(nb);
    NamesUniqueIffDistinct(a);
    NamesUniqueIffDistinct(b);
  }

  /** The duplicate test used wherever field names are checked: the list of names is
      longer than the set of names. */
  predicate RepeatsFieldName(fields: seq<TemplateField>)
  {
    var names := FieldNames(fields);
    |names| != |set n | n in names|
  }

  /** Comparing the count of names with the count of distinct names detects exactly the
      lists in which two fields share a name. */
  lemma RepeatsFieldNameIff(fields: seq<TemplateField>)
    ensures RepeatsFieldName(fields) <==> !NamesUnique(fields)
  {
    SetSizeIffDistinct(FieldNames(fields));
    NamesUniqueIffDistinct(fields);
  }

  /** The check run whenever a template is built. */
  function ValidateUniqueFieldNames(t: Template): (r: Result<Template, ModelError>)
    ensures r.Ok? <==> NamesUnique(t.fields)
    ensures r.Ok? ==> r.value == t
    ensures r.Err? ==> r.error == DuplicateFieldNames
  {
    RepeatsFieldNameIff(t.fields);
    if RepeatsFieldName(t.fields) then Err(DuplicateFieldNames) else Ok(t)
  }

  /** A template with only the required attributes: no id, description or timestamps,
      not the default, checked for repeated field names. */
  function NewTemplate(name: string, fields: seq<TemplateField>): (r: Result<Template, ModelError>)
    ensures r.Ok? <==> NamesUnique(fields)
    ensures r.Ok? ==> r.value.id.None? && r.value.name == name && r.value.description.None?
                      && r.value.fields == fields && !r.value.isDefault
                      && r.value.createdAt.None? && r.value.updatedAt.None?
  {
    ValidateUniqueFieldNames(Template(None, name, None, fields, false, None, None))
  }

  // ---------------------------------------------------------------------------
  // The standard template
  // ---------------------------------------------------------------------------

  const ProgressOptions: seq<string> := ["完了", "進行中", "未着手"]

  function StandardFields(): seq<TemplateField>
  {
    [ TemplateField("date", "日付", Date, true, Some(DateDefaultTag(Today)), None, None, None, 1),
      TemplateField("project", "プロジェクト名", Text, true, None, None, Some("例: プロジェクトA"), Some(100), 2),
      TemplateField("start_time", "開始時刻", Time, false, Some("09:00"), None, None, None, 3),
      TemplateField("end_time", "終了時刻", Time, false, Some("18:00"), None, None, None, 4),
      TemplateField("content", "作業内容", Memo, true, None, None, Some("今日の作業内容を記入してください"), None, 5),
      TemplateField("progress", "進捗状況", Selection, true, Some("進行中"), Some(ProgressOptions), None, None, 6),
      TemplateField("issues", "課題・問題点", Memo, false, None, None, Some("課題や問題点があれば記入してください"), None, 7),
      TemplateField("tomorrow_plan", "明日の予定", Memo, false, None, None, Some("明日の作業予定を記入してください"), None, 8),
      TemplateField("notes", "備考・メモ", Memo, false, None, None, Some("その他のメモや備考"), None, 9) ]
  }

  /** The standard daily-report template, marked as the default and not yet stored. */
  function CreateDefaultTemplate(): (t: Template)
    ensures t.id.None? && t.isDefault && t.createdAt.None? && t.updatedAt.None?
    ensures t.name == "標準テンプレート" && t.description == Some("日報作成用の標準テンプレート")
  {
    Template(None, "標準テンプレート", Some("日報作成用の標準テンプレート"), StandardFields(), true, None, None)
  }

  const StandardFieldNames: seq<string> :=
    ["date", "project", "start_time", "end_time", "content", "progress", "issues", "tomorrow_plan", "notes"]

  /** The standard template's nine field names are pairwise distinct, so it passes the
      duplicate-name check it is built with. */
  lemma DefaultTemplateNamesUnique()
    ensures FieldNames(CreateDefaultTemplate().fields) == StandardFieldNames
    ensures ValidateUniqueFieldNames(CreateDefaultTemplate()) == Ok(CreateDefaultTemplate())
  {
    StandardFieldNamesInOrder();
    StandardNamesDistinct();
    NamesUniqueIffDistinct(StandardFields());
  }

  lemma StandardFieldNamesInOrder()
    ensures FieldNames(StandardFields()) == StandardFieldNames
  {
    var fs := StandardFields();
    assert forall i :: 0 <= i < |fs| ==> fs[i].name == StandardFieldNames[i];
  }

  lemma StandardNamesDistinct()
    ensures Distinct(StandardFieldNames)
  {
    var ns := StandardFieldNames;
    forall i, j | 0 <= i < j < |ns| ensures ns[i] != ns[j] {
      assert |ns[i]| != |ns[j]| || ns[i][0] != ns[j][0];
    }
  }

  /** Every field of the standard template passes its type check; the template lists its
      nine fields in display order 1 to 9, starts with a required date field defaulting to
      today, limits the project name to 100 characters, and offers its progress default
      among the progress options. */
  lemma DefaultTemplateFields()
    ensures var fs := CreateDefaultTemplate().fields;
      && |fs| == 9
      && (forall f :: f in fs ==> ValidateFieldTypeConstraints(f) == Ok(f))
      && (forall i :: 0 <= i < |fs| ==> fs[i].order == i + 1)
      && fs[0].name == "date" && fs[0].fieldType == Date && fs[0].required
      && fs[0].defaultValue == Some("today")
      && fs[1].name == "project" && fs[1].fieldType == Text && fs[1].maxLength == Some(100)
      && fs[5].options == Some(ProgressOptions) && fs[5].defaultValue.value in ProgressOptions
  {
  }
}
