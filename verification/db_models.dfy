/** The row objects of the template-field and report tables, with the properties that
    keep an options list and a report's data as JSON text in a column, and the column
    defaults. */
module DbModels {
  import opened Wrappers
  import opened Json
  import opened ReportModel

  // ---------------------------------------------------------------------------
  // Options column
  // ---------------------------------------------------------------------------

  /** The options column written for an options list: the list's JSON text, or nothing
      for no list and for an empty one. */
  function StoreOptions(value: Option<seq<string>>): (column: Option<string>)
    ensures column.None? <==> value.None? || value.value == []
    ensures column.Some? ==> DecodeList(column.value) == value
  {
    if value.Some? && value.value != [] then
      ListRoundTrip(value.value);
      Some(EncodeList(value.value))
    else None
  }

  /** A column the options getter can read: empty, or the text of a list. */
  predicate OptionsColumnReadable(column: Option<string>)
  {
    column.None? || column.value == [] || DecodeList(column.value).Some?
  }

  /** The options list read from the column; an empty column reads as no list. */
  function LoadOptions(column: Option<string>): (r: Option<seq<string>>)
    requires OptionsColumnReadable(column)
    ensures column.None? || column.value == [] ==> r.None?
  {
    if column.Some? && column.value != [] then DecodeList(column.value) else None
  }

  /** Writing an options list and reading it back gives the same list in the same order,
      except that an empty list comes back as no list. */
  lemma OptionsRoundTrip(value: Option<seq<string>>)
    ensures OptionsColumnReadable(StoreOptions(value))
    ensures LoadOptions(StoreOptions(value)) == if value.Some? && value.value == [] then None else value
  {
    if value.Some? && value.value != [] {
      assert EncodeList(value.value)[0] == '[';
    }
  }

  /** One row of the template-field table. */
  class TemplateFieldDb {
    var templateId: int
    var name: string
    var labelText: string
    var fieldType: string
    var required: bool
    var defaultValue: Option<string>
    var optionsJson: Option<string>
    var placeholder: Option<string>
    var maxLength: Option<int>
    var order: int

    ghost predicate Valid()
      reads this
    {
      OptionsColumnReadable(optionsJson)
    }

    /** A row with the column defaults: required, order 0, every nullable column empty. */
    constructor (templateId: int, name: string, labelText: string, fieldType: string)
      ensures Valid()
      ensures this.templateId == templateId && this.name == name && this.labelText == labelText
      ensures this.fieldType == fieldType && required && order == 0
      ensures defaultValue.None? && optionsJson.None? && placeholder.None? && maxLength.None?
    {
      this.templateId := templateId;
      this.name := name;
      this.labelText := labelText;
      this.fieldType := fieldType;
      this.required := true;
      this.defaultValue := None;
      this.optionsJson := None;
      this.placeholder := None;
      this.maxLength := None;
      this.order := 0;
    }

    function Options(): (r: Option<seq<string>>)
      requires Valid()
      reads this
    {
      LoadOptions(optionsJson)
    }

    /** The options setter: an empty list is stored as no list; a non-empty one reads back
        unchanged. */
    method SetOptions(value: Option<seq<string>>)
      modifies this
      ensures Valid()
      ensures optionsJson == StoreOptions(value)
      ensures Options() == if value.Some? && value.value == [] then None else value
      ensures templateId == old(templateId) && name == old(name) && labelText == old(labelText)
      ensures fieldType == old(fieldType) && required == old(required) && defaultValue == old(defaultValue)
      ensures placeholder == old(placeholder) && maxLength == old(maxLength) && order == old(order)
    {
      OptionsRoundTrip(value);
      optionsJson := StoreOptions(value);
    }
  }

  // ---------------------------------------------------------------------------
  // Report rows
  // ---------------------------------------------------------------------------

  /** One row of the report table; `dataJson` holds the report's data as JSON text. */
  class ReportDb {
    var id: Option<int>
    var templateId: int
    var dataJson: string
    var createdAt: Option<int>
    var updatedAt: Option<int>

    ghost predicate Valid()
      reads this
    {
      DecodeObject(dataJson).Some?
    }

    /** A row built with a template and data; the data go through the data setter. */
    constructor (templateId: int, data: Document)
      ensures Valid() && Data() == data
      ensures this.templateId == templateId && id.None? && createdAt.None? && updatedAt.None?
    {
      var text := EncodeDocument(data);
      this.id := None;
      this.templateId := templateId;
      this.createdAt := None;
      this.updatedAt := None;
      this.dataJson := text;
    }

    /** The data getter: the column's JSON text read back as a dictionary. */
    function Data(): Document
      requires Valid()
      reads this
    {
      DecodeObject(dataJson).value
    }

    /** The data setter: the new data read back unchanged. */
    method SetData(value: Document)
      modifies this
      ensures Valid() && Data() == value
      ensures id == old(id) && templateId == old(templateId)
      ensures createdAt == old(createdAt) && updatedAt == old(updatedAt)
    {
      dataJson := EncodeDocument(value);
    }

    /** `get_field_value`: the decoded value under `name`, `None` when the key is absent. */
    function GetFieldValue(name: string): (r: Option<string>)
      requires Valid()
      reads this
      ensures name !in Data() ==> r.None?
      ensures name in Data() ==> r == Data()[name]
    {
      Lookup(Data(), name)
    }

    /** Reads the data, sets one key and writes the data back: that key reads back the new
        value and every other key keeps its value. */
    method SetFieldValue(name: string, value: Option<string>)
      requires Valid()
      modifies this
      ensures Valid() && Data() == old(Data())[name := value]
      ensures GetFieldValue(name) == value
      ensures forall k :: k != name ==> GetFieldValue(k) == old(GetFieldValue(k))
      ensures id == old(id) && templateId == old(templateId)
      ensures createdAt == old(createdAt) && updatedAt == old(updatedAt)
    {
      var data := Data();
      data := data[name := value];
      SetData(data);
    }

    /** The `date` value, `None` when the key is absent or null. */
    function GetDate(): (r: Option<string>)
      requires Valid()
      reads this
      ensures "date" !in Data() ==> r.None?
      ensures "date" in Data() ==> r == Data()["date"]
    {
      GetFieldValue("date")
    }

    /** The `project` value, `None` when the key is absent or null. */
    function GetProjectName(): (r: Option<string>)
      requires Valid()
      reads this
      ensures "project" !in Data() ==> r.None?
      ensures "project" in Data() ==> r == Data()["project"]
    {
      GetFieldValue("project")
    }
  }
}
