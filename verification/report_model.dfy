/** A daily report as the services hand it out: a mutable record whose data maps field
    names to values (a value may be null), with accessors for the `date` and `project`
    fields. */
module ReportModel {
  import opened Wrappers

  /** A report's data: field name to value, `None` standing for null. */
  type Document = map<string, Option<string>>

  /** `data.get(name)`: the value under `name`, or `None` when the key is absent. */
  function Lookup(data: Document, name: string): (r: Option<string>)
    ensures name !in data ==> r.None?
    ensures name in data ==> r == data[name]
  {
    if name in data then data[name] else None
  }

  class Report {
    var id: Option<int>
    var templateId: int
    var data: Document
    var createdAt: Option<int>
    var updatedAt: Option<int>

    /** A report with only the required attributes: no id and no timestamps. */
    constructor New(templateId: int, data: Document)
      ensures this.id.None? && this.templateId == templateId && this.data == data
      ensures this.createdAt.None? && this.updatedAt.None?
    {
      this.id := None;
      this.templateId := templateId;
      this.data := data;
      this.createdAt := None;
      this.updatedAt := None;
    }

    /** A report with every attribute given, as the services build one from a stored row. */
    constructor (id: Option<int>, templateId: int, data: Document, createdAt: Option<int>, updatedAt: Option<int>)
      ensures this.id == id && this.templateId == templateId && this.data == data
      ensures this.createdAt == createdAt && this.updatedAt == updatedAt
    {
      this.id := id;
      this.templateId := templateId;
      this.data := data;
      this.createdAt := createdAt;
      this.updatedAt := updatedAt;
    }

    function GetFieldValue(name: string): (r: Option<string>)
      reads this
      ensures name !in data ==> r.None?
      ensures name in data ==> r == data[name]
    {
      Lookup(data, name)
    }

    /** Sets one field's value: that field reads back the new value, every other field
        keeps its value, and at most the one key is added. */
    method SetFieldValue(name: string, value: Option<string>)
      modifies this
      ensures data == old(data)[name := value]
      ensures GetFieldValue(name) == value
      ensures forall k :: k != name ==> GetFieldValue(k) == old(GetFieldValue(k))
      ensures data.Keys == old(data.Keys) + {name}
      ensures id == old(id) && templateId == old(templateId)
      ensures createdAt == old(createdAt) && updatedAt == old(updatedAt)
    {
      data := data[name := value];
    }

    /** The value of the `date` field, `None` when it is absent or null. */
    function GetDate(): (r: Option<string>)
      reads this
      ensures "date" !in data ==> r.None?
      ensures "date" in data ==> r == data["date"]
    {
      GetFieldValue("date")
    }

    /** The value of the `project` field, `None` when it is absent or null. */
    function GetProject(): (r: Option<string>)
      reads this
      ensures "project" !in data ==> r.None?
      ensures "project" in data ==> r == data["project"]
    {
      GetFieldValue("project")
    }
  }
}
