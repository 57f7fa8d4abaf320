/** The closed enumerations the validators dispatch on. */
module FieldTypes {
  import opened Wrappers

  /** The kinds of input field a template can hold. */
  datatype FieldType = Date | Time | Text | Memo | Selection

  /** The string stored for a field type (`FieldType.value`). */
  function Tag(t: FieldType): string
  {
    match t
    case Date => "date"
    case Time => "time"
    case Text => "text"
    case Memo => "memo"
    case Selection => "selection"
  }

  /** `FieldType(s)`: the member whose tag is `s`, or `None` where Python raises ValueError. */
  function FromTag(s: string): (r: Option<FieldType>)
    ensures r.Some? ==> Tag(r.value) == s
    ensures r.None? <==> s !in {"date", "time", "text", "memo", "selection"}
  {
    if s == "date" then Some(Date)
    else if s == "time" then Some(Time)
    else if s == "text" then Some(Text)
    else if s == "memo" then Some(Memo)
    else if s == "selection" then Some(Selection)
    else None
  }

  /** Storing a field type as its tag and reading it back gives the same member, so the
      five tags are pairwise distinct. */
  lemma TagRoundTrip(t: FieldType)
    ensures FromTag(Tag(t)) == Some(t)
  {
  }

  lemma TagInjective(a: FieldType, b: FieldType)
    requires Tag(a) == Tag(b)
    ensures a == b
  {
    TagRoundTrip(a);
    TagRoundTrip(b);
  }

  /** The relative dates a date field accepts instead of `YYYY-MM-DD`. */
  datatype DateDefault = Today | Yesterday | Tomorrow

  function DateDefaultTag(d: DateDefault): string
  {
    match d
    case Today => "today"
    case Yesterday => "yesterday"
    case Tomorrow => "tomorrow"
  }

  /** The member whose tag is `s`, if any. */
  function DateDefaultFromTag(s: string): (r: Option<DateDefault>)
    ensures r.Some? ==> DateDefaultTag(r.value) == s
    ensures r.None? <==> s !in {"today", "yesterday", "tomorrow"}
  {
    if s == "today" then Some(Today)
    else if s == "yesterday" then Some(Yesterday)
    else if s == "tomorrow" then Some(Tomorrow)
    else None
  }

  lemma DateDefaultTagRoundTrip(d: DateDefault)
    ensures DateDefaultFromTag(DateDefaultTag(d)) == Some(d)
  {
  }
}
