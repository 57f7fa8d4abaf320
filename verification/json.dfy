/** The JSON text the database columns hold: `json.dumps(value, ensure_ascii=False)` for
    a list of strings and for a string-keyed object whose values are strings or null,
    with the default separators `", "` and `": "`, and a reader for that text. Only the
    characters `"` and `\` and the control characters below U+0020 are escaped; every
    other character, non-ASCII included, is written as itself. */
module Json {
  import opened Wrappers

  // ---------------------------------------------------------------------------
  // Strings
  // ---------------------------------------------------------------------------

  function HexDigit(n: int): (c: char)
    requires 0 <= n < 16
  {
    if n < 10 then ('0' as int + n) as char else ('a' as int + n - 10) as char
  }

  /** The value of a hexadecimal digit of either case. */
  function HexValue(c: char): (r: Option<int>)
    ensures r.Some? ==> 0 <= r.value < 16
  {
    if '0' <= c <= '9' then Some(c as int - '0' as int)
    else if 'a' <= c <= 'f' then Some(c as int - 'a' as int + 10)
    else if 'A' <= c <= 'F' then Some(c as int - 'A' as int + 10)
    else None
  }

  lemma HexRoundTrip(n: int)
    requires 0 <= n < 16
    ensures HexValue(HexDigit(n)) == Some(n)
  {
  }

  /** How one character is written inside a JSON string. */
  function EscapeChar(c: char): (r: string)
    ensures |r| >= 1
  {
    if c == '"' then ['\\', '"']
    else if c == '\\' then ['\\', '\\']
    else if c == '\n' then ['\\', 'n']
    else if c == '\r' then ['\\', 'r']
    else if c == '\t' then ['\\', 't']
    else if c == '\U{8}' then ['\\', 'b']
    else if c == '\U{c}' then ['\\', 'f']
    else if c < ' ' then ['\\', 'u', '0', '0', HexDigit(c as int / 16), HexDigit(c as int % 16)]
    else [c]
  }

  function EscapeString(s: string): string
  {
    if s == [] then [] else EscapeChar(s[0]) + EscapeString(s[1..])
  }

  /** A string literal: the escaped characters between double quotes. */
  function Quote(s: string): string
  {
    ['"'] + EscapeString(s) + ['"']
  }

  /** The character an escape sequence stands for (the text after the backslash) and the
      text after the sequence. A `\u` escape must name a Unicode scalar value. */
  function ReadEscape(t: string): (r: Option<(char, string)>)
    ensures r.Some? ==> |r.value.1| < |t|
  {
    if t == [] then None
    else if t[0] == '"' then Some(('"', t[1..]))
    else if t[0] == '\\' then Some(('\\', t[1..]))
    else if t[0] == '/' then Some(('/', t[1..]))
    else if t[0] == 'n' then Some(('\n', t[1..]))
    else if t[0] == 'r' then Some(('\r', t[1..]))
    else if t[0] == 't' then Some(('\t', t[1..]))
    else if t[0] == 'b' then Some(('\U{8}', t[1..]))
    else if t[0] == 'f' then Some(('\U{c}', t[1..]))
    else if t[0] == 'u' && |t| >= 5 then
      match (HexValue(t[1]), HexValue(t[2]), HexValue(t[3]), HexValue(t[4]))
      case (Some(a), Some(b), Some(c), Some(d)) =>
        var code := ((a * 16 + b) * 16 + c) * 16 + d;
        if 0xD800 <= code < 0xE000 then None else Some((code as char, t[5..]))
      case _ => None
    else None
  }

  /** The characters of a string literal up to its closing quote (the opening quote
      already read), and the text after the closing quote. Raw control characters are
      refused, as a strict reader does. */
  function ReadChars(t: string): (r: Option<(string, string)>)
    ensures r.Some? ==> |r.value.1| < |t|
    decreases |t|
  {
    if t == [] then None
    else if t[0] == '"' then Some(([], t[1..]))
    else if t[0] == '\\' then
      match ReadEscape(t[1..])
      case None => None
      case Some((c, after)) =>
        match ReadChars(after)
        case None => None
        case Some((v, rest)) => Some(([c] + v, rest))
    else if t[0] < ' ' then None
    else
      match ReadChars(t[1..])
      case None => None
      case Some((v, rest)) => Some(([t[0]] + v, rest))
  }

  /** Reading back one escaped character puts that character in front of what follows. */
  lemma ReadEscapedChar(c: char, u: string)
    ensures ReadChars(EscapeChar(c) + u) ==
      match ReadChars(u)
      case None => None
      case Some((v, rest)) => Some(([c] + v, rest))
  {
    var t := EscapeChar(c) + u;
    if c == '"' || c == '\\' || c == '\n' || c == '\r' || c == '\t' || c == '\U{8}' || c == '\U{c}' {
      assert t[1..][1..] == u;
    } else if c < ' ' {
      var hi, lo := c as int / 16, c as int % 16;
      HexRoundTrip(hi);
      HexRoundTrip(lo);
      var e := ['\\', 'u', '0', '0', HexDigit(hi), HexDigit(lo)];
      assert EscapeChar(c) == e;
      assert t[1..] == e[1..] + u;
      assert t[1..][0] == 'u';
      assert t[1..][1..5] == e[2..];
      assert t[1..][5..] == u;
    } else {
      assert t[1..] == u;
    }
  }

  /** Reading an escaped string followed by its closing quote gives the string and the
      text after the quote. */
  lemma {:induction false} ReadCharsEscaped(s: string, rest: string)
    ensures ReadChars(EscapeString(s) + ['"'] + rest) == Some((s, rest))
  {
    if s == [] {
      assert EscapeString(s) + ['"'] + rest == ['"'] + rest;
    } else {
      ReadCharsEscaped(s[1..], rest);
      var e, more, q := EscapeChar(s[0]), EscapeString(s[1..]), ['"'];
      assert EscapeString(s) == e + more;
      Assoc(e + more, q, rest);
      Assoc(e, more, q + rest);
      Assoc(more, q, rest);
      ReadEscapedChar(s[0], more + q + rest);
      assert [s[0]] + s[1..] == s;
    }
  }

  /** A string literal at the start of `t`, and the text after it. */
  function ReadString(t: string): (r: Option<(string, string)>)
    ensures r.Some? ==> |r.value.1| < |t|
  {
    if t == [] || t[0] != '"' then None else ReadChars(t[1..])
  }

  lemma ReadQuoted(s: string, rest: string)
    ensures ReadString(Quote(s) + rest) == Some((s, rest))
  {
    assert (Quote(s) + rest)[1..] == EscapeString(s) + ['"'] + rest;
    ReadCharsEscaped(s, rest);
  }

  // ---------------------------------------------------------------------------
  // Lists of strings
  // ---------------------------------------------------------------------------

  /** The items of a non-empty list, separated by `", "`. */
  function ListItems(xs: seq<string>): string
    requires xs != []
  {
    if |xs| == 1 then Quote(xs[0]) else Quote(xs[0]) + ", " + ListItems(xs[1..])
  }

  /** `json.dumps` of a list of strings. */
  function EncodeList(xs: seq<string>): string
  {
    if xs == [] then "[]" else "[" + ListItems(xs) + "]"
  }

  function ReadItems(t: string): (r: Option<(seq<string>, string)>)
    ensures r.Some? ==> |r.value.1| < |t|
    decreases |t|
  {
    match ReadString(t)
    case None => None
    case Some((s, rest)) =>
      if |rest| >= 1 && rest[0] == ']' then Some(([s], rest[1..]))
      else if |rest| >= 2 && rest[0] == ',' && rest[1] == ' ' then
        match ReadItems(rest[2..])
        case None => None
        case Some((more, after)) => Some(([s] + more, after))
      else None
  }

  /** `json.loads` of a list of strings, for text in the layout `EncodeList` writes;
      `None` where the text is not such a list or has anything after it. */
  function DecodeList(t: string): Option<seq<string>>
  {
    if t == "[]" then Some([])
    else if |t| < 2 || t[0] != '[' then None
    else
      match ReadItems(t[1..])
      case Some((xs, after)) => if after == [] then Some(xs) else None
      case None => None
  }

  lemma {:induction false} ReadListItems(xs: seq<string>, rest: string)
    requires xs != []
    ensures ReadItems(ListItems(xs) + "]" + rest) == Some((xs, rest))
    decreases |xs|
  {
    var u := ListItems(xs) + "]" + rest;
    ListItemsText(xs, rest);
    if |xs| == 1 {
      LastItem(xs[0], u, rest);
      assert xs == [xs[0]];
    } else {
      var tail := ListItems(xs[1..]) + "]" + rest;
      ReadListItems(xs[1..], rest);
      NextItem(xs[0], u, tail, xs[1..], rest);
      assert [xs[0]] + xs[1..] == xs;
    }
  }

  /** The text of a list's items followed by `]` is the first item, then either the
      closing bracket or a separator and the text of the other items. */
  lemma ListItemsText(xs: seq<string>, rest: string)
    requires xs != []
    ensures |ListItems(xs)| > 0 && ListItems(xs)[0] == '"'
    ensures |xs| == 1 ==> ListItems(xs) + "]" + rest == Quote(xs[0]) + ("]" + rest)
    ensures |xs| > 1 ==> ListItems(xs) + "]" + rest == Quote(xs[0]) + (", " + (ListItems(xs[1..]) + "]" + rest))
  {
    var q, close := Quote(xs[0]), "]";
    if |xs| == 1 {
      Assoc(q, close, rest);
    } else {
      var sep, m := ", ", ListItems(xs[1..]);
      assert ListItems(xs) == q + sep + m;
      assert (q + sep + m)[0] == q[0];
      Regroup(q, sep, m, close, rest);
    }
  }

  lemma LastItem(x: string, u: string, rest: string)
    requires u == Quote(x) + ("]" + rest)
    ensures ReadItems(u) == Some(([x], rest))
  {
    ReadQuoted(x, "]" + rest);
    assert ("]" + rest)[1..] == rest;
  }

  lemma NextItem(x: string, u: string, tail: string, more: seq<string>, rest: string)
    requires u == Quote(x) + (", " + tail) && ReadItems(tail) == Some((more, rest))
    ensures ReadItems(u) == Some(([x] + more, rest))
  {
    ReadQuoted(x, ", " + tail);
    assert (", " + tail)[2..] == tail;
  }

  /** Decoding the text of a list gives the list back, in the same order. */
  lemma ListRoundTrip(xs: seq<string>)
    ensures DecodeList(EncodeList(xs)) == Some(xs)
  {
    if xs != [] {
      ReadListItems(xs, "");
      ListItemsText(xs, "");
      Enclosed('[', ListItems(xs), ']');
      DecodeListText(EncodeList(xs), xs);
    }
  }

  lemma DecodeListText(t: string, xs: seq<string>)
    requires |t| >= 2 && t[0] == '[' && t[1] == '"' && ReadItems(t[1..]) == Some((xs, ""))
    ensures DecodeList(t) == Some(xs)
  {
    assert t != "[]" by { assert "[]"[1] == ']'; }
  }

  // ---------------------------------------------------------------------------
  // Objects with string or null values
  // ---------------------------------------------------------------------------

  type Entry = (string, Option<string>)

  function EncodeValue(v: Option<string>): string
  {
    if v.None? then "null" else Quote(v.value)
  }

  function ObjectMembers(es: seq<Entry>): string
    requires es != []
  {
    var first := Quote(es[0].0) + ": " + EncodeValue(es[0].1);
    if |es| == 1 then first else first + ", " + ObjectMembers(es[1..])
  }

  /** `json.dumps` of an object whose members are written in the order of `es`. */
  function EncodeObject(es: seq<Entry>): string
  {
    if es == [] then "{}" else "{" + ObjectMembers(es) + "}"
  }

  function ReadValue(t: string): (r: Option<(Option<string>, string)>)
    ensures r.Some? ==> |r.value.1| < |t|
  {
    if |t| >= 4 && t[..4] == "null" then Some((None, t[4..]))
    else
      match ReadString(t)
      case None => None
      case Some((s, rest)) => Some((Some(s), rest))
  }

  function ReadMembers(t: string): (r: Option<(seq<Entry>, string)>)
    ensures r.Some? ==> |r.value.1| < |t|
    decreases |t|
  {
    match ReadString(t)
    case None => None
    case Some((k, afterKey)) =>
      if !(|afterKey| >= 2 && afterKey[0] == ':' && afterKey[1] == ' ') then None
      else
        match ReadValue(afterKey[2..])
        case None => None
        case Some((v, rest)) =>
          if |rest| >= 1 && rest[0] == '}' then Some(([(k, v)], rest[1..]))
          else if |rest| >= 2 && rest[0] == ',' && rest[1] == ' ' then
            match ReadMembers(rest[2..])
            case None => None
            case Some((more, after)) => Some(([(k, v)] + more, after))
          else None
  }

  /** The member list of an object text in the layout `EncodeObject` writes. */
  function DecodeEntries(t: string): Option<seq<Entry>>
  {
    if t == "{}" then Some([])
    else if |t| < 2 || t[0] != '{' then None
    else
      match ReadMembers(t[1..])
      case Some((es, after)) => if after == [] then Some(es) else None
      case None => None
  }

  lemma ReadEncodedValue(v: Option<string>, rest: string)
    ensures ReadValue(EncodeValue(v) + rest) == Some((v, rest))
  {
    if v.None? {
      assert (EncodeValue(v) + rest)[..4] == "null" && (EncodeValue(v) + rest)[4..] == rest;
    } else {
      ReadQuoted(v.value, rest);
      assert (Quote(v.value) + rest)[0] == '"';
    }
  }

  /** Reading one member, then what follows it. */
  lemma ReadMember(k: string, v: Option<string>, tail: string)
    ensures ReadMembers(Quote(k) + (": " + (EncodeValue(v) + tail))) ==
      if |tail| >= 1 && tail[0] == '}' then Some(([(k, v)], tail[1..]))
      else if |tail| >= 2 && tail[0] == ',' && tail[1] == ' ' then
        match ReadMembers(tail[2..])
        case None => None
        case Some((more, after)) => Some(([(k, v)] + more, after))
      else None
  {
    ReadQuoted(k, ": " + (EncodeValue(v) + tail));
    assert (": " + (EncodeValue(v) + tail))[2..] == EncodeValue(v) + tail;
    ReadEncodedValue(v, tail);
  }

  lemma {:induction false} ReadObjectMembers(es: seq<Entry>, rest: string)
    requires es != []
    ensures ReadMembers(ObjectMembers(es) + "}" + rest) == Some((es, rest))
    decreases |es|
  {
    var u := ObjectMembers(es) + "}" + rest;
    MembersText(es, rest);
    if |es| == 1 {
      LastMember(es[0].0, es[0].1, u, rest);
      assert es == [(es[0].0, es[0].1)];
    } else {
      var tail := ObjectMembers(es[1..]) + "}" + rest;
      ReadObjectMembers(es[1..], rest);
      NextMember(es[0].0, es[0].1, u, tail, es[1..], rest);
      assert [(es[0].0, es[0].1)] + es[1..] == es;
    }
  }

  /** The text of an object's members followed by `}` is the first member, then either
      the closing brace or a separator and the text of the other members. */
  lemma MembersText(es: seq<Entry>, rest: string)
    requires es != []
    ensures |ObjectMembers(es)| > 0 && ObjectMembers(es)[0] == '"'
    ensures |es| == 1 ==>
      ObjectMembers(es) + "}" + rest == Quote(es[0].0) + (": " + (EncodeValue(es[0].1) + ("}" + rest)))
    ensures |es| > 1 ==>
      ObjectMembers(es) + "}" + rest
      == Quote(es[0].0) + (": " + (EncodeValue(es[0].1) + (", " + (ObjectMembers(es[1..]) + "}" + rest))))
  {
    var q, c, e := Quote(es[0].0), ": ", EncodeValue(es[0].1);
    assert (q + c + e)[0] == q[0] == '"';
    if |es| == 1 {
      assert ObjectMembers(es) == q + c + e;
      LastMemberText(q, c, e, "}", rest);
    } else {
      assert ObjectMembers(es) == q + c + e + ", " + ObjectMembers(es[1..]);
      NextMemberText(q, c, e, ", ", ObjectMembers(es[1..]), "}", rest);
    }
  }

  lemma LastMemberText(q: string, c: string, e: string, close: string, rest: string)
    ensures q + c + e + close + rest == q + (c + (e + (close + rest)))
  {
    Regroup(q, c, e, close, rest);
    Assoc(e, close, rest);
  }

  lemma NextMemberText(q: string, c: string, e: string, sep: string, m: string, close: string, rest: string)
    ensures q + c + e + sep + m + close + rest == q + (c + (e + (sep + (m + close + rest))))
  {
    var p, t := q + c + e + sep, m + close + rest;
    calc {
      q + c + e + sep + m + close + rest;
      { Assoc(p + m, close, rest); }
      (p + m) + (close + rest);
      { Assoc(p, m, close + rest); Assoc(m, close, rest); }
      p + t;
      { Regroup(q, c, e, sep, t); }
      q + (c + (e + sep + t));
      { Assoc(e, sep, t); }
      q + (c + (e + (sep + t)));
    }
  }

  lemma Assoc<T>(a: seq<T>, b: seq<T>, c: seq<T>)
    ensures a + b + c == a + (b + c)
  {
  }

  lemma Regroup<T>(a: seq<T>, b: seq<T>, c: seq<T>, d: seq<T>, e: seq<T>)
    ensures a + b + c + d + e == a + (b + (c + d + e))
  {
  }

  lemma LastMember(k: string, v: Option<string>, u: string, rest: string)
    requires u == Quote(k) + (": " + (EncodeValue(v) + ("}" + rest)))
    ensures ReadMembers(u) == Some(([(k, v)], rest))
  {
    ReadMember(k, v, "}" + rest);
    assert ("}" + rest)[1..] == rest;
  }

  lemma NextMember(k: string, v: Option<string>, u: string, tail: string, more: seq<Entry>, rest: string)
    requires u == Quote(k) + (": " + (EncodeValue(v) + (", " + tail))) && ReadMembers(tail) == Some((more, rest))
    ensures ReadMembers(u) == Some(([(k, v)] + more, rest))
  {
    ReadMember(k, v, ", " + tail);
    assert (", " + tail)[2..] == tail;
  }

  /** Decoding the text of an object gives back its members, in the same order. */
  lemma EntriesRoundTrip(es: seq<Entry>)
    ensures DecodeEntries(EncodeObject(es)) == Some(es)
  {
    if es != [] {
      ReadObjectMembers(es, "");
      MembersText(es, "");
      Enclosed('{', ObjectMembers(es), '}');
      DecodeObjectText(EncodeObject(es), es);
    }
  }

  /** An opening character, a text and a closing character. */
  lemma Enclosed(open: char, m: string, close: char)
    ensures var t := [open] + m + [close];
            |t| >= 1 && t[0] == open && t[1..] == m + [close] + ""
            && (|m| > 0 ==> t[1] == m[0])
  {
  }

  lemma DecodeObjectText(t: string, es: seq<Entry>)
    requires |t| >= 2 && t[0] == '{' && t[1] == '"' && ReadMembers(t[1..]) == Some((es, ""))
    ensures DecodeEntries(t) == Some(es)
  {
    assert t != "{}" by { assert "{}"[1] == '}'; }
  }

  /** The dictionary a member list builds: a later member overwrites an earlier one with
      the same key. */
  function EntriesMap(es: seq<Entry>): (m: map<string, Option<string>>)
    ensures m.Keys == set e | e in es :: e.0
    decreases |es|
  {
    if es == [] then map[]
    else
      var m := EntriesMap(es[..|es| - 1]);
      assert es == es[..|es| - 1] + [es[|es| - 1]];
      m[es[|es| - 1].0 := es[|es| - 1].1]
  }

  /** `json.loads` of an object text: the dictionary, or `None` where the text is not an
      object in the layout `EncodeObject` writes. */
  function DecodeObject(t: string): Option<map<string, Option<string>>>
  {
    match DecodeEntries(t)
    case None => None
    case Some(es) => Some(EntriesMap(es))
  }

  /** `json.dumps` of a dictionary. A Python dictionary writes its keys in insertion order;
      a map has none, so the keys are written in an order chosen here, which decoding does
      not depend on. */
  method EncodeDocument(d: map<string, Option<string>>) returns (text: string)
    ensures DecodeObject(text) == Some(d)
  {
    var entries: seq<Entry> := [];
    var rest := d.Keys;
    while rest != {}
      invariant rest <= d.Keys
      invariant EntriesMap(entries) == map k | k in d.Keys - rest :: d[k]
      decreases |rest|
    {
      var k :| k in rest;
      entries := entries + [(k, d[k])];
      assert entries[..|entries| - 1] + [] == entries[..|entries| - 1];
      rest := rest - {k};
    }
    assert d.Keys - rest == d.Keys;
    assert (map k | k in d.Keys :: d[k]) == d;
    text := EncodeObject(entries);
    EntriesRoundTrip(entries);
  }
}
