/** Compact printing (runtime/src/Json.cpp:155-209). */
module JsonPrinter {
  import opened Wrappers
  import opened JsonValue
  import opened JsonLexis

  /** How a number outside the integer branch comes out (`out << d`, six significant digits): any function of it. */
  type Lossy = real -> string

  function EscapeChar(c: char): string {
    match c
    case '"' => "\\\""
    case '\\' => "\\\\"
    case '\n' => "\\n"
    case '\t' => "\\t"
    case '\r' => "\\r"
    case _ => [c]
  }

  function Escape(s: string): string {
    if s == [] then "" else EscapeChar(s[0]) + Escape(s[1..])
  }

  function Text(v: Value, lossy: Lossy): string
    decreases v, 1
  {
    match v
    case Null => "null"
    case Bool(b) => if b then "true" else "false"
    case Number(n) => if ExactNumber(n) then IntText(n.Floor) else lossy(n)
    case String(s) => "\"" + Escape(s) + "\""
    case Array(items) => "[" + ItemsText(items, lossy) + "]"
    case Object(fields) => "{" + FieldsText(fields, lossy) + "}"
  }

  function ItemsText(items: seq<Value>, lossy: Lossy): string
    decreases items, 0
  {
    if items == [] then ""
    else Text(items[0], lossy) + (if |items| == 1 then "" else "," + ItemsText(items[1..], lossy))
  }

  function FieldText(f: Field, lossy: Lossy): string
    decreases f, 2
  {
    "\"" + Escape(f.key) + "\":" + Text(f.value, lossy)
  }

  function FieldsText(fields: Fields, lossy: Lossy): string
    decreases fields, 0
  {
    if fields == [] then ""
    else FieldText(fields[0], lossy) + (if |fields| == 1 then "" else "," + FieldsText(fields[1..], lossy))
  }

  /** What is still to be written from the i-th element on, its separator included. */
  function ItemsFrom(items: seq<Value>, i: nat, lossy: Lossy): string
    requires i <= |items|
  {
    (if 0 < i < |items| then "," else "") + ItemsText(items[i..], lossy)
  }

  function FieldsFrom(fields: Fields, i: nat, lossy: Lossy): string
    requires i <= |fields|
  {
    (if 0 < i < |fields| then "," else "") + FieldsText(fields[i..], lossy)
  }

  /** `std::ostringstream`. */
  class OutStream {
    var text: string

    constructor ()
      ensures text == ""
    {
      text := "";
    }

    method Put(s: string)
      modifies this
      ensures text == old(text) + s
    {
      text := text + s;
    }
  }

  method EscapeJsonString(s: string) returns (out: string)
    ensures out == Escape(s)
  {
    out := "";
    for i := 0 to |s|
      invariant out + Escape(s[i..]) == Escape(s)
    {
      assert s[i..][1..] == s[i + 1..];
      out := out + EscapeChar(s[i]);
    }
    assert s[|s|..] == [];
  }

  method StringifyInto(value: Value, out: OutStream, lossy: Lossy)
    modifies out
    ensures out.text == old(out.text) + Text(value, lossy)
    decreases value, 1
  {
    match value {
      case Null => out.Put("null");
      case Bool(b) => out.Put(if b then "true" else "false");
      case Number(n) => out.Put(if ExactNumber(n) then IntText(n.Floor) else lossy(n));
      case String(s) =>
        var escaped := EscapeJsonString(s);
        out.Put("\"" + escaped + "\"");
      case Array(items) => StringifyItems(items, out, lossy);
      case Object(fields) => StringifyFields(fields, out, lossy);
    }
  }

  /** The array case. */
  method StringifyItems(items: seq<Value>, out: OutStream, lossy: Lossy)
    modifies out
    ensures out.text == old(out.text) + ("[" + ItemsText(items, lossy) + "]")
    decreases items, 0
  {
    ghost var start, body := out.text, ItemsText(items, lossy);
    out.Put("[");
    ghost var open := out.text;
    for i := 0 to |items|
      invariant out.text + ItemsFrom(items, i, lossy) == open + ItemsText(items, lossy)
    {
      ghost var before, sep, rest := out.text, if i != 0 then "," else "", ItemsFrom(items, i + 1, lossy);
      assert ItemsFrom(items, i, lossy) == sep + Text(items[i], lossy) + rest by {
        assert items[i..][1..] == items[i + 1..];
        Assoc(sep, Text(items[i], lossy), rest);
      }
      if i != 0 { out.Put(","); }
      StringifyInto(items[i], out, lossy);
      Assoc(before, sep, Text(items[i], lossy));
      Assoc(before, sep + Text(items[i], lossy), rest);
    }
    assert out.text == open + body;
    Assoc(start, "[", body);
    Assoc(start, "[" + body, "]");
    out.Put("]");
  }

  /** The object case. */
  method StringifyFields(fields: Fields, out: OutStream, lossy: Lossy)
    modifies out
    ensures out.text == old(out.text) + ("{" + FieldsText(fields, lossy) + "}")
    decreases fields, 0
  {
    hide FieldText;
    ghost var start, body := out.text, FieldsText(fields, lossy);
    out.Put("{");
    ghost var open := out.text;
    for i := 0 to |fields|
      invariant out.text + FieldsFrom(fields, i, lossy) == open + FieldsText(fields, lossy)
    {
      ghost var before, sep, rest := out.text, if i != 0 then "," else "", FieldsFrom(fields, i + 1, lossy);
      assert FieldsFrom(fields, i, lossy) == sep + FieldText(fields[i], lossy) + rest by {
        assert fields[i..][1..] == fields[i + 1..];
        Assoc(sep, FieldText(fields[i], lossy), rest);
      }
      if i != 0 { out.Put(","); }
      StringifyField(fields[i], out, lossy);
      Assoc(before, sep, FieldText(fields[i], lossy));
      Assoc(before, sep + FieldText(fields[i], lossy), rest);
    }
    assert out.text == open + body;
    Assoc(start, "{", body);
    Assoc(start, "{" + body, "}");
    out.Put("}");
  }

  method StringifyField(field: Field, out: OutStream, lossy: Lossy)
    modifies out
    ensures out.text == old(out.text) + FieldText(field, lossy)
    decreases field, 2
  {
    var key := EscapeJsonString(field.key);
    out.Put("\"" + key + "\":");
    StringifyInto(field.value, out, lossy);
  }

  method Stringify(value: Value, lossy: Lossy) returns (text: string)
    ensures text == Text(value, lossy)
  {
    var out := new OutStream();
    StringifyInto(value, out, lossy);
    text := out.text;
  }
}
