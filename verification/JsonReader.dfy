/** The reader in the form the source has it: one cursor moved in place, results written as it goes. */
module JsonReader {
  import opened Wrappers
  import opened JsonValue
  import opened JsonLexis
  import opened JsonParser

  /** `Cursor`: a text and a position that never leaves [0, |text|]. */
  class Cursor {
    const text: string
    var pos: nat

    ghost predicate Valid() reads this { pos <= |text| }

    /** The text still ahead. */
    ghost function Ahead(): string
      reads this
      requires Valid()
    {
      text[pos..]
    }

    constructor (text: string)
      ensures Valid() && this.text == text && Ahead() == text
    {
      this.text, pos := text, 0;
    }

    method Eof() returns (r: bool)
      requires Valid()
      ensures r == (Ahead() == "")
    {
      r := pos >= |text|;
    }

    method Peek() returns (c: char)
      requires Valid()
      ensures c == if Ahead() == "" then '\0' else Ahead()[0]
    {
      c := if pos >= |text| then '\0' else text[pos];
    }

    /** `pos += n`. */
    method Advance(n: nat)
      requires Valid() && n <= |Ahead()|
      modifies this
      ensures Valid() && Ahead() == old(Ahead())[n..]
    {
      pos := pos + n;
    }

    method Next() returns (c: char)
      requires Valid()
      modifies this
      ensures Valid()
      ensures old(Ahead()) == "" ==> c == '\0' && Ahead() == ""
      ensures old(Ahead()) != "" ==> c == old(Ahead())[0] && Ahead() == old(Ahead())[1..]
    {
      if pos >= |text| { return '\0'; }
      c := text[pos];
      pos := pos + 1;
    }

    method SkipWhitespace()
      requires Valid()
      modifies this
      ensures Valid() && Ahead() == SkipWs(old(Ahead()))
    {
      while pos < |text| && IsSpace(text[pos])
        invariant Valid() && SkipWs(Ahead()) == SkipWs(old(Ahead()))
        decreases |text| - pos
      {
        assert Ahead()[1..] == text[pos + 1..];
        pos := pos + 1;
      }
    }

    method Consume(expected: char) returns (r: bool)
      requires Valid() && expected != '\0'
      modifies this
      ensures Valid() && r == Starts(SkipWs(old(Ahead())), expected)
      ensures Ahead() == if r then SkipWs(old(Ahead()))[1..] else SkipWs(old(Ahead()))
    {
      SkipWhitespace();
      var c := Peek();
      if c != expected { return false; }
      Advance(1);
      r := true;
    }
  }

  /** `ok`, `out` and `error` report the outcome `r`, and on success the cursor stands where `r` says. */
  ghost predicate Reports<T(!new)>(r: Outcome<T>, ok: bool, out: T, error: string, c: Cursor)
    reads c
  {
    c.Valid() && ok == r.Ok? &&
    (ok ==> out == r.value && c.Ahead() == r.rest) &&
    (!ok ==> error == r.error)
  }

  /** The characters read so far, in front of what the rest of the literal gives. */
  function Prepend(out: string, r: Outcome<string>): Outcome<string> {
    match r
    case Ok(text, rest) => Ok(out + text, rest)
    case Err(e) => Err(e)
  }

  lemma PrependChar(out: string, c: char, r: Outcome<string>)
    ensures Prepend(out + [c], r) == Prepend(out, Prepend([c], r))
  {
    if r.Ok? { assert out + [c] + r.value == out + ([c] + r.value); }
  }

  /** One backslash escape, the backslash already read. */
  method ReadEscape(c: Cursor) returns (ok: bool, ch: char, error: string)
    requires c.Valid()
    modifies c
    ensures c.Valid()
    ensures ok ==> |c.Ahead()| < |old(c.Ahead())|
    ensures ok ==> ParseBody("\\" + old(c.Ahead())) == Prepend([ch], ParseBody(c.Ahead()))
    ensures !ok ==> ParseBody("\\" + old(c.Ahead())) == Err(error)
  {
    ghost var s := "\\" + c.Ahead();
    assert s[1..] == c.Ahead();
    ok, ch, error := true, '\0', "";
    var esc := c.Next();
    if esc == 'u' {
      if c.pos + 4 > |c.text| {
        return false, ch, "truncated \\u escape";
      }
      var hex := c.text[c.pos..c.pos + 4];
      assert hex == s[2..6];
      assert c.Ahead()[4..] == s[6..];
      c.Advance(4);
      ch := HexByte(hex);
    } else {
      assert |s| > 1 ==> s[1] == esc && c.Ahead() == s[2..];
      match ShortEscape(esc) {
        case Some(plain) => ch := plain;
        case None => return false, ch, "unsupported escape sequence";
      }
    }
  }

  /** One turn of the string loop: a plain character or an escape. */
  method ReadStringChar(c: Cursor) returns (ok: bool, ch: char, error: string)
    requires c.Valid() && c.Ahead() != "" && c.Ahead()[0] != '"'
    modifies c
    ensures c.Valid()
    ensures ok ==> |c.Ahead()| < |old(c.Ahead())| && ParseBody(old(c.Ahead())) == Prepend([ch], ParseBody(c.Ahead()))
    ensures !ok ==> ParseBody(old(c.Ahead())) == Err(error)
  {
    ghost var s := c.Ahead();
    ok, error := true, "";
    ch := c.Next();
    assert s == [ch] + c.Ahead() && s[1..] == c.Ahead();
    if ch == '\\' {
      ok, ch, error := ReadEscape(c);
    }
  }

  method ParseStringLiteral(c: Cursor) returns (ok: bool, out: string, error: string)
    requires c.Valid()
    modifies c
    ensures Reports(ParseString(old(c.Ahead())), ok, out, error, c)
  {
    ok, out, error := true, "", "";
    var open := c.Consume('"');
    if !open { return false, "", "expected opening quote"; }
    ghost var body := ParseBody(c.Ahead());
    assert body.Ok? ==> "" + body.value == body.value;
    var eof := c.Eof();
    var peek := c.Peek();
    while !eof && peek != '"'
      invariant c.Valid() && Prepend(out, ParseBody(c.Ahead())) == body
      invariant eof == (c.Ahead() == "") && (!eof ==> peek == c.Ahead()[0])
      decreases |c.Ahead()|
    {
      var good, decoded, message := ReadStringChar(c);
      if !good { return false, out, message; }
      PrependChar(out, decoded, ParseBody(c.Ahead()));
      out := out + [decoded];
      eof := c.Eof();
      peek := c.Peek();
    }
    assert out + "" == out;
    var close := c.Consume('"');
    if !close { return false, out, "unterminated string"; }
  }

  method ReadValue(c: Cursor) returns (ok: bool, out: Value, error: string)
    requires c.Valid()
    modifies c
    ensures Reports(ParseValue(old(c.Ahead())), ok, out, error, c)
    decreases |c.Ahead()|, 2
  {
    c.SkipWhitespace();
    ok, out, error := ReadToken(c);
  }

  /** The dispatch of `ParseValue` on the character at the cursor. */
  method ReadToken(c: Cursor) returns (ok: bool, out: Value, error: string)
    requires c.Valid()
    modifies c
    ensures Reports(ParseToken(old(c.Ahead())), ok, out, error, c)
    decreases |c.Ahead()|, 1
  {
    var next := c.Peek();
    if next == '"' {
      var text;
      ok, text, error := ParseStringLiteral(c);
      out := String(text);
    } else if next == '{' {
      ok, out, error := ReadObject(c);
    } else if next == '[' {
      ok, out, error := ReadArray(c);
    } else {
      ok, out, error := ReadScalar(c);
    }
  }

  method ReadScalar(c: Cursor) returns (ok: bool, out: Value, error: string)
    requires c.Valid()
    modifies c
    ensures Reports(ParseScalar(old(c.Ahead())), ok, out, error, c)
  {
    ok, out, error := true, Null, "";
    if "true" <= c.text[c.pos..] {
      c.Advance(4);
      out := Bool(true);
    } else if "false" <= c.text[c.pos..] {
      c.Advance(5);
      out := Bool(false);
    } else if "null" <= c.text[c.pos..] {
      c.Advance(4);
    } else {
      ok, out, error := ReadNumber(c);
    }
  }

  /** The character scan of a number. */
  method ScanNumber(c: Cursor) returns (digits: string)
    requires c.Valid()
    modifies c
    ensures digits == NumRun(old(c.Ahead()))
    ensures c.Valid() && c.Ahead() == old(c.Ahead())[|digits|..]
  {
    ghost var s := c.Ahead();
    digits := "";
    while c.pos < |c.text| && NumChar(c.text[c.pos])
      invariant c.Valid() && |digits| <= |s| && c.Ahead() == s[|digits|..]
      invariant digits + NumRun(c.Ahead()) == NumRun(s)
      decreases |c.text| - c.pos
    {
      ghost var before := c.Ahead();
      var ch := c.Next();
      assert NumRun(before) == [ch] + NumRun(c.Ahead());
      Assoc(digits, [ch], NumRun(c.Ahead()));
      assert before[1..] == s[|digits| + 1..];
      digits := digits + [ch];
    }
    assert digits + "" == digits;
  }

  /** `strtod` over the scanned characters; the optional leading '-' is one of them. */
  method ReadNumber(c: Cursor) returns (ok: bool, out: Value, error: string)
    requires c.Valid()
    modifies c
    ensures Reports(ParseNumber(old(c.Ahead())), ok, out, error, c)
  {
    ok, out, error := true, Null, "";
    var digits := ScanNumber(c);
    if digits == "" { return false, out, "expected a value"; }
    match Numeral(digits) {
      case None => return false, out, "invalid number literal: " + digits;
      case Some(n) => out := Number(n);
    }
  }

  /** What an array's elements read so far and the rest of its loop make together. */
  function Following(items: seq<Value>, r: Outcome<seq<Value>>): Outcome<seq<Value>> {
    match r
    case Ok(more, rest) => Ok(items + more, rest)
    case Err(e) => Err(e)
  }

  method ReadArray(c: Cursor) returns (ok: bool, out: Value, error: string)
    requires c.Valid() && Starts(c.Ahead(), '[')
    modifies c
    ensures Reports(ParseToken(old(c.Ahead())), ok, out, error, c)
    decreases |c.Ahead()|, 0
  {
    ok, out, error := true, Null, "";
    var open := c.Consume('[');
    var items: seq<Value> := [];
    c.SkipWhitespace();
    var next := c.Peek();
    if next == ']' {
      c.Advance(1);
      out := Array(items);
      return;
    }
    ghost var all := ParseItems(c.Ahead());
    assert all.Ok? ==> items + all.value == all.value;
    while true
      invariant c.Valid() && |c.Ahead()| < |old(c.Ahead())|
      invariant Following(items, ParseItems(c.Ahead())) == all
      decreases |c.Ahead()|
    {
      ghost var s := c.Ahead();
      var good, item, message := ReadValue(c);
      if !good { return false, out, message; }
      c.SkipWhitespace();
      ghost var t := c.Ahead();
      SkipIdempotent(ParseValue(s).rest);
      ghost var before := items;
      items := items + [item];
      var comma := c.Consume(',');
      if comma {
        FollowingMore(before, item, ParseItems(t[1..]));
        continue;
      }
      var close := c.Consume(']');
      if close { break; }
      return false, out, "expected ',' or ']' in array";
    }
    out := Array(items);
  }

  lemma FollowingMore(items: seq<Value>, item: Value, r: Outcome<seq<Value>>)
    ensures Following(items + [item], r) ==
      match r { case Ok(more, rest) => Ok(items + ([item] + more), rest) case Err(e) => Err(e) }
  {
    if r.Ok? { Assoc(items, [item], r.value); }
  }

  /** Key, colon and value inside the loop of `ParseObjectValue`. */
  method ReadMember(c: Cursor) returns (ok: bool, out: (string, Value), error: string)
    requires c.Valid()
    modifies c
    ensures Reports(ParseMember(old(c.Ahead())), ok, out, error, c)
    decreases |c.Ahead()|, 3
  {
    ok, out, error := true, ("", Null), "";
    SkipIdempotent(c.Ahead());
    c.SkipWhitespace();
    var good, key, message := ParseStringLiteral(c);
    if !good { return false, out, message; }
    var colon := c.Consume(':');
    if !colon { return false, out, "expected ':' after key \"" + key + "\""; }
    var value;
    good, value, message := ReadValue(c);
    if !good { return false, out, message; }
    out := (key, value);
  }

  method ReadObject(c: Cursor) returns (ok: bool, out: Value, error: string)
    requires c.Valid() && Starts(c.Ahead(), '{')
    modifies c
    ensures Reports(ParseToken(old(c.Ahead())), ok, out, error, c)
    decreases |c.Ahead()|, 0
  {
    ok, out, error := true, Null, "";
    var open := c.Consume('{');
    var fields: Fields := [];
    c.SkipWhitespace();
    var next := c.Peek();
    if next == '}' {
      c.Advance(1);
      out := Object(fields);
      return;
    }
    ghost var all := ParseMembers(c.Ahead(), []);
    while true
      invariant c.Valid() && |c.Ahead()| < |old(c.Ahead())|
      invariant ParseMembers(c.Ahead(), fields) == all
      decreases |c.Ahead()|
    {
      ghost var s := c.Ahead();
      var good, member, message := ReadMember(c);
      if !good { return false, out, message; }
      var (key, value) := member;
      fields := Insert(fields, key, value);
      c.SkipWhitespace();
      SkipIdempotent(ParseMember(s).rest);
      var comma := c.Consume(',');
      if comma { continue; }
      var close := c.Consume('}');
      if close { break; }
      return false, out, "expected ',' or '}' after value for \"" + key + "\"";
    }
    out := Object(fields);
  }

  /** `json::Parse`: one value from the start of the text, whatever follows it being ignored. */
  method Parse(text: string) returns (ok: bool, value: Value, error: string)
    ensures ok == ParseValue(text).Ok?
    ensures ok ==> value == ParseValue(text).value
    ensures !ok ==> error == ParseValue(text).error
  {
    var c := new Cursor(text);
    ok, value, error := ReadValue(c);
  }

  /** `json::ParseObject`. */
  method ParseObject(text: string) returns (ok: bool, value: Fields, error: string)
    ensures ok == (ParseValue(text).Ok? && ParseValue(text).value.Object?)
    ensures ok ==> value == ParseValue(text).value.fields
    ensures !ok ==> error == if ParseValue(text).Ok? then "root value is not an object" else ParseValue(text).error
  {
    var good, root, message := Parse(text);
    if !good { return false, [], message; }
    if !root.Object? { return false, [], "root value is not an object"; }
    return true, root.fields, "";
  }
}
