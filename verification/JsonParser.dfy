/** The recursive-descent reader (runtime/src/Json.cpp:12-153).

    The functions give the result of reading the text ahead of the cursor; JsonReader is the
    reader itself, moving one cursor in place, proved to compute exactly those results. */
module JsonParser {
  import opened JsonValue
  import opened JsonLexis

  /** What a parsing step gives: a value and the text left, or an error message. */
  datatype Outcome<+T> = Ok(value: T, rest: string) | Err(error: string) {
    predicate IsFailure() { Err? }
    function PropagateFailure<U>(): Outcome<U> requires Err? { Err(error) }
    function Extract(): (T, string) requires Ok? { (value, rest) }
  }

  predicate Starts(s: string, c: char) {
    s != [] && s[0] == c
  }

  /** Characters up to the closing quote, escapes decoded; starts after the opening quote. */
  function ParseBody(s: string): (r: Outcome<string>)
    ensures r.Ok? ==> |r.rest| < |s|
    decreases |s|
  {
    if s == [] then Err("unterminated string")
    else if s[0] == '"' then Ok("", s[1..])
    else if s[0] != '\\' then
      var (text, rest) :- ParseBody(s[1..]);
      Ok([s[0]] + text, rest)
    else if Starts(s[1..], 'u') then
      if |s| < 6 then Err("truncated \\u escape")
      else
        var (text, rest) :- ParseBody(s[6..]);
        Ok([HexByte(s[2..6])] + text, rest)
    else if |s| == 1 || ShortEscape(s[1]).None? then Err("unsupported escape sequence")
    else
      var (text, rest) :- ParseBody(s[2..]);
      Ok([ShortEscape(s[1]).value] + text, rest)
  }

  function ParseString(s: string): (r: Outcome<string>)
    ensures r.Ok? ==> |r.rest| < |s|
  {
    var t := SkipWs(s);
    if !Starts(t, '"') then Err("expected opening quote")
    else
      var (text, rest) :- ParseBody(t[1..]);
      Ok(text, rest)
  }

  function ParseNumber(s: string): (r: Outcome<Value>)
    ensures r.Ok? ==> |r.rest| < |s|
  {
    var digits := NumRun(s);
    if digits == "" then Err("expected a value")
    else
      match Numeral(digits)
      case None => Err("invalid number literal: " + digits)
      case Some(n) => Ok(Number(n), s[|digits|..])
  }

  /** A literal or a number. */
  function ParseScalar(s: string): (r: Outcome<Value>)
    ensures r.Ok? ==> |r.rest| < |s|
  {
    if "true" <= s then Ok(Bool(true), s[4..])
    else if "false" <= s then Ok(Bool(false), s[5..])
    else if "null" <= s then Ok(Null, s[4..])
    else ParseNumber(s)
  }

  function ParseValue(s: string): (r: Outcome<Value>)
    ensures r.Ok? ==> |r.rest| < |s|
    decreases |s|, 2
  {
    var t := SkipWs(s);
    var (v, rest) :- ParseToken(t);
    Ok(v, rest)
  }

  /** A value whose first character is at the cursor. */
  function ParseToken(t: string): (r: Outcome<Value>)
    ensures r.Ok? ==> |r.rest| < |t|
    decreases |t|, 1
  {
    if Starts(t, '"') then
      var (text, rest) :- ParseString(t);
      Ok(String(text), rest)
    else if Starts(t, '{') then
      var u := SkipWs(t[1..]);
      if Starts(u, '}') then Ok(Object([]), u[1..])
      else
        var (fields, rest) :- ParseMembers(u, []);
        Ok(Object(fields), rest)
    else if Starts(t, '[') then
      var u := SkipWs(t[1..]);
      if Starts(u, ']') then Ok(Array([]), u[1..])
      else
        var (items, rest) :- ParseItems(u);
        Ok(Array(items), rest)
    else ParseScalar(t)
  }

  /** The loop of `ParseArray`. */
  function ParseItems(s: string): (r: Outcome<seq<Value>>)
    ensures r.Ok? ==> |r.rest| < |s|
    decreases |s|, 3
  {
    var (item, rest) :- ParseValue(s);
    var t := SkipWs(rest);
    if Starts(t, ',') then
      var (items, rest') :- ParseItems(t[1..]);
      Ok([item] + items, rest')
    else if Starts(t, ']') then Ok([item], t[1..])
    else Err("expected ',' or ']' in array")
  }

  /** Key, colon and value of one member. */
  function ParseMember(s: string): (r: Outcome<(string, Value)>)
    ensures r.Ok? ==> |r.rest| < |s|
    decreases |s|, 3
  {
    var (key, afterKey) :- ParseString(s);
    var c := SkipWs(afterKey);
    if !Starts(c, ':') then Err("expected ':' after key \"" + key + "\"")
    else
      var (value, rest) :- ParseValue(c[1..]);
      Ok((key, value), rest)
  }

  /** The loop of `ParseObjectValue`, with the fields assigned so far. */
  function ParseMembers(s: string, acc: Fields): (r: Outcome<Fields>)
    ensures r.Ok? ==> |r.rest| < |s|
    decreases |s|, 4
  {
    var (member, rest) :- ParseMember(s);
    var (key, value) := member;
    var fields := Insert(acc, key, value);
    var t := SkipWs(rest);
    if Starts(t, ',') then ParseMembers(t[1..], fields)
    else if Starts(t, '}') then Ok(fields, t[1..])
    else Err("expected ',' or '}' after value for \"" + key + "\"")
  }
}
