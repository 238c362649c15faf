/** The reader accepts exactly the documents of JsonGrammar, with exactly their meaning. */
module JsonExact {
  import opened Wrappers
  import opened JsonValue
  import opened JsonLexis
  import opened JsonGrammar
  import opened JsonParser

  // ---------- every document is read back ----------

  /** One piece in front of a body that is read. */
  lemma PieceComplete(p: Piece, tail: string)
    requires ValidPiece(p) && ParseBody(tail).Ok?
    ensures ParseBody(PieceText(p) + tail) == Ok([PieceChar(p)] + ParseBody(tail).value, ParseBody(tail).rest)
  {
    var s := PieceText(p) + tail;
    assert s[|PieceText(p)|..] == tail;
    match p {
      case Raw(c) =>
      case Short(c) => assert s[0] == '\\' && s[1] == c && s[1..][0] == c;
      case Hex(digits) => assert s[0] == '\\' && s[1..][0] == 'u' && s[2..6] == digits;
    }
  }

  lemma {:induction false} BodyComplete(ps: seq<Piece>, rest: string)
    requires ValidPieces(ps)
    ensures ParseBody(PiecesText(ps) + ("\"" + rest)) == Ok(Chars(ps), rest)
  {
    if ps == [] {
      assert "" + ("\"" + rest) == "\"" + rest;
      assert ("\"" + rest)[1..] == rest;
    } else {
      Assoc(PieceText(ps[0]), PiecesText(ps[1..]), "\"" + rest);
      BodyComplete(ps[1..], rest);
      PieceComplete(ps[0], PiecesText(ps[1..]) + ("\"" + rest));
    }
  }

  lemma StringComplete(lead: string, ps: seq<Piece>, rest: string)
    requires Blank(lead) && ValidPieces(ps)
    ensures ParseString(lead + (Quoted(ps) + rest)) == Ok(Chars(ps), rest)
  {
    var t := Quoted(ps) + rest;
    SkipWsBlank(lead, t);
    Assoc(PiecesText(ps), "\"", rest);
    assert t[1..] == PiecesText(ps) + ("\"" + rest);
    BodyComplete(ps, rest);
  }

  /** Blanks before a delimiter that is not itself blank. */
  lemma SkipTo(blank: string, c: char, rest: string)
    requires Blank(blank) && !IsSpace(c)
    ensures SkipWs(blank + ([c] + rest)) == [c] + rest
    ensures Starts(SkipWs(blank + ([c] + rest)), c) && SkipWs(blank + ([c] + rest))[1..] == rest
  {
    SkipWsBlank(blank, [c] + rest);
  }

  /** No token is empty, nor starts with a blank or a closing bracket. */
  lemma TokenStart(d: Doc)
    requires ValidDoc(d)
    ensures Token(d) != "" && !IsSpace(Token(d)[0]) && Token(d)[0] != ']'
  {
  }

  /** A document followed by the blanks and the delimiter of an array or object. */
  lemma TrailDelimits(trail: string, c: char, rest: string)
    requires Blank(trail) && c in {',', ']', '}'}
    ensures trail + ([c] + rest) != "" && !NumChar((trail + ([c] + rest))[0])
  {
  }

  /** Any document, whatever blanks, escapes, key order and repeated keys it is written with, is read
      back as its meaning, and the cursor stops right behind it. */
  lemma {:induction false} DocComplete(d: Doc, rest: string)
    requires ValidDoc(d) && Delimited(d, rest)
    ensures ParseValue(Render(d) + rest) == Ok(Meaning(d), rest)
    decreases d, 1
  {
    TokenStart(d);
    TokenComplete(d, rest);
    Assoc(d.lead, Token(d), rest);
    SkipWsBlank(d.lead, Token(d) + rest);
  }

  lemma LiteralComplete(d: Doc, rest: string)
    requires ValidDoc(d) && (d.DNull? || d.DBool?)
    ensures ParseToken(Token(d) + rest) == Ok(Meaning(d), rest)
  {
    var t := Token(d) + rest;
    assert t[|Token(d)|..] == rest;
    assert t[0] == Token(d)[0];
    assert ParseToken(t) == ParseScalar(t);
  }

  lemma NumberScalar(t: string)
    requires t != "" && NumChar(t[0])
    ensures ParseScalar(t) == ParseNumber(t)
  {
    assert t[0] == 't' || !("true" <= t);
    assert t[0] == 'f' || !("false" <= t);
    assert t[0] == 'n' || !("null" <= t);
  }

  lemma NumberComplete(d: Doc, rest: string)
    requires ValidDoc(d) && d.DNumber? && Delimited(d, rest)
    ensures ParseToken(d.digits + rest) == Ok(Meaning(d), rest)
  {
    var t := d.digits + rest;
    assert t[0] == d.digits[0];
    assert ParseToken(t) == ParseScalar(t);
    NumberScalar(t);
    NumRunExact(d.digits, rest);
    assert t[|d.digits|..] == rest;
  }

  lemma StringTokenComplete(d: Doc, rest: string)
    requires ValidDoc(d) && d.DString?
    ensures ParseToken(Token(d) + rest) == Ok(Meaning(d), rest)
  {
    var t := Token(d) + rest;
    StringComplete("", d.pieces, rest);
    assert "" + (Quoted(d.pieces) + rest) == t;
    assert Starts(t, '"');
  }

  lemma {:induction false} ArrayComplete(d: Doc, rest: string)
    requires ValidDoc(d) && d.DArray?
    ensures ParseToken(Token(d) + rest) == Ok(Meaning(d), rest)
    decreases d, -1
  {
    var t := Token(d) + rest;
    if d.items == [] {
      Assoc(d.gap, "]", rest);
      SkipTo(d.gap, ']', rest);
      assert t[0] == '[' && t[1..] == d.gap + "]" + rest;
    } else {
      Assoc("[", RenderItems(d.items), rest);
      assert t[0] == '[' && t[1..] == RenderItems(d.items) + rest;
      ItemsComplete(d.items, rest);
    }
  }

  lemma {:induction false} ObjectComplete(d: Doc, rest: string)
    requires ValidDoc(d) && d.DObject?
    ensures ParseToken(Token(d) + rest) == Ok(Meaning(d), rest)
    decreases d, -1
  {
    if d.members == [] {
      EmptyObject(d.gap, rest);
      Assoc("{", d.gap + "}", rest);
    } else {
      Assoc("{", RenderMembers(d.members), rest);
      MembersComplete(d.members, [], rest);
      FullObject(RenderMembers(d.members) + rest, MeaningMembers(d.members, []), rest);
      assert Token(d) == "{" + RenderMembers(d.members);
    }
  }

  lemma FullObject(body: string, fields: Fields, rest: string)
    requires ParseMembers(SkipWs(body), []) == Ok(fields, rest) && !Starts(SkipWs(body), '}')
    ensures ParseToken("{" + body) == Ok(Object(fields), rest)
  {
    var t := "{" + body;
    assert Starts(t, '{') && t[1..] == body;
  }

  lemma EmptyObject(gap: string, rest: string)
    requires Blank(gap)
    ensures ParseToken("{" + (gap + "}" + rest)) == Ok(Object([]), rest)
  {
    Assoc(gap, "}", rest);
    SkipTo(gap, '}', rest);
    var t := "{" + (gap + "}" + rest);
    assert Starts(t, '{') && t[1..] == gap + "}" + rest;
  }

  lemma {:induction false} TokenComplete(d: Doc, rest: string)
    requires ValidDoc(d) && Delimited(d, rest)
    ensures ParseToken(Token(d) + rest) == Ok(Meaning(d), rest)
    decreases d, 0
  {
    match d {
      case DNumber(_, _) => NumberComplete(d, rest);
      case DString(_, _) => StringTokenComplete(d, rest);
      case DArray(_, _, _) => ArrayComplete(d, rest);
      case DObject(_, _, _) => ObjectComplete(d, rest);
      case _ => LiteralComplete(d, rest);
    }
  }

  lemma ItemsLast(s: string, v: Value, after: string, rest: string)
    requires ParseValue(s) == Ok(v, after) && SkipWs(after) == [']'] + rest
    ensures ParseItems(s) == Ok([v], rest)
  {
    assert ([']'] + rest)[1..] == rest;
  }

  lemma ItemsMore(s: string, v: Value, after: string, more: string, vs: seq<Value>, rest: string)
    requires ParseValue(s) == Ok(v, after) && SkipWs(after) == [','] + more && ParseItems(more) == Ok(vs, rest)
    ensures ParseItems(s) == Ok([v] + vs, rest)
  {
    assert ([','] + more)[1..] == more;
  }

  /** The text of an array's elements starts with its first document, then blanks and a delimiter. */
  lemma ItemsSplit(items: seq<Item>, rest: string) returns (c: char, more: string)
    requires items != [] && ValidItems(items)
    ensures c == (if |items| == 1 then ']' else ',')
    ensures more == (if |items| == 1 then rest else RenderItems(items[1..]) + rest)
    ensures RenderItems(items) + rest == Render(items[0].doc) + (items[0].trail + ([c] + more))
    ensures SkipWs(items[0].trail + ([c] + more)) == [c] + more
    ensures Delimited(items[0].doc, items[0].trail + ([c] + more))
  {
    c := if |items| == 1 then ']' else ',';
    var tail := if |items| == 1 then "" else RenderItems(items[1..]);
    more := tail + rest;
    assert "" + rest == rest;
    var trail := items[0].trail;
    assert RenderItems(items) == Render(items[0].doc) + (trail + ([c] + tail));
    Assoc(Render(items[0].doc), trail + ([c] + tail), rest);
    Assoc(trail, [c] + tail, rest);
    Assoc([c], tail, rest);
    SkipTo(trail, c, more);
    TrailDelimits(trail, c, more);
  }

  lemma {:induction false} ItemsComplete(items: seq<Item>, rest: string)
    requires items != [] && ValidItems(items)
    ensures ParseItems(SkipWs(RenderItems(items) + rest)) == Ok(MeaningItems(items), rest)
    ensures !Starts(SkipWs(RenderItems(items) + rest), ']')
    decreases items, 0
  {
    var doc := items[0].doc;
    var c, more := ItemsSplit(items, rest);
    var after := items[0].trail + ([c] + more);
    var s := RenderItems(items) + rest;
    DocComplete(doc, after);
    RenderStart(doc, after);
    ItemsSkip(s);
    if |items| == 1 {
      ItemsLast(s, Meaning(doc), after, more);
      assert MeaningItems(items[1..]) == [] && [Meaning(doc)] + [] == [Meaning(doc)];
    } else {
      ItemsComplete(items[1..], rest);
      ItemsSkip(more);
      ItemsMore(s, Meaning(doc), after, more, MeaningItems(items[1..]), rest);
    }
  }

  lemma RenderStart(d: Doc, rest: string)
    requires ValidDoc(d)
    ensures !Starts(SkipWs(Render(d) + rest), ']')
  {
    TokenStart(d);
    Assoc(d.lead, Token(d), rest);
    SkipWsBlank(d.lead, Token(d) + rest);
  }

  /** The loops do not care about blanks in front. */
  lemma ItemsSkip(s: string)
    ensures ParseItems(SkipWs(s)) == ParseItems(s)
  {
    SkipIdempotent(s);
  }

  lemma MembersSkip(s: string, acc: Fields)
    ensures ParseMembers(SkipWs(s), acc) == ParseMembers(s, acc)
  {
    SkipIdempotent(s);
  }

  lemma MembersLast(s: string, acc: Fields, key: string, afterKey: string, afterColon: string, v: Value, after: string,
          rest: string)
    requires ParseString(s) == Ok(key, afterKey) && SkipWs(afterKey) == [':'] + afterColon
    requires ParseValue(afterColon) == Ok(v, after) && SkipWs(after) == ['}'] + rest
    ensures ParseMembers(s, acc) == Ok(Insert(acc, key, v), rest)
  {
    assert ([':'] + afterColon)[1..] == afterColon;
    assert (['}'] + rest)[1..] == rest;
  }

  lemma MembersMore(s: string, acc: Fields, key: string, afterKey: string, afterColon: string, v: Value, after: string,
      more: string, all: Fields, rest: string)
    requires ParseString(s) == Ok(key, afterKey) && SkipWs(afterKey) == [':'] + afterColon
    requires ParseValue(afterColon) == Ok(v, after) && SkipWs(after) == [','] + more
    requires ParseMembers(more, Insert(acc, key, v)) == Ok(all, rest)
    ensures ParseMembers(s, acc) == Ok(all, rest)
  {
    assert ([':'] + afterColon)[1..] == afterColon;
    assert ([','] + more)[1..] == more;
  }

  lemma MembersSplit(members: seq<Member>, rest: string) returns (c: char, more: string)
    requires members != [] && ValidMembers(members)
    ensures c == (if |members| == 1 then '}' else ',')
    ensures more == (if |members| == 1 then rest else RenderMembers(members[1..]) + rest)
    ensures RenderMembers(members) + rest ==
      MemberHead(members[0]) + (Render(members[0].doc) + (members[0].trail + ([c] + more)))
    ensures SkipWs(members[0].trail + ([c] + more)) == [c] + more
    ensures Delimited(members[0].doc, members[0].trail + ([c] + more))
  {
    c := if |members| == 1 then '}' else ',';
    var tail := if |members| == 1 then "" else RenderMembers(members[1..]);
    more := tail + rest;
    assert "" + rest == rest;
    var m := members[0];
    assert RenderMembers(members) == MemberHead(m) + (Render(m.doc) + (m.trail + ([c] + tail)));
    Assoc(MemberHead(m), Render(m.doc) + (m.trail + ([c] + tail)), rest);
    Assoc(Render(m.doc), m.trail + ([c] + tail), rest);
    Assoc(m.trail, [c] + tail, rest);
    Assoc([c], tail, rest);
    SkipTo(m.trail, c, more);
    TrailDelimits(m.trail, c, more);
  }

  /** The key and the colon of a member are read, leaving the text of its value. */
  lemma HeadComplete(m: Member, value: string) returns (afterKey: string)
    requires ValidHead(m)
    ensures ParseString(MemberHead(m) + value) == Ok(Chars(m.key), afterKey)
    ensures SkipWs(afterKey) == [':'] + value
    ensures !Starts(SkipWs(MemberHead(m) + value), '}')
  {
    afterKey := m.colon + ([':'] + value);
    Assoc(m.lead, Quoted(m.key) + (m.colon + ":"), value);
    Assoc(Quoted(m.key), m.colon + ":", value);
    Assoc(m.colon, ":", value);
    StringComplete(m.lead, m.key, afterKey);
    SkipTo(m.colon, ':', value);
    SkipWsBlank(m.lead, Quoted(m.key) + afterKey);
  }

  lemma {:induction false} MembersComplete(members: seq<Member>, acc: Fields, rest: string)
    requires members != [] && ValidMembers(members)
    ensures ParseMembers(SkipWs(RenderMembers(members) + rest), acc) == Ok(MeaningMembers(members, acc), rest)
    ensures !Starts(SkipWs(RenderMembers(members) + rest), '}')
    decreases members, 0
  {
    var m := members[0];
    var c, more := MembersSplit(members, rest);
    var after := m.trail + ([c] + more);
    var s := RenderMembers(members) + rest;
    var afterKey := HeadComplete(m, Render(m.doc) + after);
    DocComplete(m.doc, after);
    MembersSkip(s, acc);
    var next := Insert(acc, Chars(m.key), Meaning(m.doc));
    if |members| == 1 {
      MembersLast(s, acc, Chars(m.key), afterKey, Render(m.doc) + after, Meaning(m.doc), after, more);
      assert members[1..] == [];
    } else {
      MembersComplete(members[1..], next, rest);
      MembersSkip(more, next);
      MembersMore(s, acc, Chars(m.key), afterKey, Render(m.doc) + after, Meaning(m.doc), after, more,
        MeaningMembers(members[1..], next), rest);
    }
  }

  // ---------- everything that is read is a document ----------

  lemma {:induction false} BodySound(s: string) returns (ps: seq<Piece>)
    requires ParseBody(s).Ok?
    ensures ValidPieces(ps) && Chars(ps) == ParseBody(s).value
    ensures s == PiecesText(ps) + ("\"" + ParseBody(s).rest)
    decreases |s|
  {
    var rest := ParseBody(s).rest;
    if s[0] == '"' {
      ps := [];
      assert s == ['"'] + s[1..];
      assert "" + ("\"" + rest) == "\"" + rest;
    } else {
      var p := if s[0] != '\\' then Raw(s[0]) else if s[1] == 'u' then Hex(s[2..6]) else Short(s[1]);
      var n := |PieceText(p)|;
      assert s == PieceText(p) + s[n..];
      var tail := BodySound(s[n..]);
      ps := [p] + tail;
      assert ps[1..] == tail;
      Assoc(PieceText(p), PiecesText(tail), "\"" + rest);
    }
  }

  lemma StringSound(s: string) returns (lead: string, ps: seq<Piece>)
    requires ParseString(s).Ok?
    ensures Blank(lead) && ValidPieces(ps) && Chars(ps) == ParseString(s).value
    ensures s == lead + (Quoted(ps) + ParseString(s).rest)
    ensures Starts(s, '"') ==> lead == ""
  {
    lead := SkipWsSplits(s);
    var t := SkipWs(s);
    ps := BodySound(t[1..]);
    Assoc(PiecesText(ps), "\"", ParseString(s).rest);
    assert t == ['"'] + t[1..];
    Assoc("\"", PiecesText(ps) + "\"", ParseString(s).rest);
    assert lead == "" || s[0] == lead[0];
  }

  /** Whatever the reader accepts is a document followed by the text it left, and the value it
      returned is the meaning of that document. */
  lemma {:induction false} DocSound(s: string) returns (d: Doc)
    requires ParseValue(s).Ok?
    ensures ValidDoc(d) && Delimited(d, ParseValue(s).rest)
    ensures s == Render(d) + ParseValue(s).rest && Meaning(d) == ParseValue(s).value
    decreases |s|, 2
  {
    var lead := SkipWsSplits(s);
    var t := SkipWs(s);
    d := TokenSound(t);
    var rest := ParseValue(s).rest;
    d := match d
      case DNull(_) => DNull(lead)
      case DBool(_, b) => DBool(lead, b)
      case DNumber(_, digits) => DNumber(lead, digits)
      case DString(_, pieces) => DString(lead, pieces)
      case DArray(_, items, gap) => DArray(lead, items, gap)
      case DObject(_, members, gap) => DObject(lead, members, gap);
    Assoc(lead, Token(d), rest);
  }

  lemma {:induction false} TokenSound(t: string) returns (d: Doc)
    requires ParseToken(t).Ok?
    ensures ValidDoc(d) && d.lead == "" && Delimited(d, ParseToken(t).rest)
    ensures t == Token(d) + ParseToken(t).rest && Meaning(d) == ParseToken(t).value
    decreases |t|, 1
  {
    var rest := ParseToken(t).rest;
    if Starts(t, '"') {
      var lead, ps := StringSound(t);
      assert "" + (Quoted(ps) + rest) == Quoted(ps) + rest;
      d := DString("", ps);
    } else if Starts(t, '{') {
      d := ObjectSound(t);
    } else if Starts(t, '[') {
      d := ArraySound(t);
    } else {
      d := ScalarSound(t);
    }
  }

  lemma PrefixSplit(word: string, t: string)
    requires word <= t
    ensures t == word + t[|word|..]
  {
  }

  lemma ScalarSound(t: string) returns (d: Doc)
    requires ParseScalar(t).Ok?
    ensures ValidDoc(d) && d.lead == "" && Delimited(d, ParseScalar(t).rest)
    ensures t == Token(d) + ParseScalar(t).rest && Meaning(d) == ParseScalar(t).value
  {
    if "true" <= t {
      d := DBool("", true);
      PrefixSplit("true", t);
    } else if "false" <= t {
      d := DBool("", false);
      PrefixSplit("false", t);
    } else if "null" <= t {
      d := DNull("");
      PrefixSplit("null", t);
    } else {
      d := NumberSound(t);
      PrefixSplit(d.digits, t);
    }
  }

  lemma NumberSound(t: string) returns (d: Doc)
    requires ParseNumber(t).Ok?
    ensures ValidDoc(d) && d.DNumber? && d.lead == "" && Delimited(d, ParseNumber(t).rest)
    ensures d.digits <= t && ParseNumber(t).rest == t[|d.digits|..] && Meaning(d) == ParseNumber(t).value
  {
    d := DNumber("", NumRun(t));
  }

  lemma {:induction false} ArraySound(t: string) returns (d: Doc)
    requires Starts(t, '[') && ParseToken(t).Ok?
    ensures ValidDoc(d) && d.DArray? && d.lead == ""
    ensures t == Token(d) + ParseToken(t).rest && Meaning(d) == ParseToken(t).value
    decreases |t|, 0
  {
    var rest := ParseToken(t).rest;
    var gap := SkipWsSplits(t[1..]);
    var u := SkipWs(t[1..]);
    assert t == "[" + t[1..];
    if Starts(u, ']') {
      d := DArray("", [], gap);
      assert u == "]" + rest;
      Assoc(gap, "]", rest);
      Assoc("[", gap + "]", rest);
    } else {
      ItemsSkip(t[1..]);
      var items := ItemsSound(t[1..]);
      d := DArray("", items, "");
      Assoc("[", RenderItems(items), rest);
    }
  }

  lemma {:induction false} ObjectSound(t: string) returns (d: Doc)
    requires Starts(t, '{') && ParseToken(t).Ok?
    ensures ValidDoc(d) && d.DObject? && d.lead == ""
    ensures t == Token(d) + ParseToken(t).rest && Meaning(d) == ParseToken(t).value
    decreases |t|, 0
  {
    var rest := ParseToken(t).rest;
    var gap := SkipWsSplits(t[1..]);
    var u := SkipWs(t[1..]);
    assert t == "{" + t[1..];
    if Starts(u, '}') {
      d := DObject("", [], gap);
      assert u == "}" + rest;
      Assoc(gap, "}", rest);
      Assoc("{", gap + "}", rest);
    } else {
      MembersSkip(t[1..], []);
      var members := MembersSound(t[1..], []);
      d := DObject("", members, "");
      Assoc("{", RenderMembers(members), rest);
    }
  }

  lemma {:induction false} ItemsSound(s: string) returns (items: seq<Item>)
    requires ParseItems(s).Ok?
    ensures items != [] && ValidItems(items) && MeaningItems(items) == ParseItems(s).value
    ensures s == RenderItems(items) + ParseItems(s).rest
    decreases |s|, 3
  {
    var rest := ParseItems(s).rest;
    var doc := DocSound(s);
    var after := ParseValue(s).rest;
    var trail := SkipWsSplits(after);
    var t := SkipWs(after);
    var c := t[0];
    var more := t[1..];
    assert t == [c] + more;
    var tail := [];
    if c == ',' { tail := ItemsSound(more); }
    items := [Item(doc, trail)] + tail;
    assert items[1..] == tail;
    var c', more' := ItemsSplit(items, rest);
    assert c' == c && more' == more;
  }

  /** Key and colon, up to where the value of the member starts. */
  lemma HeadSound(s: string) returns (lead: string, key: seq<Piece>, colon: string)
    requires ParseString(s).Ok? && Starts(SkipWs(ParseString(s).rest), ':')
    ensures Blank(lead) && ValidPieces(key) && Blank(colon) && Chars(key) == ParseString(s).value
    ensures s == lead + (Quoted(key) + (colon + ":")) + SkipWs(ParseString(s).rest)[1..]
  {
    lead, key := StringSound(s);
    var afterKey := ParseString(s).rest;
    colon := SkipWsSplits(afterKey);
    var afterColon := SkipWs(afterKey)[1..];
    assert SkipWs(afterKey) == ":" + afterColon;
    Assoc(colon, ":", afterColon);
    Assoc(Quoted(key), colon + ":", afterColon);
    Assoc(lead, Quoted(key) + (colon + ":"), afterColon);
  }

  /** What an accepted run of members consists of. */
  lemma MembersParts(s: string, acc: Fields) returns (afterColon: string, after: string, t: string, next: Fields)
    requires ParseMembers(s, acc).Ok?
    ensures ParseString(s).Ok? && Starts(SkipWs(ParseString(s).rest), ':')
      && afterColon == SkipWs(ParseString(s).rest)[1..]
    ensures ParseValue(afterColon).Ok? && after == ParseValue(afterColon).rest && t == SkipWs(after)
    ensures next == Insert(acc, ParseString(s).value, ParseValue(afterColon).value) && |t| < |s|
    ensures (Starts(t, ',') && ParseMembers(t[1..], next) == ParseMembers(s, acc)) ||
      (Starts(t, '}') && ParseMembers(s, acc) == Ok(next, t[1..]))
  {
    afterColon := SkipWs(ParseString(s).rest)[1..];
    after := ParseValue(afterColon).rest;
    t := SkipWs(after);
    next := Insert(acc, ParseString(s).value, ParseValue(afterColon).value);
  }

  lemma {:induction false} MembersSound(s: string, acc: Fields) returns (members: seq<Member>)
    requires ParseMembers(s, acc).Ok?
    ensures members != [] && ValidMembers(members) && MeaningMembers(members, acc) == ParseMembers(s, acc).value
    ensures s == RenderMembers(members) + ParseMembers(s, acc).rest
    decreases |s|, 3
  {
    var rest := ParseMembers(s, acc).rest;
    var afterColon, after, t, next := MembersParts(s, acc);
    var lead, key, colon := HeadSound(s);
    var doc := DocSound(afterColon);
    var trail := SkipWsSplits(after);
    var tail := [];
    if t[0] == ',' { tail := MembersSound(t[1..], next); }
    members := MembersJoined(s, acc, Member(lead, key, colon, doc, trail), tail, afterColon, after, t, next);
  }

  /** A member that was read and those that were read after it. */
  lemma MembersJoined(s: string, acc: Fields, m: Member, tail: seq<Member>, afterColon: string, after: string,
          t: string, next: Fields)
    returns (members: seq<Member>)
    requires ParseMembers(s, acc).Ok? && ValidMembers([m]) && s == MemberHead(m) + afterColon
    requires afterColon == Render(m.doc) + after && after == m.trail + t && Delimited(m.doc, after)
    requires next == Insert(acc, Chars(m.key), Meaning(m.doc))
    requires t != "" && t[0] == if tail == [] then '}' else ','
    requires tail == [] ==> ParseMembers(s, acc) == Ok(next, t[1..])
    requires ValidMembers(tail)
    requires tail != [] ==> MeaningMembers(tail, next) == ParseMembers(s, acc).value
    requires tail != [] ==> t[1..] == RenderMembers(tail) + ParseMembers(s, acc).rest
    ensures members == [m] + tail && ValidMembers(members) && MeaningMembers(members, acc) == ParseMembers(s, acc).value
    ensures s == RenderMembers(members) + ParseMembers(s, acc).rest
  {
    members := [m] + tail;
    assert members[1..] == tail && members[0] == m;
    assert t == [t[0]] + t[1..];
    var c, more := MembersSplit(members, ParseMembers(s, acc).rest);
  }

  /** The accepted texts and their values, both ways at once. */
  lemma ParseExact(s: string, v: Value, rest: string)
    ensures ParseValue(s) == Ok(v, rest) <==>
      exists d :: ValidDoc(d) && Delimited(d, rest) && s == Render(d) + rest && Meaning(d) == v
  {
    if ParseValue(s) == Ok(v, rest) {
      var d := DocSound(s);
    }
    forall d | ValidDoc(d) && Delimited(d, rest) && s == Render(d) + rest && Meaning(d) == v
      ensures ParseValue(s) == Ok(v, rest)
    {
      DocComplete(d, rest);
    }
  }
}
