/** Newline framing over arbitrary receive chunks (runtime/src/TcpServerConnection.cpp:98-109,125-166;
    the loop of server/src/protocol.js:41-59 cuts lines the same way). */
module Framing {
  import opened Wrappers
  import opened JsonValue
  import opened JsonPrinter
  import opened JsonGrammar
  import opened JsonParser
  import opened JsonExact
  import opened JsonRoundTrip
  import JsonReader

  /** `ServerMessage`: the type and the payload, printed again. */
  datatype Message = Message(kind: string, payload: string)

  // ---------- lines ----------

  /** The text before the first newline. */
  function FirstLine(s: string): (r: string)
    ensures r <= s && '\n' !in r
    ensures |r| < |s| ==> s[|r|] == '\n'
    ensures |r| == |s| ==> '\n' !in s
  {
    if s == [] || s[0] == '\n' then "" else [s[0]] + FirstLine(s[1..])
  }

  /** The complete lines of a buffer, in order. */
  function Lines(s: string): seq<string>
    decreases |s|
  {
    var line := FirstLine(s);
    if |line| == |s| then [] else [line] + Lines(s[|line| + 1..])
  }

  /** What stays buffered: the text after the last newline. */
  function Tail(s: string): (r: string)
    ensures '\n' !in r
    decreases |s|
  {
    var line := FirstLine(s);
    if |line| == |s| then s else Tail(s[|line| + 1..])
  }

  lemma {:induction false} FirstLineOf(line: string, rest: string)
    requires '\n' !in line
    ensures FirstLine(line + ("\n" + rest)) == line
  {
    if line == "" {
      assert "" + ("\n" + rest) == "\n" + rest;
    } else {
      assert (line + ("\n" + rest))[1..] == line[1..] + ("\n" + rest);
      FirstLineOf(line[1..], rest);
      assert line == [line[0]] + line[1..];
    }
  }

  lemma LinesOfLine(line: string, rest: string)
    requires '\n' !in line
    ensures Lines(line + ("\n" + rest)) == [line] + Lines(rest) && Tail(line + ("\n" + rest)) == Tail(rest)
  {
    FirstLineOf(line, rest);
    assert (line + ("\n" + rest))[|line| + 1..] == rest;
  }

  /** A stream whose first line is complete, cut somewhere behind it. */
  lemma CutBehindLine(line: string, rest: string, b: string)
    requires '\n' !in line
    ensures Lines(line + ("\n" + rest) + b) == [line] + Lines(rest + b)
    ensures Tail(line + ("\n" + rest) + b) == Tail(rest + b)
  {
    assert line + ("\n" + rest) + b == line + ("\n" + (rest + b));
    LinesOfLine(line, rest + b);
  }

  /** Cutting a stream in two anywhere changes neither the lines nor what stays buffered. */
  lemma {:induction false} CutAnywhere(a: string, b: string)
    ensures Lines(a + b) == Lines(a) + Lines(Tail(a) + b) && Tail(a + b) == Tail(Tail(a) + b)
    decreases |a|
  {
    var line := FirstLine(a);
    if |line| < |a| {
      var rest := a[|line| + 1..];
      assert a == line + ("\n" + rest);
      LinesOfLine(line, rest);
      CutBehindLine(line, rest, b);
      CutAnywhere(rest, b);
      Assoc([line], Lines(rest), Lines(Tail(rest) + b));
    }
  }

  // ---------- one line ----------

  /** The messages a parsed line stands for: one, or none when it is not an object with a string `type`. */
  function Envelope(v: Value, lossy: Lossy): seq<Message> {
    if !v.Object? || !Has(v.fields, "type") || !Get(v.fields, "type").String? then []
    else
      [Message(Get(v.fields, "type").text,
         if Has(v.fields, "payload") then Text(Get(v.fields, "payload"), lossy) else "{}")]
  }

  function Dispatch(line: string, lossy: Lossy): seq<Message> {
    if line == "" || ParseValue(line).Err? then [] else Envelope(ParseValue(line).value, lossy)
  }

  function DispatchAll(lines: seq<string>, lossy: Lossy): seq<Message> {
    if lines == [] then [] else Dispatch(lines[0], lossy) + DispatchAll(lines[1..], lossy)
  }

  /** A line that begins with a document: one message when that is an object whose type is a string, otherwise none;
      without a payload it is an empty object. */
  lemma DispatchExactly(d: Doc, rest: string, lossy: Lossy)
    requires ValidDoc(d) && Delimited(d, rest)
    ensures Dispatch(Render(d) + rest, lossy) ==
      match Meaning(d)
      case Object(fields) =>
        if !Has(fields, "type") || !Get(fields, "type").String? then []
        else if Has(fields, "payload") then [Message(Get(fields, "type").text, Text(Get(fields, "payload"), lossy))]
        else [Message(Get(fields, "type").text, "{}")]
      case _ => []
  {
    hide ParseValue, Render, Meaning, Text;
    DocComplete(d, rest);
    assert Render(d) + rest != "" by {
      if Render(d) + rest == "" { assert ParseValue("").Err? by { NothingParses(); } }
    }
  }

  lemma NothingParses()
    ensures ParseValue("").Err?
  {
  }

  /** And a line that begins with none is skipped. */
  lemma DispatchNothing(line: string, lossy: Lossy)
    requires forall d, rest :: ValidDoc(d) && Delimited(d, rest) ==> line != Render(d) + rest
    ensures Dispatch(line, lossy) == []
  {
    hide ParseValue, Render;
    if ParseValue(line).Ok? {
      var d := DocSound(line);
      assert false;
    }
  }

  lemma {:induction false} DispatchConcat(a: seq<string>, b: seq<string>, lossy: Lossy)
    ensures DispatchAll(a + b, lossy) == DispatchAll(a, lossy) + DispatchAll(b, lossy)
  {
    hide Dispatch;
    if a == [] {
      assert a + b == b;
    } else {
      assert (a + b)[1..] == a[1..] + b;
      DispatchConcat(a[1..], b, lossy);
      Assoc(Dispatch(a[0], lossy), DispatchAll(a[1..], lossy), DispatchAll(b, lossy));
    }
  }

  lemma DispatchFirst(line: string, lines: seq<string>, lossy: Lossy)
    ensures DispatchAll([line] + lines, lossy) == Dispatch(line, lossy) + DispatchAll(lines, lossy)
  {
    assert ([line] + lines)[1..] == lines;
  }

  lemma LinesStep(s: string)
    requires |FirstLine(s)| < |s|
    ensures Lines(s) == [FirstLine(s)] + Lines(s[|FirstLine(s)| + 1..])
    ensures Tail(s) == Tail(s[|FirstLine(s)| + 1..])
  {
  }

  /** Taking one line off the front of a buffer. */
  lemma NextLine(s: string, line: string, rest: string, lossy: Lossy)
    requires |FirstLine(s)| < |s| && line == FirstLine(s) && rest == s[|line| + 1..]
    ensures s[..|line|] == line && Tail(s) == Tail(rest)
    ensures DispatchAll(Lines(s), lossy) == Dispatch(line, lossy) + DispatchAll(Lines(rest), lossy)
  {
    LinesStep(s);
    DispatchFirst(line, Lines(rest), lossy);
  }

  // ---------- the receiving end ----------

  class LineReader {
    var readBuffer: string
    var dispatched: seq<Message>

    constructor ()
      ensures readBuffer == "" && dispatched == []
    {
      readBuffer, dispatched := "", [];
    }

    /** One `recv` and the `DispatchCompleteLines` after it. */
    method Receive(chunk: string, lossy: Lossy)
      modifies this
      ensures readBuffer == Tail(old(readBuffer) + chunk)
      ensures dispatched == old(dispatched) + DispatchAll(Lines(old(readBuffer) + chunk), lossy)
    {
      readBuffer := readBuffer + chunk;
      ghost var all := DispatchAll(Lines(readBuffer), lossy);
      assert dispatched + all == old(dispatched) + all;
      var newlinePos := |FirstLine(readBuffer)|;
      while newlinePos < |readBuffer|
        invariant newlinePos == |FirstLine(readBuffer)|
        invariant dispatched + DispatchAll(Lines(readBuffer), lossy) == old(dispatched) + all
        invariant Tail(readBuffer) == Tail(old(readBuffer) + chunk)
        decreases |readBuffer|
      {
        NextLine(readBuffer, FirstLine(readBuffer), readBuffer[newlinePos + 1..], lossy);
        var line := readBuffer[..newlinePos];
        ghost var before := dispatched;
        readBuffer := readBuffer[newlinePos + 1..];
        DispatchLine(line, lossy);
        Assoc(before, Dispatch(line, lossy), DispatchAll(Lines(readBuffer), lossy));
        newlinePos := |FirstLine(readBuffer)|;
      }
      assert dispatched + [] == dispatched;
    }

    method DispatchLine(line: string, lossy: Lossy)
      modifies this`dispatched
      ensures dispatched == old(dispatched) + Dispatch(line, lossy)
    {
      if line == "" { return; }
      var ok, value, error := JsonReader.Parse(line);
      if !ok || !value.Object? { return; }
      var fields := value.fields;
      if !Has(fields, "type") || !Get(fields, "type").String? { return; }
      var payload := "{}";
      if Has(fields, "payload") {
        payload := Stringify(Get(fields, "payload"), lossy);
      }
      dispatched := dispatched + [Message(Get(fields, "type").text, payload)];
    }
  }

  /** The buffer and the messages after a run of chunks. */
  function Feed(buffer: string, chunks: seq<string>, lossy: Lossy): (seq<Message>, string)
    decreases |chunks|
  {
    if chunks == [] then ([], Tail(buffer))
    else
      var (later, rest) := Feed(Tail(buffer + chunks[0]), chunks[1..], lossy);
      (DispatchAll(Lines(buffer + chunks[0]), lossy) + later, rest)
  }

  function Joined(chunks: seq<string>): string {
    if chunks == [] then "" else chunks[0] + Joined(chunks[1..])
  }

  lemma TailWhole(s: string)
    requires '\n' !in s
    ensures Tail(s) == s && Lines(s) == []
  {
    var line := FirstLine(s);
    assert Lines(s) == [] || '\n' in s;
  }

  /** However a stream is cut into chunks, the same messages come out in the same order, and the same
      unfinished line stays behind. */
  lemma {:induction false} ChunkingIrrelevant(buffer: string, chunks: seq<string>, lossy: Lossy)
    requires '\n' !in buffer
    ensures Feed(buffer, chunks, lossy) ==
      (DispatchAll(Lines(buffer + Joined(chunks)), lossy), Tail(buffer + Joined(chunks)))
    decreases |chunks|
  {
    if chunks == [] {
      assert buffer + "" == buffer;
      TailWhole(buffer);
    } else {
      var s, rest := buffer + chunks[0], Joined(chunks[1..]);
      ChunkingIrrelevant(Tail(s), chunks[1..], lossy);
      CutAnywhere(s, rest);
      Assoc(buffer, chunks[0], rest);
      DispatchConcat(Lines(s), Lines(Tail(s) + rest), lossy);
    }
  }

  // ---------- the sending end ----------

  /** What a caller hands to `Send`: a message type and a payload value, or no payload text at all. */
  datatype Outgoing = Outgoing(kind: string, payload: Option<Value>)

  /** The line `Send` writes (runtime/src/TcpServerConnection.cpp:100); the type is copied unescaped. */
  function SendLine(kind: string, payloadJson: string): string {
    "{\"type\":\"" + kind + "\",\"payload\":" + (if payloadJson == "" then "{}" else payloadJson) + "}"
  }

  function PayloadText(m: Outgoing, lossy: Lossy): string {
    match m.payload case None => "" case Some(v) => Text(v, lossy)
  }

  function Wire(ms: seq<Outgoing>, lossy: Lossy): string {
    if ms == [] then "" else SendLine(ms[0].kind, PayloadText(ms[0], lossy)) + ("\n" + Wire(ms[1..], lossy))
  }

  function Delivered(ms: seq<Outgoing>, lossy: Lossy): seq<Message> {
    if ms == [] then [] else [Received(ms[0], lossy)] + Delivered(ms[1..], lossy)
  }

  function Received(m: Outgoing, lossy: Lossy): Message {
    Message(m.kind, if m.payload.None? then "{}" else Text(m.payload.value, lossy))
  }

  /** A message the wire format can carry: no quote, backslash or newline in the type, a printable payload. */
  ghost predicate Sendable(m: Outgoing) {
    (forall i :: 0 <= i < |m.kind| ==> m.kind[i] !in {'"', '\\', '\n'}) &&
    (m.payload.Some? ==> WellFormed(m.payload.value) && Exact(m.payload.value))
  }

  function RawPieces(s: string): seq<Piece> {
    if s == [] then [] else [Raw(s[0])] + RawPieces(s[1..])
  }

  lemma {:induction false} RawIsItself(s: string)
    requires forall i :: 0 <= i < |s| ==> s[i] !in {'"', '\\'}
    ensures ValidPieces(RawPieces(s)) && Chars(RawPieces(s)) == s && PiecesText(RawPieces(s)) == s
  {
    if s != [] {
      RawIsItself(s[1..]);
      assert RawPieces(s)[1..] == RawPieces(s[1..]);
      assert s == [s[0]] + s[1..];
    }
  }

  /** A member whose key is written as it is, with no blanks around it. */
  function PlainMember(name: string, doc: Doc): Member {
    Member("", RawPieces(name), "", doc, "")
  }

  lemma NamedMember(name: string, doc: Doc) returns (m: Member)
    requires forall i :: 0 <= i < |name| ==> name[i] !in {'"', '\\'}
    ensures m.doc == doc && m.trail == "" && ValidHead(m)
    ensures Chars(m.key) == name && MemberHead(m) == "\"" + (name + "\"") + ":"
  {
    m := PlainMember(name, doc);
    RawIsItself(name);
  }

  lemma TwoMembers(a: Member, b: Member)
    requires a.trail == "" && b.trail == ""
    ensures RenderMembers([a, b]) == MemberHead(a) + (Render(a.doc) + ("," + (MemberHead(b) + (Render(b.doc) + "}"))))
  {
    assert [a, b][1..] == [b];
    assert RenderMembers([b]) == MemberHead(b) + (Render(b.doc) + "}");
  }

  /** The pieces of a sent line, regrouped. */
  lemma LinePieces(k: string, p: string)
    ensures "{" +
      ("\"" + ("type" + "\"") + ":" + ("\"" + (k + "\"") + ("," + ("\"" + ("payload" + "\"") + ":" + (p + "}"))))) ==
      "{\"type\":\"" + k + "\",\"payload\":" + p + "}"
  {
    assert "\"" + ("type" + "\"") + ":" == "\"type\":" && "\"" + ("payload" + "\"") + ":" == "\"payload\":";
    Assoc("\"payload\":", p, "}");
    Assoc(",", "\"payload\":", p + "}");
    Assoc("\"", k, "\"");
    var m := "," + ("\"payload\":" + (p + "}"));
    assert m == ",\"payload\":" + (p + "}");
    Assoc("\"" + k, "\"", m);
    Assoc("\"", ",\"payload\":", p + "}");
    assert "\"" + ",\"payload\":" == "\",\"payload\":";
    Assoc("\"type\":", "\"" + k, "\",\"payload\":" + (p + "}"));
    Assoc("\"type\":", "\"", k);
    Assoc("{", "\"type\":" + "\"" + k, "\",\"payload\":" + (p + "}"));
    Assoc("{", "\"type\":" + "\"", k);
    assert "{" + ("\"type\":" + "\"") == "{\"type\":\"";
    Assoc("{\"type\":\"" + k, "\",\"payload\":", p + "}");
    Assoc("{\"type\":\"" + k + "\",\"payload\":", p, "}");
  }

  /** The document a payload is printed as. */
  lemma PayloadDoc(payload: Value, lossy: Lossy) returns (doc: Doc)
    requires WellFormed(payload) && Exact(payload)
    ensures ValidDoc(doc) && Meaning(doc) == payload && Render(doc) == Text(payload, lossy)
      && Text(payload, lossy) != ""
  {
    CompactIsText(payload, lossy);
    PrintedNonempty(payload, lossy);
    doc := Compact(payload);
  }

  /** A line around a document. */
  lemma LineAround(kind: string, doc: Doc, text: string) returns (d: Doc)
    requires forall i :: 0 <= i < |kind| ==> kind[i] !in {'"', '\\'}
    requires ValidDoc(doc) && Render(doc) == text && text != ""
    ensures ValidDoc(d) && d.DObject? && Render(d) == SendLine(kind, text)
    ensures Meaning(d) == Object(Insert(Insert([], "type", String(kind)), "payload", Meaning(doc)))
  {
    StringDoc(kind);
    var first := NamedMember("type", DString("", RawPieces(kind)));
    var second := NamedMember("payload", doc);
    TwoMeanings(first, second);
    LineRender(first, second, kind, text);
    d := DObject("", [first, second], "");
  }

  /** The document a sent line is. */
  lemma LineIsDoc(kind: string, payload: Value, lossy: Lossy) returns (d: Doc)
    requires forall i :: 0 <= i < |kind| ==> kind[i] !in {'"', '\\'}
    requires WellFormed(payload) && Exact(payload)
    ensures ValidDoc(d) && d.DObject? && Render(d) == SendLine(kind, Text(payload, lossy))
    ensures Meaning(d) == Object(Insert(Insert([], "type", String(kind)), "payload", payload))
  {
    var doc := PayloadDoc(payload, lossy);
    d := LineAround(kind, doc, Text(payload, lossy));
  }

  lemma StringDoc(kind: string)
    requires forall i :: 0 <= i < |kind| ==> kind[i] !in {'"', '\\'}
    ensures var d := DString("", RawPieces(kind));
      ValidDoc(d) && Meaning(d) == String(kind) && Render(d) == "\"" + (kind + "\"")
  {
    RawIsItself(kind);
    var d := DString("", RawPieces(kind));
    assert Token(d) == "\"" + (kind + "\"");
    assert "" + Token(d) == Token(d);
  }

  lemma LineRender(first: Member, second: Member, kind: string, text: string)
    requires first.trail == "" && second.trail == "" && text != ""
    requires MemberHead(first) == "\"" + ("type" + "\"") + ":" && MemberHead(second) == "\"" + ("payload" + "\"") + ":"
    requires Render(first.doc) == "\"" + (kind + "\"") && Render(second.doc) == text
    ensures Render(DObject("", [first, second], "")) == SendLine(kind, text)
  {
    TwoMembers(first, second);
    LinePieces(kind, text);
    var s := RenderMembers([first, second]);
    assert "" + ("{" + s) == "{" + s;
  }

  lemma OneMeaning(m: Member, more: seq<Member>, acc: Fields)
    requires ValidHead(m) && ValidDoc(m.doc) && ValidMembers(more)
    ensures ValidMembers([m] + more)
    ensures MeaningMembers([m] + more, acc) == MeaningMembers(more, Insert(acc, Chars(m.key), Meaning(m.doc)))
  {
    assert ([m] + more)[1..] == more;
  }

  lemma TwoMeanings(a: Member, b: Member)
    requires ValidHead(a) && ValidHead(b) && ValidDoc(a.doc) && ValidDoc(b.doc)
    ensures ValidMembers([a, b])
    ensures MeaningMembers([a, b], []) == Insert(Insert([], Chars(a.key), Meaning(a.doc)), Chars(b.key), Meaning(b.doc))
  {
    OneMeaning(b, [], Insert([], Chars(a.key), Meaning(a.doc)));
    OneMeaning(a, [b] + [], []);
    assert [a] + ([b] + []) == [a, b];
  }

  lemma EnvelopeOf(kind: string, payload: Value, lossy: Lossy)
    ensures Envelope(Object(Insert(Insert([], "type", String(kind)), "payload", payload)), lossy) ==
      [Message(kind, Text(payload, lossy))]
  {
    InsertIsUpdate([], "type", String(kind));
    InsertIsUpdate(Insert([], "type", String(kind)), "payload", payload);
  }

  /** One sent line is one delivered message. */
  lemma LineDelivered(kind: string, payload: Value, lossy: Lossy)
    requires forall i :: 0 <= i < |kind| ==> kind[i] !in {'"', '\\'}
    requires WellFormed(payload) && Exact(payload)
    ensures Dispatch(SendLine(kind, Text(payload, lossy)), lossy) == [Message(kind, Text(payload, lossy))]
  {
    var line := SendLine(kind, Text(payload, lossy));
    var d := LineIsDoc(kind, payload, lossy);
    DocComplete(d, "");
    assert Render(d) + "" == line;
    EnvelopeOf(kind, payload, lossy);
  }

  /** No payload text at all is sent, and delivered, as the empty object. */
  lemma MessageDelivered(m: Outgoing, lossy: Lossy)
    requires Sendable(m)
    ensures Dispatch(SendLine(m.kind, PayloadText(m, lossy)), lossy) == [Received(m, lossy)]
  {
    var payload := if m.payload.None? then Object([]) else m.payload.value;
    LineDelivered(m.kind, payload, lossy);
    PrintedNonempty(payload, lossy);
    assert Text(Object([]), lossy) == "{}";
  }

  lemma PrintedNonempty(v: Value, lossy: Lossy)
    requires WellFormed(v) && Exact(v)
    ensures Text(v, lossy) != ""
  {
    PrintedIsRead(v, "", lossy);
  }

  lemma LineHasNoNewline(m: Outgoing, lossy: Lossy)
    requires Sendable(m) && forall r :: '\n' !in lossy(r)
    ensures '\n' !in SendLine(m.kind, PayloadText(m, lossy))
  {
    if m.payload.Some? { TextNoNewline(m.payload.value, lossy); }
  }

  /** The wire round trip: any list of messages, written line after line and cut into any chunks, is
      delivered as exactly that list in that order, and nothing is left in the buffer. */
  lemma {:induction false} WireDelivers(ms: seq<Outgoing>, chunks: seq<string>, lossy: Lossy)
    requires forall i :: 0 <= i < |ms| ==> Sendable(ms[i])
    requires forall r :: '\n' !in lossy(r)
    requires Joined(chunks) == Wire(ms, lossy)
    ensures Feed("", chunks, lossy) == (Delivered(ms, lossy), "")
  {
    ChunkingIrrelevant("", chunks, lossy);
    assert "" + Wire(ms, lossy) == Wire(ms, lossy);
    WireLines(ms, lossy);
  }

  lemma {:induction false} WireLines(ms: seq<Outgoing>, lossy: Lossy)
    requires forall i :: 0 <= i < |ms| ==> Sendable(ms[i])
    requires forall r :: '\n' !in lossy(r)
    ensures DispatchAll(Lines(Wire(ms, lossy)), lossy) == Delivered(ms, lossy) && Tail(Wire(ms, lossy)) == ""
    decreases |ms|
  {
    if ms != [] {
      var line, rest := SendLine(ms[0].kind, PayloadText(ms[0], lossy)), Wire(ms[1..], lossy);
      LineHasNoNewline(ms[0], lossy);
      LinesOfLine(line, rest);
      MessageDelivered(ms[0], lossy);
      WireLines(ms[1..], lossy);
      DispatchFirst(line, Lines(rest), lossy);
    }
  }
}
