/** The server's end of the wire: the same newline framing, with every complete line emitted as a message or
    as a protocol error (server/src/protocol.js). JavaScript's JSON and `trim` are parameters. */
module ServerFraming {
  import opened Wrappers
  import opened Framing

  /** `JSON.parse`: an error, or the message's type if it is a string, and its payload. */
  datatype Parsed = Malformed(reason: string) | Json(kind: Option<string>, payload: string)

  datatype Script = Script(isBlank: string -> bool, parse: string -> Parsed)

  datatype Emission = Received(kind: string, payload: string) | ProtocolError(reason: string)

  /** What one line emits: nothing when it is blank, otherwise exactly one event. */
  function Emitted(js: Script, line: string): seq<Emission> {
    if js.isBlank(line) then []
    else
      match js.parse(line)
      case Malformed(reason) => [ProtocolError("malformed JSON line: " + reason)]
      case Json(None, _) => [ProtocolError("message missing string 'type'")]
      case Json(Some(kind), payload) => [Received(kind, payload)]
  }

  /** A line that is not blank emits one event, a message exactly when it parses with a string for a type. */
  lemma EmittedExactly(js: Script, line: string)
    ensures |Emitted(js, line)| == if js.isBlank(line) then 0 else 1
    ensures forall kind, payload ::
      Received(kind, payload) in Emitted(js, line) <==>
        !js.isBlank(line) && js.parse(line) == Json(Some(kind), payload)
    ensures forall reason ::
      ProtocolError(reason) in Emitted(js, line) <==> !js.isBlank(line) && Complains(js.parse(line), reason)
  {
  }

  /** What is reported of a line that is no message. */
  predicate Complains(parsed: Parsed, reason: string) {
    match parsed
    case Malformed(why) => reason == "malformed JSON line: " + why
    case Json(kind, _) => kind.None? && reason == "message missing string 'type'"
  }

  function EmittedAll(js: Script, lines: seq<string>): seq<Emission> {
    if lines == [] then [] else Emitted(js, lines[0]) + EmittedAll(js, lines[1..])
  }

  lemma {:induction false} EmittedConcat(js: Script, a: seq<string>, b: seq<string>)
    ensures EmittedAll(js, a + b) == EmittedAll(js, a) + EmittedAll(js, b)
    decreases |a|
  {
    if a == [] {
      assert a + b == b;
    } else {
      assert (a + b)[1..] == a[1..] + b;
      EmittedConcat(js, a[1..], b);
    }
  }

  lemma NextEmitted(js: Script, s: string)
    requires |FirstLine(s)| < |s|
    ensures EmittedAll(js, Lines(s)) == Emitted(js, FirstLine(s)) + EmittedAll(js, Lines(s[|FirstLine(s)| + 1..]))
    ensures Tail(s) == Tail(s[|FirstLine(s)| + 1..]) && s[..|FirstLine(s)|] == FirstLine(s)
  {
    LinesStep(s);
    var rest := Lines(s[|FirstLine(s)| + 1..]);
    assert ([FirstLine(s)] + rest)[1..] == rest;
  }

  class MessageFramer {
    const js: Script
    var buffer: string
    var emitted: seq<Emission>

    constructor (js: Script)
      ensures this.js == js && buffer == "" && emitted == []
    {
      this.js, buffer, emitted := js, "", [];
    }

    /** One `data` event. */
    method OnData(chunk: string)
      modifies this
      ensures buffer == Tail(old(buffer) + chunk)
      ensures emitted == old(emitted) + EmittedAll(js, Lines(old(buffer) + chunk))
    {
      buffer := buffer + chunk;
      ghost var all := EmittedAll(js, Lines(buffer));
      var newlineIndex := |FirstLine(buffer)|;
      while newlineIndex < |buffer|
        invariant newlineIndex == |FirstLine(buffer)|
        invariant emitted + EmittedAll(js, Lines(buffer)) == old(emitted) + all
        invariant Tail(buffer) == Tail(old(buffer) + chunk)
        decreases |buffer|
      {
        NextEmitted(js, buffer);
        var line := buffer[..newlineIndex];
        buffer := buffer[newlineIndex + 1..];
        Assoc(emitted, Emitted(js, line), EmittedAll(js, Lines(buffer)));
        EmitLine(line);
        newlineIndex := |FirstLine(buffer)|;
      }
      assert emitted + [] == emitted;
    }

    method EmitLine(line: string)
      modifies this`emitted
      ensures emitted == old(emitted) + Emitted(js, line)
    {
      if js.isBlank(line) { return; }
      var message := js.parse(line);
      if message.Malformed? {
        emitted := emitted + [ProtocolError("malformed JSON line: " + message.reason)];
      } else if message.kind.None? {
        emitted := emitted + [ProtocolError("message missing string 'type'")];
      } else {
        emitted := emitted + [Received(message.kind.value, message.payload)];
      }
    }
  }

  /** What a run of `data` events emits and leaves in the buffer. */
  function Fed(js: Script, buffer: string, chunks: seq<string>): (seq<Emission>, string)
    decreases |chunks|
  {
    if chunks == [] then ([], buffer)
    else
      var (later, rest) := Fed(js, Tail(buffer + chunks[0]), chunks[1..]);
      (EmittedAll(js, Lines(buffer + chunks[0])) + later, rest)
  }

  /** However the client's bytes are cut into chunks, the same events are emitted in the same order, and the
      same unfinished line, without a newline in it, stays behind. */
  lemma {:induction false} ServerChunkingIrrelevant(js: Script, buffer: string, chunks: seq<string>)
    requires '\n' !in buffer
    ensures Fed(js, buffer, chunks) == (EmittedAll(js, Lines(buffer + Joined(chunks))), Tail(buffer + Joined(chunks)))
    decreases |chunks|
  {
    if chunks == [] {
      assert buffer + "" == buffer;
      TailWhole(buffer);
    } else {
      var s, rest := buffer + chunks[0], Joined(chunks[1..]);
      ServerChunkingIrrelevant(js, Tail(s), chunks[1..]);
      CutAnywhere(s, rest);
      Assoc(buffer, chunks[0], rest);
      EmittedConcat(js, Lines(s), Lines(Tail(s) + rest));
    }
  }

  /** A malformed line costs exactly itself: the lines before and after it are emitted as if it were alone. */
  lemma LinesStandAlone(js: Script, before: string, line: string, after: string)
    requires '\n' !in line && Tail(before) == ""
    ensures EmittedAll(js, Lines(before + (line + ("\n" + after)))) ==
      EmittedAll(js, Lines(before)) + (Emitted(js, line) + EmittedAll(js, Lines(after)))
  {
    CutAnywhere(before, line + ("\n" + after));
    assert "" + (line + ("\n" + after)) == line + ("\n" + after);
    LinesOfLine(line, after);
    assert ([line] + Lines(after))[1..] == Lines(after);
    EmittedConcat(js, Lines(before), [line] + Lines(after));
  }
}
