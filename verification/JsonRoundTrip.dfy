/** Printing is one way of writing a document, so reading undoes it. */
module JsonRoundTrip {
  import opened Wrappers
  import opened JsonValue
  import opened JsonLexis
  import opened JsonPrinter
  import opened JsonGrammar
  import opened JsonParser
  import opened JsonExact

  function CompactPiece(c: char): Piece {
    match c
    case '"' => Short('"')
    case '\\' => Short('\\')
    case '\n' => Short('n')
    case '\t' => Short('t')
    case '\r' => Short('r')
    case _ => Raw(c)
  }

  function CompactPieces(s: string): seq<Piece> {
    if s == [] then [] else [CompactPiece(s[0])] + CompactPieces(s[1..])
  }

  /** The document the printer writes for a value. */
  function Compact(v: Value): Doc
    decreases v, 1
  {
    match v
    case Null => DNull("")
    case Bool(b) => DBool("", b)
    case Number(n) => DNumber("", IntText(n.Floor))
    case String(s) => DString("", CompactPieces(s))
    case Array(items) => DArray("", CompactItems(items), "")
    case Object(fields) => DObject("", CompactMembers(fields), "")
  }

  function CompactItems(items: seq<Value>): seq<Item>
    decreases items, 0
  {
    if items == [] then [] else [Item(Compact(items[0]), "")] + CompactItems(items[1..])
  }

  function CompactMembers(fields: Fields): seq<Member>
    decreases fields, 0
  {
    if fields == [] then []
    else [Member("", CompactPieces(fields[0].key), "", Compact(fields[0].value), "")] + CompactMembers(fields[1..])
  }

  lemma {:induction false} EscapeIsPieces(s: string)
    ensures ValidPieces(CompactPieces(s)) && Chars(CompactPieces(s)) == s && PiecesText(CompactPieces(s)) == Escape(s)
  {
    if s != [] {
      EscapeIsPieces(s[1..]);
      assert CompactPieces(s)[1..] == CompactPieces(s[1..]);
      assert s == [s[0]] + s[1..];
    }
  }

  /** Printing a value is rendering its compact document, which means that value. */
  lemma {:induction false} CompactIsText(v: Value, lossy: Lossy)
    requires WellFormed(v) && Exact(v)
    ensures ValidDoc(Compact(v)) && Meaning(Compact(v)) == v && Render(Compact(v)) == Text(v, lossy)
    decreases v, 1
  {
    match v {
      case Number(_) => CompactNumber(v, lossy);
      case String(_) => CompactString(v, lossy);
      case Array(_) => CompactArray(v, lossy);
      case Object(_) => CompactObject(v, lossy);
      case _ =>
    }
  }

  lemma CompactNumber(v: Value, lossy: Lossy)
    requires v.Number? && Exact(v)
    ensures ValidDoc(Compact(v)) && Meaning(Compact(v)) == v && Render(Compact(v)) == Text(v, lossy)
  {
    var s := IntText(v.number.Floor);
    IntTextNumeral(v.number.Floor);
    assert "" + s == s;
  }

  lemma CompactString(v: Value, lossy: Lossy)
    requires v.String?
    ensures ValidDoc(Compact(v)) && Meaning(Compact(v)) == v && Render(Compact(v)) == Text(v, lossy)
  {
    EscapeIsPieces(v.text);
    assert Quoted(CompactPieces(v.text)) == Text(v, lossy);
  }

  lemma {:induction false} CompactArray(v: Value, lossy: Lossy)
    requires v.Array? && WellFormed(v) && Exact(v)
    ensures ValidDoc(Compact(v)) && Meaning(Compact(v)) == v && Render(Compact(v)) == Text(v, lossy)
    decreases v, 0
  {
    hide RenderItems, ItemsText, CompactItems, MeaningItems, ValidItems;
    CompactItemsText(v.items, lossy);
    NoItems(lossy);
    Assoc("[", ItemsText(v.items, lossy), "]");
    assert Token(Compact(v)) == Text(v, lossy);
    assert "" + Token(Compact(v)) == Token(Compact(v));
  }

  lemma NoItems(lossy: Lossy)
    ensures RenderItems([]) == "]" && ItemsText([], lossy) == ""
  {
  }

  lemma {:induction false} CompactObject(v: Value, lossy: Lossy)
    requires v.Object? && WellFormed(v) && Exact(v)
    ensures ValidDoc(Compact(v)) && Meaning(Compact(v)) == v && Render(Compact(v)) == Text(v, lossy)
    decreases v, 0
  {
    hide RenderMembers, FieldsText, CompactMembers, MeaningMembers, ValidMembers;
    assert [] + v.fields == v.fields;
    CompactMembersText(v.fields, [], lossy);
    NoMembers(lossy);
    Assoc("{", FieldsText(v.fields, lossy), "}");
    assert Token(Compact(v)) == Text(v, lossy);
    assert "" + Token(Compact(v)) == Token(Compact(v));
  }

  lemma NoMembers(lossy: Lossy)
    ensures RenderMembers([]) == "}" && FieldsText([], lossy) == ""
  {
  }

  lemma {:induction false} CompactItemsText(items: seq<Value>, lossy: Lossy)
    requires forall i :: 0 <= i < |items| ==> WellFormed(items[i]) && Exact(items[i])
    ensures ValidItems(CompactItems(items)) && MeaningItems(CompactItems(items)) == items
    ensures |CompactItems(items)| == |items| && RenderItems(CompactItems(items)) == ItemsText(items, lossy) + "]"
    decreases items, 0
  {
    if items != [] {
      CompactIsText(items[0], lossy);
      CompactItemsText(items[1..], lossy);
      var docs := CompactItems(items);
      assert docs[0] == Item(Compact(items[0]), "") && docs[1..] == CompactItems(items[1..]);
      assert items == [items[0]] + items[1..];
      ItemRender(Text(items[0], lossy), ItemsText(items[1..], lossy), |items| == 1);
    }
  }

  lemma ItemRender(text: string, more: string, last: bool)
    ensures text + ("" + (if last then "]" else "," + (more + "]"))) == text + (if last then "" else "," + more) + "]"
  {
  }

  lemma {:induction false} CompactMembersText(fields: Fields, before: Fields, lossy: Lossy)
    requires Sorted(before + fields)
    requires forall i :: 0 <= i < |fields| ==> WellFormed(fields[i].value) && Exact(fields[i].value)
    ensures ValidMembers(CompactMembers(fields)) && MeaningMembers(CompactMembers(fields), before) == before + fields
    ensures |CompactMembers(fields)| == |fields|
      && RenderMembers(CompactMembers(fields)) == FieldsText(fields, lossy) + "}"
    decreases fields, 0
  {
    if fields == [] {
      assert before + [] == before;
    } else {
      var f, tail := fields[0], fields[1..];
      CompactIsText(f.value, lossy);
      EscapeIsPieces(f.key);
      AppendNext(before, fields);
      CompactMembersText(tail, before + [f], lossy);
      var docs := CompactMembers(fields);
      assert docs[1..] == CompactMembers(tail);
      MemberRender(f, FieldsText(tail, lossy), |fields| == 1, lossy);
    }
  }

  /** The next field of a sorted map goes to the end of those already read. */
  lemma AppendNext(before: Fields, fields: Fields)
    requires Sorted(before + fields) && fields != []
    ensures Insert(before, fields[0].key, fields[0].value) == before + [fields[0]]
    ensures before + [fields[0]] + fields[1..] == before + fields
  {
    var all := before + fields;
    assert forall i :: 0 <= i < |before| ==> all[i] == before[i];
    assert all[|before|] == fields[0];
    InsertAtEnd(before, fields[0].key, fields[0].value);
  }

  /** One printed field and what follows it, regrouped. */
  lemma MemberRender(f: Field, more: string, last: bool, lossy: Lossy)
    requires PiecesText(CompactPieces(f.key)) == Escape(f.key) && Render(Compact(f.value)) == Text(f.value, lossy)
    ensures var m := Member("", CompactPieces(f.key), "", Compact(f.value), "");
      MemberHead(m) + (Render(m.doc) + (m.trail + (if last then "}" else "," + (more + "}")))) ==
      FieldText(f, lossy) + (if last then "" else "," + more) + "}"
  {
    hide Escape, PiecesText, CompactPieces, Render, Compact, Text;
    Regrouped(Escape(f.key), Text(f.value, lossy), if last then "" else "," + more);
    assert last || "," + (more + "}") == ("," + more) + "}";
  }

  lemma Regrouped(key: string, value: string, tail: string)
    ensures "" + (("\"" + (key + "\"")) + ("" + ":")) + (value + ("" + (tail + "}"))) ==
      (("\"" + key + "\":") + value) + tail + "}"
  {
  }

  /** The round trip, for whatever follows the printed value: for a number, anything that is not one more
      number character; nothing at all is asked otherwise. */
  lemma PrintedIsRead(v: Value, rest: string, lossy: Lossy)
    requires WellFormed(v) && Exact(v)
    requires v.Number? && rest != [] ==> !NumChar(rest[0])
    ensures ParseValue(Text(v, lossy) + rest) == Ok(v, rest)
  {
    CompactIsText(v, lossy);
    DocComplete(Compact(v), rest);
  }

  /** Two values that print alike are equal: nothing is lost in the text. */
  lemma PrintInjective(v: Value, w: Value, lossy: Lossy)
    requires WellFormed(v) && Exact(v) && WellFormed(w) && Exact(w)
    requires Text(v, lossy) == Text(w, lossy)
    ensures v == w
  {
    PrintedIsRead(v, "", lossy);
    PrintedIsRead(w, "", lossy);
  }

  // ---------- no raw newline ----------

  lemma {:induction false} EscapeNoNewline(s: string)
    ensures '\n' !in Escape(s)
  {
    if s != [] { EscapeNoNewline(s[1..]); }
  }

  /** A printed value is a single line, so it can travel in a newline-delimited stream. */
  lemma {:induction false} TextNoNewline(v: Value, lossy: Lossy)
    requires forall r :: '\n' !in lossy(r)
    ensures '\n' !in Text(v, lossy)
    decreases v, 1
  {
    match v {
      case Number(n) => IntTextNumeral(n.Floor);
      case String(s) => EscapeNoNewline(s);
      case Array(items) => ItemsNoNewline(items, lossy);
      case Object(fields) => FieldsNoNewline(fields, lossy);
      case _ =>
    }
  }

  lemma {:induction false} ItemsNoNewline(items: seq<Value>, lossy: Lossy)
    requires forall r :: '\n' !in lossy(r)
    ensures '\n' !in ItemsText(items, lossy)
    decreases items, 0
  {
    if items != [] {
      TextNoNewline(items[0], lossy);
      ItemsNoNewline(items[1..], lossy);
    }
  }

  lemma {:induction false} FieldsNoNewline(fields: Fields, lossy: Lossy)
    requires forall r :: '\n' !in lossy(r)
    ensures '\n' !in FieldsText(fields, lossy)
    decreases fields, 0
  {
    if fields != [] {
      EscapeNoNewline(fields[0].key);
      TextNoNewline(fields[0].value, lossy);
      FieldsNoNewline(fields[1..], lossy);
    }
  }
}
