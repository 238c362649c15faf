/** Documents: JSON texts with every blank, escape and digit written out, and what they mean.

    The shape is that of RFC 8259 sections 2, 6 and 7, widened to exactly what the reader of
    runtime/src/Json.cpp lets through (numerals as strtod reads them, raw control characters in
    strings, `\u` escapes read loosely, repeated keys). */
module JsonGrammar {
  import opened JsonValue
  import opened JsonLexis

  /** One character of a string literal, as written. */
  datatype Piece = Raw(c: char) | Short(c: char) | Hex(digits: string)

  datatype Doc =
    | DNull(lead: string)
    | DBool(lead: string, b: bool)
    | DNumber(lead: string, digits: string)
    | DString(lead: string, pieces: seq<Piece>)
    | DArray(lead: string, items: seq<Item>, gap: string)
    | DObject(lead: string, members: seq<Member>, gap: string)

  /** An element and the blanks after it. */
  datatype Item = Item(doc: Doc, trail: string)

  /** A key with the blanks before it and before its colon, its value, and the blanks after that. */
  datatype Member = Member(lead: string, key: seq<Piece>, colon: string, doc: Doc, trail: string)

  predicate ValidPiece(p: Piece) {
    match p
    case Raw(c) => c != '"' && c != '\\'
    case Short(c) => ShortEscape(c).Some?
    case Hex(digits) => |digits| == 4
  }

  predicate ValidPieces(ps: seq<Piece>) {
    ps == [] || (ValidPiece(ps[0]) && ValidPieces(ps[1..]))
  }

  ghost predicate ValidDoc(d: Doc)
    decreases d
  {
    Blank(d.lead) &&
    match d
    case DNumber(_, digits) =>
      digits != "" && Numeral(digits).Some? && forall i :: 0 <= i < |digits| ==> NumChar(digits[i])
    case DString(_, pieces) => ValidPieces(pieces)
    case DArray(_, items, gap) =>
      Blank(gap) && (items != [] ==> gap == "") && ValidItems(items)
    case DObject(_, members, gap) =>
      Blank(gap) && (members != [] ==> gap == "") && ValidMembers(members)
    case _ => true
  }

  ghost predicate ValidItems(items: seq<Item>)
    decreases items
  {
    items == [] || (ValidDoc(items[0].doc) && Blank(items[0].trail) && ValidItems(items[1..]))
  }

  ghost predicate ValidMembers(members: seq<Member>)
    decreases members
  {
    members == [] || (ValidHead(members[0]) && ValidDoc(members[0].doc) && ValidMembers(members[1..]))
  }

  /** Everything in a member but its value. */
  ghost predicate ValidHead(m: Member) {
    Blank(m.lead) && ValidPieces(m.key) && Blank(m.colon) && Blank(m.trail)
  }

  // ---------- the text of a document ----------

  function PieceText(p: Piece): string {
    match p
    case Raw(c) => [c]
    case Short(c) => ['\\', c]
    case Hex(digits) => "\\u" + digits
  }

  function PiecesText(ps: seq<Piece>): string {
    if ps == [] then "" else PieceText(ps[0]) + PiecesText(ps[1..])
  }

  function Quoted(ps: seq<Piece>): string {
    "\"" + (PiecesText(ps) + "\"")
  }

  function Render(d: Doc): string
    decreases d, 1
  {
    d.lead + Token(d)
  }

  function Token(d: Doc): string
    decreases d, 0
  {
    match d
    case DNull(_) => "null"
    case DBool(_, b) => if b then "true" else "false"
    case DNumber(_, digits) => digits
    case DString(_, pieces) => Quoted(pieces)
    case DArray(_, items, gap) => "[" + (if items == [] then gap + "]" else RenderItems(items))
    case DObject(_, members, gap) => "{" + (if members == [] then gap + "}" else RenderMembers(members))
  }

  /** Everything after the opening bracket of a nonempty array. */
  function RenderItems(items: seq<Item>): string
    decreases items, 0
  {
    if items == [] then "]"
    else Render(items[0].doc) + (items[0].trail + (if |items| == 1 then "]" else "," + RenderItems(items[1..])))
  }

  function RenderMembers(members: seq<Member>): string
    decreases members, 0
  {
    if members == [] then "}"
    else
      MemberHead(members[0]) + (Render(members[0].doc) + (members[0].trail + (
        if |members| == 1 then "}" else "," + RenderMembers(members[1..]))))
  }

  function MemberHead(m: Member): string {
    m.lead + (Quoted(m.key) + (m.colon + ":"))
  }

  // ---------- the meaning of a document ----------

  function PieceChar(p: Piece): char
    requires ValidPiece(p)
  {
    match p
    case Raw(c) => c
    case Short(c) => ShortEscape(c).value
    case Hex(digits) => HexByte(digits)
  }

  ghost function Chars(ps: seq<Piece>): string
    requires ValidPieces(ps)
  {
    if ps == [] then "" else [PieceChar(ps[0])] + Chars(ps[1..])
  }

  ghost function Meaning(d: Doc): Value
    requires ValidDoc(d)
    decreases d, 1
  {
    match d
    case DNull(_) => Null
    case DBool(_, b) => Bool(b)
    case DNumber(_, digits) => Number(Numeral(digits).value)
    case DString(_, pieces) => String(Chars(pieces))
    case DArray(_, items, _) => Array(MeaningItems(items))
    case DObject(_, members, _) => Object(MeaningMembers(members, []))
  }

  ghost function MeaningItems(items: seq<Item>): seq<Value>
    requires ValidItems(items)
    decreases items, 0
  {
    if items == [] then [] else [Meaning(items[0].doc)] + MeaningItems(items[1..])
  }

  /** Members assigned one after the other, so the last of two equal keys wins. */
  ghost function MeaningMembers(members: seq<Member>, acc: Fields): Fields
    requires ValidMembers(members)
    decreases members, 0
  {
    if members == [] then acc
    else MeaningMembers(members[1..], Insert(acc, Chars(members[0].key), Meaning(members[0].doc)))
  }

  /** A number ends where its characters end, so what follows it may not start with one. */
  predicate Delimited(d: Doc, rest: string) {
    d.DNumber? ==> rest == [] || !NumChar(rest[0])
  }
}
