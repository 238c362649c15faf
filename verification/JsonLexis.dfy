/** The characters, numerals and escapes the JSON reader works on. */
module JsonLexis {
  import opened Wrappers

  /** `std::isspace` in the C locale. */
  predicate IsSpace(c: char) {
    c in {' ', '\t', '\n', '\r', '\U{0B}', '\U{0C}'}
  }

  ghost predicate Blank(s: string) {
    forall i :: 0 <= i < |s| ==> IsSpace(s[i])
  }

  /** `Cursor::SkipWhitespace`, on the text that is still ahead of the cursor. */
  function SkipWs(s: string): (r: string)
    ensures |r| <= |s| && (r == [] || !IsSpace(r[0]))
  {
    if s != [] && IsSpace(s[0]) then SkipWs(s[1..]) else s
  }

  /** What is skipped is blank, and what is left is the rest of the text. */
  lemma {:induction false} SkipWsSplits(s: string) returns (blank: string)
    ensures Blank(blank) && s == blank + SkipWs(s)
  {
    if s != [] && IsSpace(s[0]) {
      var inner := SkipWsSplits(s[1..]);
      blank := [s[0]] + inner;
      assert s == [s[0]] + s[1..];
    } else {
      blank := "";
      assert s == blank + s;
    }
  }

  lemma SkipIdempotent(s: string)
    ensures SkipWs(SkipWs(s)) == SkipWs(s)
  {
    var t := SkipWs(s);
    if t != "" { assert !IsSpace(t[0]); }
  }

  lemma {:induction false} SkipWsBlank(blank: string, s: string)
    requires Blank(blank) && (s == [] || !IsSpace(s[0]))
    ensures SkipWs(blank + s) == s
  {
    if blank == [] {
      assert blank + s == s;
    } else {
      assert (blank + s)[1..] == blank[1..] + s;
      SkipWsBlank(blank[1..], s);
    }
  }

  // ---------- numerals ----------

  predicate IsDigit(c: char) { '0' <= c <= '9' }

  /** The characters the number scanner walks over (runtime/src/Json.cpp:143). */
  predicate NumChar(c: char) {
    IsDigit(c) || c in {'.', 'e', 'E', '+', '-'}
  }

  /** The longest prefix made of number characters. */
  function NumRun(s: string): (r: string)
    ensures r <= s
    ensures forall i :: 0 <= i < |r| ==> NumChar(r[i])
    ensures |r| == |s| || !NumChar(s[|r|])
  {
    if s != [] && NumChar(s[0]) then [s[0]] + NumRun(s[1..]) else ""
  }

  function DigitRun(s: string): (r: string)
    ensures r <= s
    ensures forall i :: 0 <= i < |r| ==> IsDigit(r[i])
    ensures |r| == |s| || !IsDigit(s[|r|])
  {
    if s != [] && IsDigit(s[0]) then [s[0]] + DigitRun(s[1..]) else ""
  }

  function DigitValue(c: char): nat
    requires IsDigit(c)
  {
    c as int - '0' as int
  }

  /** The natural number a digit string denotes. */
  function NatValue(s: string): nat
    requires forall i :: 0 <= i < |s| ==> IsDigit(s[i])
  {
    if s == [] then 0 else 10 * NatValue(s[..|s| - 1]) + DigitValue(s[|s| - 1])
  }

  function Pow10(e: nat): (p: real)
    ensures p >= 1.0
  {
    if e == 0 then 1.0 else 10.0 * Pow10(e - 1)
  }

  function Unsigned(s: string): string {
    if s != [] && (s[0] == '-' || s[0] == '+') then s[1..] else s
  }

  /** The exponent part of a numeral, as a scale factor; None when it is not one. */
  function Scale(s: string): Option<real> {
    if s == [] then Some(1.0)
    else if s[0] != 'e' && s[0] != 'E' then None
    else
      var digits := Unsigned(s[1..]);
      if digits == [] || DigitRun(digits) != digits then None
      else if s[1] == '-' then Some(1.0 / Pow10(NatValue(digits)))
      else Some(Pow10(NatValue(digits)))
  }

  function Magnitude(whole: string, frac: string, scale: real): real
    requires forall i :: 0 <= i < |whole| ==> IsDigit(whole[i])
    requires forall i :: 0 <= i < |frac| ==> IsDigit(frac[i])
  {
    NatValue(whole + frac) as real / Pow10(|frac|) * scale
  }

  /** `strtod` on a whole text, over the reals: None when some of it is left unread. */
  function Numeral(s: string): Option<real> {
    var u := Unsigned(s);
    var whole := DigitRun(u);
    var afterWhole := u[|whole|..];
    var frac := if afterWhole != [] && afterWhole[0] == '.' then DigitRun(afterWhole[1..]) else "";
    var afterFrac := if afterWhole != [] && afterWhole[0] == '.' then afterWhole[1 + |frac|..] else afterWhole;
    if whole == [] && frac == [] then None
    else
      match Scale(afterFrac)
      case None => None
      case Some(scale) =>
        var magnitude := Magnitude(whole, frac, scale);
        Some(if s[0] == '-' then 0.0 - magnitude else magnitude)
  }

  /** `out << static_cast<long long>(d)`. */
  function NatText(n: nat): (s: string)
    ensures s != "" && forall i :: 0 <= i < |s| ==> IsDigit(s[i])
  {
    var last := ('0' as int + n % 10) as char;
    if n < 10 then [last] else NatText(n / 10) + [last]
  }

  function IntText(n: int): string {
    if n < 0 then "-" + NatText(-n) else NatText(n)
  }

  lemma {:induction false} NatTextValue(n: nat)
    ensures NatValue(NatText(n)) == n
  {
    if n >= 10 {
      NatTextValue(n / 10);
      var s := NatText(n);
      assert s[..|s| - 1] == NatText(n / 10);
    }
  }

  lemma {:induction false} DigitRunAll(s: string)
    requires forall i :: 0 <= i < |s| ==> IsDigit(s[i])
    ensures DigitRun(s) == s
  {
    if s != [] {
      DigitRunAll(s[1..]);
      assert s == [s[0]] + s[1..];
    }
  }

  lemma MagnitudeOfWhole(whole: string)
    requires forall i :: 0 <= i < |whole| ==> IsDigit(whole[i])
    ensures Magnitude(whole, "", 1.0) == NatValue(whole) as real
  {
    hide NatValue;
    assert whole + "" == whole;
    assert Pow10(0) == 1.0 && |""| == 0;
    assert NatValue(whole + "") as real / 1.0 * 1.0 == NatValue(whole) as real;
  }

  /** A sign or none, then digits only. */
  lemma WholeNumeral(s: string, u: string)
    requires s != "" && Unsigned(s) == u && u != "" && DigitRun(u) == u
    ensures Numeral(s) == Some(if s[0] == '-' then 0.0 - Magnitude(u, "", 1.0) else Magnitude(u, "", 1.0))
  {
    assert u[|u|..] == [];
    assert Scale([]) == Some(1.0);
  }

  /** A printed natural number, and one behind a minus. */
  lemma DigitsUnsigned(u: string)
    requires u != "" && IsDigit(u[0])
    ensures Unsigned(u) == u && u[0] != '-'
    ensures Unsigned("-" + u) == u && ("-" + u)[0] == '-'
  {
    assert ("-" + u)[1..] == u;
  }

  lemma DigitsNumeral(u: string)
    requires u != "" && forall i :: 0 <= i < |u| ==> IsDigit(u[i])
    ensures Numeral(u) == Some(NatValue(u) as real) && Numeral("-" + u) == Some(0.0 - NatValue(u) as real)
  {
    hide Numeral, Magnitude, Unsigned;
    DigitRunAll(u);
    DigitsUnsigned(u);
    MagnitudeOfWhole(u);
    WholeNumeral(u, u);
    WholeNumeral("-" + u, u);
  }

  /** Reading back a printed integer gives that integer. */
  lemma IntTextNumeral(n: int)
    ensures Numeral(IntText(n)) == Some(n as real)
    ensures IntText(n) != "" && forall i :: 0 <= i < |IntText(n)| ==> NumChar(IntText(n)[i])
  {
    var m := if n < 0 then -n else n;
    hide Numeral;
    NatTextValue(m);
    DigitsNumeral(NatText(m));
    assert n < 0 ==> 0.0 - m as real == n as real;
  }

  lemma {:induction false} NumRunExact(s: string, rest: string)
    requires forall i :: 0 <= i < |s| ==> NumChar(s[i])
    requires rest == [] || !NumChar(rest[0])
    ensures NumRun(s + rest) == s
  {
    if s == [] {
      assert s + rest == rest;
    } else {
      assert (s + rest)[1..] == s[1..] + rest;
      NumRunExact(s[1..], rest);
      assert s == [s[0]] + s[1..];
    }
  }

  // ---------- escapes ----------

  /** The characters allowed after a backslash, `u` aside, and what they stand for. */
  function ShortEscape(c: char): Option<char> {
    match c
    case '"' => Some('"')
    case '\\' => Some('\\')
    case '/' => Some('/')
    case 'n' => Some('\n')
    case 't' => Some('\t')
    case 'r' => Some('\r')
    case 'b' => Some('\U{08}')
    case 'f' => Some('\U{0C}')
    case _ => None
  }

  function HexDigit(c: char): Option<nat> {
    if IsDigit(c) then Some(c as int - '0' as int)
    else if 'a' <= c <= 'f' then Some(c as int - 'a' as int + 10)
    else if 'A' <= c <= 'F' then Some(c as int - 'A' as int + 10)
    else None
  }

  /** The digits `strtol(_, _, 16)` reads from here, folded into `acc`. */
  function HexValue(s: string, acc: nat): nat
    decreases |s|
  {
    if s == [] || HexDigit(s[0]).None? then acc
    else HexValue(s[1..], 16 * acc + HexDigit(s[0]).value)
  }

  /** `static_cast<char>(strtol(hex, nullptr, 16) & 0xFF)`: blanks, a sign and `0x` are accepted, junk ends the
      number. */
  function HexByte(hex: string): char {
    var t := SkipWs(hex);
    var u := Unsigned(t);
    var digits := if |u| >= 3 && u[0] == '0' && (u[1] == 'x' || u[1] == 'X') && HexDigit(u[2]).Some? then u[2..] else u;
    var n: int := HexValue(digits, 0);
    ((if t != [] && t[0] == '-' then -n else n) % 256) as char
  }
}
