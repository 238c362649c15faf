/** The characters of JSON texts one by one: blanks, escapes and their bytes, and what the printer writes for them
    (runtime/src/Json.cpp:17-71 and 155-209). */
module JsonCharacters {
  import opened Wrappers
  import opened JsonValue
  import opened JsonLexis
  import opened JsonPrinter

  /** Space, and the five control characters from tab to carriage return. */
  lemma BlankExactly(c: char)
    ensures IsSpace(c) <==> c as int == 32 || 9 <= c as int <= 13
  {
  }

  // ---------- escapes ----------

  /** The code point each escape letter stands for (section 7 of RFC 8259). */
  const ESCAPED: map<char, int> := map['"' := 34, '\\' := 92, '/' := 47, 'b' := 8, 'f' := 12, 'n' := 10, 'r' := 13,
    't' := 9]

  lemma EscapeExactly(c: char)
    ensures ShortEscape(c).Some? <==> c in ESCAPED
    ensures c in ESCAPED ==> ShortEscape(c).value as int == ESCAPED[c]
  {
  }

  /** The printer escapes five characters, each by the letter that is read back as it, and nothing else. */
  lemma PrintedExactly(c: char)
    ensures EscapeChar(c) == [c] <==> c as int !in {34, 92, 10, 13, 9}
    ensures EscapeChar(c) != [c] ==>
      |EscapeChar(c)| == 2 && EscapeChar(c)[0] == '\\' && ShortEscape(EscapeChar(c)[1]) == Some(c)
  {
  }

  // ---------- \\u escapes ----------

  const LOWER := "0123456789abcdef"
  const UPPER := "0123456789ABCDEF"

  lemma HexDigitExactly(c: char, h: nat)
    ensures HexDigit(c) == Some(h) <==> h < 16 && (LOWER[h] == c || UPPER[h] == c)
  {
    if h < 10 {
      assert LOWER[h] == UPPER[h] == ('0' as int + h) as char;
    } else if h < 16 {
      assert LOWER[h] == ('a' as int + h - 10) as char && UPPER[h] == ('A' as int + h - 10) as char;
    }
  }

  ghost predicate Hex(s: string) { forall i :: 0 <= i < |s| ==> HexDigit(s[i]).Some? }

  /** The number hex digits denote, last digit last. */
  ghost function HexNat(s: string): nat
    requires Hex(s)
  {
    if s == "" then 0 else 16 * HexNat(s[..|s| - 1]) + HexDigit(s[|s| - 1]).value
  }

  /** Junk ends the digits. */
  predicate EndsHex(junk: string) { junk == "" || HexDigit(junk[0]).None? }

  /** Digit by digit, from the front or from the back. */
  lemma {:induction false} HexFolds(s: string, rest: string)
    requires Hex(s)
    ensures HexValue(s + rest, 0) == HexValue(rest, HexNat(s))
    decreases |s|
  {
    hide HexDigit;
    if s == "" {
      assert s + rest == rest;
    } else {
      var most, last := s[..|s| - 1], s[|s| - 1];
      assert s + rest == most + ([last] + rest);
      assert ([last] + rest)[1..] == rest;
      HexFolds(most, [last] + rest);
    }
  }

  /** Whatever may stand in front of the digits: blanks, a sign, `0x`. */
  predicate Sign(s: string) { s == "" || s == "+" || s == "-" }

  /** The byte behind a `\\u` is the low byte of the number, or of its negative. */
  lemma HexByteExactly(blank: string, sign: string, prefix: string, digits: string, junk: string)
    requires Blank(blank) && Sign(sign) && Hex(digits) && digits != "" && EndsHex(junk)
    requires prefix == "" || prefix == "0x" || prefix == "0X"
    requires prefix == "" ==> !(digits == "0" && |junk| >= 2 && junk[0] in {'x', 'X'} && HexDigit(junk[1]).Some?)
    ensures HexByte(blank + (sign + (prefix + (digits + junk)))) ==
      (if sign == "-" then (0 - HexNat(digits)) % 256 else HexNat(digits) % 256) as char
  {
    hide HexValue, HexDigit, HexNat;
    var body := digits + junk;
    var u := prefix + body;
    var t := sign + u;
    assert body[0] == digits[0];
    assert u[0] == if prefix == "" then digits[0] else '0';
    HexDigitIs(digits[0]);
    assert !IsSpace(u[0]) && u[0] != '-' && u[0] != '+';
    assert sign == "" ==> t == u;
    assert sign != "" ==> t[0] == sign[0] && t[1..] == u;
    SkipWsBlank(blank, t);
    HexFolds(digits, junk);
    JunkEnds(junk, HexNat(digits));
    if prefix == "" {
      assert u == body;
      NotPrefixed(digits, junk);
    } else {
      assert u[2..] == body && u[0] == '0' && u[1] == prefix[1] && u[2] == digits[0];
    }
  }

  lemma JunkEnds(junk: string, acc: nat)
    requires EndsHex(junk)
    ensures HexValue(junk, acc) == acc
  {
  }

  lemma HexDigitIs(c: char)
    ensures HexDigit(c).Some? ==> !IsSpace(c) && c != '-' && c != '+'
    ensures HexDigit('0').Some?
  {
  }

  lemma NotPrefixed(digits: string, junk: string)
    requires Hex(digits) && digits != "" && EndsHex(junk)
    requires !(digits == "0" && |junk| >= 2 && junk[0] in {'x', 'X'} && HexDigit(junk[1]).Some?)
    ensures var u := digits + junk;
      !(|u| >= 3 && u[0] == '0' && (u[1] == 'x' || u[1] == 'X') && HexDigit(u[2]).Some?)
  {
    var u := digits + junk;
    if |digits| > 1 {
      assert u[1] == digits[1];
    } else {
      assert |junk| > 0 ==> u[1] == junk[0];
      assert |junk| > 1 ==> u[2] == junk[1];
    }
  }

  /** Four hex digits: the last two of them are the byte. */
  lemma FourDigits(s: string)
    requires |s| == 4 && Hex(s)
    ensures HexByte(s) as int == 16 * HexDigit(s[2]).value + HexDigit(s[3]).value
  {
    hide HexDigit, HexByte;
    HexByteExactly("", "", "", s, "");
    assert "" + ("" + ("" + (s + ""))) == s;
    LastDigit(s);
    LastDigit(s[..3]);
    HexDigitBounds(s[2]);
    HexDigitBounds(s[3]);
  }

  lemma LastDigit(s: string)
    requires Hex(s) && s != ""
    ensures HexNat(s) == 16 * HexNat(s[..|s| - 1]) + HexDigit(s[|s| - 1]).value
  {
  }

  lemma HexDigitBounds(c: char)
    ensures HexDigit(c).Some? ==> HexDigit(c).value < 16
  {
  }

  // ---------- printed numbers ----------

  /** Integers that fit 64 bits are printed digit by digit; any other number goes through the stream's formatting. */
  lemma NumberPrinted(n: real, lossy: Lossy)
    ensures Text(Number(n), lossy) ==
      if n == n.Floor as real && -0x8000_0000_0000_0000 <= n.Floor <= 0x7FFF_FFFF_FFFF_FFFF
      then (if n.Floor < 0 then "-" + NatText(-n.Floor) else NatText(n.Floor)) else lossy(n)
  {
  }
}
