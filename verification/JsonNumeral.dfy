/** What a numeral is worth, said without reading it: sign, digits, fraction and exponent written out, and their value
    by multiplication (runtime/src/Json.cpp:141-152). */
module JsonNumeral {
  import opened Wrappers
  import opened JsonValue
  import opened JsonLexis
  import opened JsonGrammar
  import opened JsonParser
  import opened JsonExact

  // ---------- digits ----------

  ghost predicate Digits(s: string) { forall i :: 0 <= i < |s| ==> IsDigit(s[i]) }

  function Zeros(n: nat): (s: string)
    ensures |s| == n && forall i :: 0 <= i < n ==> s[i] == '0'
  {
    seq(n, _ => '0')
  }

  /** The digits print n, leading zeros aside. */
  ghost predicate Prints(s: string, n: nat) { exists k: nat :: s == Zeros(k) + NatText(n) }

  lemma NoLeadingZero(n: nat)
    ensures |NatText(n)| > 1 ==> NatText(n)[0] != '0'
    ensures n >= 10 ==> |NatText(n)| > 1
  {
    if n >= 100 {
      NoLeadingZero(n / 10);
      assert NatText(n)[0] == NatText(n / 10)[0];
    }
  }

  lemma NatTextDigits(n: nat)
    ensures Digits(NatText(n))
  {
  }

  lemma AppendDigit(s: string, c: char)
    requires Digits(s) && IsDigit(c)
    ensures Digits(s + [c]) && NatValue(s + [c]) == 10 * NatValue(s) + DigitValue(c)
  {
    assert (s + [c])[..|s|] == s;
  }

  /** Every nonempty string of digits prints exactly one number, its value. */
  lemma {:induction false} DigitsPrint(s: string)
    requires Digits(s) && s != ""
    ensures Prints(s, NatValue(s))
    decreases |s|
  {
    hide NatText;
    var most, last := s[..|s| - 1], s[|s| - 1];
    assert s == most + [last];
    if most == "" {
      OneDigit(last);
      assert Zeros(0) + [last] == s;
    } else {
      DigitsPrint(most);
      var k: nat :| most == Zeros(k) + NatText(NatValue(most));
      OneMoreDigit(k, NatValue(most), last);
    }
  }

  lemma OneDigit(c: char)
    requires IsDigit(c)
    ensures NatValue([c]) == DigitValue(c) && NatText(DigitValue(c)) == [c]
  {
    assert [c][..0] == "" && c == ('0' as int + DigitValue(c)) as char;
  }

  lemma OneMoreDigit(k: nat, n: nat, c: char)
    requires IsDigit(c)
    ensures Prints(Zeros(k) + NatText(n) + [c], 10 * n + DigitValue(c))
  {
    var m := 10 * n + DigitValue(c);
    assert c == ('0' as int + DigitValue(c)) as char && m / 10 == n && m % 10 == DigitValue(c);
    if n == 0 {
      assert Zeros(k) + "0" == Zeros(k + 1);
      assert Zeros(k) + NatText(0) + [c] == Zeros(k + 1) + NatText(m);
    } else {
      assert NatText(m) == NatText(n) + [c];
      assert Zeros(k) + NatText(n) + [c] == Zeros(k) + NatText(m);
    }
  }

  lemma {:induction false} ZerosValue(k: nat, s: string)
    requires Digits(s)
    ensures Digits(Zeros(k) + s) && NatValue(Zeros(k) + s) == NatValue(s)
    decreases |s|, k
  {
    if s == "" {
      assert Zeros(k) + s == Zeros(k);
      if k > 0 {
        assert Zeros(k) == Zeros(k - 1) + "0" && Zeros(k - 1) + "" == Zeros(k - 1);
        ZerosValue(k - 1, "");
        AppendDigit(Zeros(k - 1), '0');
      }
    } else {
      var most, last := s[..|s| - 1], s[|s| - 1];
      ZerosValue(k, most);
      assert Zeros(k) + s == (Zeros(k) + most) + [last];
      AppendDigit(Zeros(k) + most, last);
    }
  }

  lemma PrintsExactly(s: string, n: nat)
    requires Digits(s) && s != ""
    ensures Prints(s, n) <==> NatValue(s) == n
  {
    DigitsPrint(s);
    if Prints(s, n) {
      var k: nat :| s == Zeros(k) + NatText(n);
      NatTextDigits(n);
      ZerosValue(k, NatText(n));
      NatTextValue(n);
    }
  }

  /** A power of ten is a one and so many zeros. */
  lemma {:induction false} PowerOfTen(k: nat)
    ensures Digits("1" + Zeros(k)) && Pow10(k) == NatValue("1" + Zeros(k)) as real
  {
    if k == 0 {
      assert "1" + Zeros(0) == "1" && "1"[..0] == "";
    } else {
      PowerOfTen(k - 1);
      assert "1" + Zeros(k) == ("1" + Zeros(k - 1)) + "0";
      AppendDigit("1" + Zeros(k - 1), '0');
    }
  }

  // ---------- numerals as they are written ----------

  datatype Exponent = Exponent(letter: char, sign: string, digits: string)

  datatype Written = Written(sign: string, whole: string, point: bool, frac: string, exponent: Option<Exponent>)

  predicate ValidSign(s: string) { s == "" || s == "+" || s == "-" }

  ghost predicate ValidExponent(x: Option<Exponent>) {
    x.Some? ==>
      x.value.letter in {'e', 'E'} && ValidSign(x.value.sign) && Digits(x.value.digits) && x.value.digits != ""
  }

  /** Digits before the point or after it, or both; a point may end the numeral or begin it. */
  ghost predicate Valid(n: Written) {
    && ValidSign(n.sign) && Digits(n.whole) && Digits(n.frac) && n.whole + n.frac != "" && (!n.point ==> n.frac == "")
    && ValidExponent(n.exponent)
  }

  function ExponentText(x: Option<Exponent>): string {
    match x case None => "" case Some(e) => [e.letter] + (e.sign + e.digits)
  }

  /** What comes behind the digits of the whole part. */
  function TailText(n: Written): string { (if n.point then "." + n.frac else "") + ExponentText(n.exponent) }

  function BodyText(n: Written): string { n.whole + TailText(n) }

  function TextOf(n: Written): string { n.sign + BodyText(n) }

  /** v times ten to the number of digits behind the point is what all the digits print, times ten to the exponent;
      a negative exponent counts on the other side. */
  ghost predicate IsWorth(n: Written, v: real)
    requires Valid(n)
  {
    var digits := SignedDigits(n);
    match n.exponent
    case None => v * Pow10(|n.frac|) == digits
    case Some(e) =>
      if e.sign == "-" then v * Pow10(|n.frac|) * Pow10(NatValue(e.digits)) == digits
      else v * Pow10(|n.frac|) == digits * Pow10(NatValue(e.digits))
  }

  ghost function SignedDigits(n: Written): real
    requires Valid(n)
  {
    var digits := NatValue(n.whole + n.frac) as real;
    if n.sign == "-" then 0.0 - digits else digits
  }

  ghost predicate IsNumeral(n: Written, s: string, v: real) { Valid(n) && s == TextOf(n) && IsWorth(n, v) }

  // ---------- reading one ----------

  lemma {:induction false} DigitRunExact(s: string, rest: string)
    requires Digits(s) && (rest == "" || !IsDigit(rest[0]))
    ensures DigitRun(s + rest) == s
    decreases |s|
  {
    if s == "" {
      assert s + rest == rest;
    } else {
      assert (s + rest)[1..] == s[1..] + rest;
      DigitRunExact(s[1..], rest);
      assert s == [s[0]] + s[1..];
    }
  }

  lemma UnsignedExact(sign: string, body: string)
    requires ValidSign(sign) && body != "" && body[0] != '+' && body[0] != '-'
    ensures Unsigned(sign + body) == body && ((sign + body)[0] == '-' <==> sign == "-")
  {
    if sign == "" {
      assert sign + body == body;
    } else {
      assert (sign + body)[1..] == body && (sign + body)[0] == sign[0];
    }
  }

  /** The factor an exponent stands for. */
  ghost function Factor(x: Option<Exponent>): real
    requires ValidExponent(x)
  {
    match x
    case None => 1.0
    case Some(e) => if e.sign == "-" then 1.0 / Pow10(NatValue(e.digits)) else Pow10(NatValue(e.digits))
  }

  lemma ScaleExact(x: Option<Exponent>)
    requires ValidExponent(x)
    ensures Scale(ExponentText(x)) == Some(Factor(x))
  {
    if x.Some? {
      var e := x.value;
      var s := ExponentText(x);
      assert s[1..] == e.sign + e.digits;
      assert e.digits[0] != '+' && e.digits[0] != '-' by { assert IsDigit(e.digits[0]); }
      UnsignedExact(e.sign, e.digits);
      DigitRunAll(e.digits);
      assert s[1] == (e.sign + e.digits)[0];
    }
  }

  lemma TailStart(n: Written)
    requires Valid(n)
    ensures TailText(n) == "" || !IsDigit(TailText(n)[0])
    ensures TailText(n) != "" ==> (TailText(n)[0] == '.' <==> n.point)
    ensures n.point ==> TailText(n) != "" && TailText(n)[1..] == n.frac + ExponentText(n.exponent)
    ensures ExponentText(n.exponent) == "" || !IsDigit(ExponentText(n.exponent)[0])
    ensures BodyText(n) != "" && BodyText(n)[0] != '+' && BodyText(n)[0] != '-'
  {
    assert !n.point ==> TailText(n) == ExponentText(n.exponent);
    if n.whole != "" {
      assert BodyText(n)[0] == n.whole[0] && IsDigit(n.whole[0]);
    } else {
      assert BodyText(n) == TailText(n);
    }
  }

  /** The value the reader computes. */
  ghost function Computed(n: Written): real
    requires Valid(n)
  {
    var m := Magnitude(n.whole, n.frac, Factor(n.exponent));
    if n.sign == "-" then 0.0 - m else m
  }

  lemma ReadsAsComputed(n: Written)
    requires Valid(n)
    ensures Numeral(TextOf(n)) == Some(Computed(n))
  {
    hide Magnitude, Scale, Factor, DigitRun;
    var u, tail := BodyText(n), TailText(n);
    TailStart(n);
    UnsignedExact(n.sign, u);
    DigitRunExact(n.whole, tail);
    assert u[|n.whole|..] == tail;
    ScaleExact(n.exponent);
    if n.point {
      DigitRunExact(n.frac, ExponentText(n.exponent));
      assert tail[1 + |n.frac|..] == ExponentText(n.exponent) by {
        assert tail[1..][|n.frac|..] == ExponentText(n.exponent);
      }
    } else {
      assert tail == ExponentText(n.exponent);
    }
    assert n.whole != "" || n.frac != "";
  }

  // ---------- its value ----------

  lemma Scaled(digits: real, p: real, q: real)
    requires p >= 1.0 && q >= 1.0
    ensures digits / p * 1.0 * p == digits && digits / p * q * p == digits * q
    ensures digits / p * (1.0 / q) * p * q == digits
  {
    var d := digits / p;
    assert d * p == digits;
    assert d * q * p == d * p * q;
    assert 1.0 / q * q == 1.0;
    assert d * (1.0 / q) * p * q == d * p * (1.0 / q * q);
  }

  lemma Negated(v: real, p: real, q: real)
    ensures (0.0 - v) * p == 0.0 - v * p && (0.0 - v) * p * q == 0.0 - v * p * q
  {
  }

  lemma ComputedIsWorth(n: Written)
    requires Valid(n)
    ensures IsWorth(n, Computed(n))
  {
    hide Pow10, NatValue;
    var digits, p := NatValue(n.whole + n.frac) as real, Pow10(|n.frac|);
    var q := if n.exponent.Some? then Pow10(NatValue(n.exponent.value.digits)) else 1.0;
    var m := Magnitude(n.whole, n.frac, Factor(n.exponent));
    Scaled(digits, p, q);
    Negated(m, p, q);
    Negated(digits, q, 1.0);
  }

  lemma WorthUnique(n: Written, v: real, w: real)
    requires Valid(n) && IsWorth(n, v) && IsWorth(n, w)
    ensures v == w
  {
    hide Pow10, NatValue;
    var p := Pow10(|n.frac|);
    match n.exponent
    case None => SameFactor(v, w, p);
    case Some(e) =>
      if e.sign == "-" { SameFactor(v * p, w * p, Pow10(NatValue(e.digits))); }
      SameFactor(v, w, p);
  }

  lemma SameFactor(v: real, w: real, p: real)
    requires p >= 1.0 && v * p == w * p
    ensures v == w
  {
    assert (v - w) * p == 0.0;
  }

  // ---------- and back ----------

  lemma SignOf(s: string) returns (sign: string)
    requires s != ""
    ensures ValidSign(sign) && s == sign + Unsigned(s) && (s[0] == '-' <==> sign == "-")
  {
    if s[0] == '-' || s[0] == '+' {
      sign := [s[0]];
      assert s == [s[0]] + s[1..];
    } else {
      sign := "";
      assert s == "" + s;
    }
  }

  lemma ExponentOf(s: string) returns (x: Option<Exponent>)
    requires Scale(s).Some?
    ensures ValidExponent(x) && s == ExponentText(x)
  {
    if s == "" {
      x := None;
    } else {
      var sign := SignOf(s[1..]);
      var digits := Unsigned(s[1..]);
      x := Some(Exponent(s[0], sign, digits));
      assert s == [s[0]] + s[1..];
    }
  }

  /** Whatever is read as a numeral is one. */
  lemma NumeralOf(s: string) returns (n: Written)
    requires Numeral(s).Some?
    ensures Valid(n) && s == TextOf(n)
  {
    hide Scale, DigitRun, Unsigned, Numeral;
    var u := Unsigned(s);
    var whole := DigitRun(u);
    var tail := u[|whole|..];
    var point := tail != "" && tail[0] == '.';
    var frac := if point then DigitRun(tail[1..]) else "";
    var rest := if point then tail[1 + |frac|..] else tail;
    PartsRead(s, u, whole, tail, frac, rest);
    var sign := SignOf(s);
    var x := ExponentOf(rest);
    n := Written(sign, whole, point, frac, x);
    assert u == whole + tail;
    assert TailText(n) == tail by {
      if point { PointSplits(tail, frac); } else { assert "" + rest == tail; }
    }
    assert whole + frac == "" ==> whole == "" && frac == "";
  }

  lemma PartsRead(s: string, u: string, whole: string, tail: string, frac: string, rest: string)
    requires Numeral(s).Some? && u == Unsigned(s) && whole == DigitRun(u) && tail == u[|whole|..]
    requires frac == if tail != "" && tail[0] == '.' then DigitRun(tail[1..]) else ""
    requires rest == if tail != "" && tail[0] == '.' then tail[1 + |frac|..] else tail
    ensures s != "" && Scale(rest).Some? && (whole != "" || frac != "")
  {
    hide Scale, Magnitude;
  }

  lemma PointSplits(tail: string, frac: string)
    requires tail != "" && tail[0] == '.' && frac <= tail[1..]
    ensures ("." + frac) + tail[1 + |frac|..] == tail
  {
    assert tail == [tail[0]] + tail[1..];
    assert tail[1..] == frac + tail[1..][|frac|..];
    assert tail[1..][|frac|..] == tail[1 + |frac|..];
  }

  /** Reading a numeral, exactly: which texts are numerals, and what each is worth. */
  lemma NumeralExactly(s: string, v: real)
    ensures Numeral(s) == Some(v) <==> exists n :: IsNumeral(n, s, v)
  {
    if Numeral(s) == Some(v) {
      var n := NumeralOf(s);
      ReadsAsComputed(n);
      ComputedIsWorth(n);
      assert IsNumeral(n, s, v);
    }
    if n :| IsNumeral(n, s, v) {
      ReadsAsComputed(n);
      ComputedIsWorth(n);
      WorthUnique(n, v, Computed(n));
    }
  }

  // ---------- in a text ----------

  /** Another number character behind a numeral would belong to it. */
  predicate Continues(c: char) { '0' <= c <= '9' || c in {'.', 'e', 'E', '+', '-'} }

  lemma NumeralChars(n: Written)
    requires Valid(n)
    ensures forall i :: 0 <= i < |TextOf(n)| ==> NumChar(TextOf(n)[i])
    ensures TextOf(n) != ""
  {
    TailStart(n);
    var s := TextOf(n);
    forall i | 0 <= i < |s| ensures NumChar(s[i]) {
      if n.exponent.Some? {
        var e := n.exponent.value;
        var k := |s| - |e.digits|;
        assert s[i] == if i >= k then e.digits[i - k] else s[i];
        assert forall j :: 0 <= j < |e.digits| ==> IsDigit(e.digits[j]);
      }
    }
  }

  /** The parser reads a numeral in front of anything that does not continue it as the number it is worth. */
  lemma NumberIsRead(n: Written, v: real, rest: string)
    requires Valid(n) && IsWorth(n, v) && (rest == "" || !Continues(rest[0]))
    ensures ParseValue(TextOf(n) + rest) == Outcome.Ok(Number(v), rest)
  {
    hide Numeral, TextOf, IsWorth, ParseValue;
    var s := TextOf(n);
    NumeralChars(n);
    NumeralExactly(s, v);
    assert IsNumeral(n, s, v);
    var d := DNumber("", s);
    assert ValidDoc(d) && Meaning(d) == Number(v) && Render(d) == s by { assert "" + s == s; }
    DocComplete(d, rest);
  }

  lemma OneAndAHalf()
    ensures Numeral("1.5") == Some(1.5)
  {
    hide Numeral;
    AppendDigit("1", '5');
    OneDigit('1');
    var n := Written("", "1", true, "5", None);
    assert TextOf(n) == "1.5" && n.whole + n.frac == "1" + ['5'];
    assert Pow10(1) == 10.0 by { assert Pow10(0) == 1.0; }
    assert IsNumeral(n, "1.5", 1.5);
    NumeralExactly("1.5", 1.5);
  }

  lemma MinusTwoAndAHalf()
    ensures Numeral("-25e-1") == Some(-2.5)
  {
    hide Numeral;
    AppendDigit("2", '5');
    OneDigit('2');
    OneDigit('1');
    var n := Written("-", "25", false, "", Some(Exponent('e', "-", "1")));
    assert TextOf(n) == "-25e-1" && n.whole + n.frac == "2" + ['5'];
    assert Pow10(0) == 1.0 && Pow10(1) == 10.0;
    assert IsNumeral(n, "-25e-1", -2.5);
    NumeralExactly("-25e-1", -2.5);
  }
}
