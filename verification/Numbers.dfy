// What a number text stands for (RFC 8259, section 6). The text of a float64 is its shortest one,
// so texts compare like the floats they stand for.
module Numbers {
  import opened Text

  function Pow10(n: nat): (p: real)
    ensures p > 0.0
  {
    if n == 0 then 1.0 else 10.0 * Pow10(n - 1)
  }

  function Find(text: string, marks: set<char>): (i: nat)
    ensures i <= |text|
  {
    if text == [] || text[0] in marks then 0 else 1 + Find(text[1..], marks)
  }

  function DigitsValue(digits: string): nat {
    if digits == [] then 0
    else
      var c := digits[|digits| - 1];
      10 * DigitsValue(digits[..|digits| - 1]) + if '0' <= c <= '9' then (c as int) - 48 else 0
  }

  // The point moved n digits to the left.
  function Shifted(v: nat, n: nat): real { v as real / Pow10(n) }

  function UnsignedValue(text: string): real {
    var dot := Find(text, {'.'});
    var fraction := if dot < |text| then text[dot + 1..] else "";
    Shifted(DigitsValue(text[..dot] + fraction), |fraction|)
  }

  function SignedValue(text: string): real {
    if text != [] && text[0] == '-' then -UnsignedValue(text[1..]) else UnsignedValue(text)
  }

  function Scaled(value: real, exponent: string): real {
    var scale := Pow10(DigitsValue(exponent));
    if exponent != [] && exponent[0] == '-' then value / scale else value * scale
  }

  function NumValue(text: string): real {
    var e := Find(text, {'e', 'E'});
    Scaled(SignedValue(text[..e]), if e < |text| then text[e + 1..] else "")
  }

  // ---- The parts of a number ------------------------------------------------------------------

  predicate Digits(s: string) { forall c :: c in s ==> '0' <= c <= '9' }

  // A number as its parts; no fraction and no exponent are the empty text.
  datatype Number = Number(negative: bool, whole: string, fraction: string, downward: bool, exponent: string)

  predicate Proper(n: Number) { n.whole != "" && Digits(n.whole) && Digits(n.fraction) && Digits(n.exponent) }

  function FractionText(n: Number): string { if n.fraction == "" then "" else "." + n.fraction }

  function MantissaText(n: Number): string { (if n.negative then "-" else "") + (n.whole + FractionText(n)) }

  function ExponentText(n: Number): string {
    if n.exponent == "" then "" else (if n.downward then "-" else "+") + n.exponent
  }

  function NumberText(n: Number): string {
    if n.exponent == "" then MantissaText(n) else MantissaText(n) + "e" + ExponentText(n)
  }

  lemma {:induction false} FindNothing(text: string, marks: set<char>)
    requires forall c :: c in text ==> c !in marks
    ensures Find(text, marks) == |text|
  {
    if text != [] { FindNothing(text[1..], marks); }
  }

  lemma {:induction false} FindFirst(before: string, mark: char, after: string, marks: set<char>)
    requires mark in marks && forall c :: c in before ==> c !in marks
    ensures Find(before + [mark] + after, marks) == |before|
    decreases |before|
  {
    var text := before + [mark] + after;
    if before != [] {
      assert text[1..] == before[1..] + [mark] + after;
      FindFirst(before[1..], mark, after, marks);
    }
  }

  // Digits in front of the point count as they are.
  lemma {:induction false} DigitsBeforePoint(a: string, b: string)
    ensures Shifted(DigitsValue(a + b), |b|) == DigitsValue(a) as real + Shifted(DigitsValue(b), |b|)
    decreases |b|
  {
    var n := |b| - 1;
    if b == [] {
      assert a + b == a;
      assert DigitsValue(b) == 0;
      WholeNumber(DigitsValue(a));
      WholeNumber(0);
    } else {
      DigitsBeforePoint(a, b[..n]);
      LastDigit(a, b);
      var last := DigitsValue(b) - 10 * DigitsValue(b[..n]);
      hide *;
      OneMoreDigit(DigitsValue(a + b[..n]), last, n);
      OneMoreDigit(DigitsValue(b[..n]), last, n);
    }
  }

  lemma WholeNumber(v: nat)
    ensures Shifted(v, 0) == v as real
  {
  }

  lemma OneMoreDigit(v: nat, c: nat, n: nat)
    ensures Shifted(10 * v + c, n + 1) == Shifted(v, n) + Shifted(c, n + 1)
  {
    var p := Pow10(n);
    assert Pow10(n + 1) == 10.0 * p;
    SplitQuotient(v as real, c as real, p);
  }

  lemma SplitQuotient(v: real, c: real, p: real)
    requires p > 0.0
    ensures (10.0 * v + c) / (10.0 * p) == v / p + c / (10.0 * p)
  {
    var q, r := v / p, c / (10.0 * p);
    assert q * p == v && r * (10.0 * p) == c;
    assert (q + r) * (10.0 * p) == 10.0 * v + c;
  }

  lemma LastDigit(a: string, b: string)
    requires b != []
    ensures var n := |b| - 1;
      0 <= DigitsValue(a + b) - 10 * DigitsValue(a + b[..n]) == DigitsValue(b) - 10 * DigitsValue(b[..n])
  {
    assert (a + b)[..|a + b| - 1] == a + b[..|b| - 1];
  }

  lemma UnsignedParts(n: Number)
    requires Proper(n)
    ensures UnsignedValue(n.whole + FractionText(n))
         == DigitsValue(n.whole) as real + Shifted(DigitsValue(n.fraction), |n.fraction|)
  {
    var text := n.whole + FractionText(n);
    DigitsBeforePoint(n.whole, n.fraction);
    hide DigitsValue, Shifted;
    if n.fraction == "" {
      assert text == n.whole && n.whole + n.fraction == n.whole;
      FindNothing(text, {'.'});
      assert text[..|text|] == text;
    } else {
      assert text == n.whole + ['.'] + n.fraction;
      FindFirst(n.whole, '.', n.fraction, {'.'});
      hide Find;
      assert text[..|n.whole|] == n.whole && text[|n.whole| + 1..] == n.fraction;
    }
  }

  lemma SignedParts(n: Number)
    requires Proper(n)
    ensures SignedValue(MantissaText(n))
         == (if n.negative then -1.0 else 1.0) * UnsignedValue(n.whole + FractionText(n))
  {
    hide UnsignedValue;
    var rest := n.whole + FractionText(n);
    assert rest[0] == n.whole[0] && n.whole[0] in n.whole;
    assert ("-" + rest)[1..] == rest && "" + rest == rest;
  }

  lemma MantissaEnds(n: Number)
    requires Proper(n)
    ensures var text, m := NumberText(n), MantissaText(n);
      NumValue(text) == Scaled(SignedValue(m), ExponentText(n))
  {
    var text, m := NumberText(n), MantissaText(n);
    hide SignedValue, Scaled;
    assert forall c :: c in m ==> c !in {'e', 'E'};
    if n.exponent == "" {
      FindNothing(text, {'e', 'E'});
      assert text[..|text|] == m;
    } else {
      FindFirst(m, 'e', ExponentText(n), {'e', 'E'});
      assert text == m + ['e'] + ExponentText(n);
      hide MantissaText, ExponentText;
      assert text[..|m|] == m && text[|m| + 1..] == ExponentText(n);
    }
  }

  lemma ScaledParts(value: real, n: Number)
    requires Proper(n)
    ensures var scale := Pow10(DigitsValue(n.exponent));
      Scaled(value, ExponentText(n)) == if n.exponent != "" && n.downward then value / scale else value * scale
  {
    var text := ExponentText(n);
    if n.exponent != "" {
      LeadingSign(text[0], n.exponent);
      assert text == [text[0]] + n.exponent;
    }
    hide DigitsValue, Pow10;
  }

  lemma {:induction false} LeadingSign(c: char, digits: string)
    requires c == '-' || c == '+'
    ensures DigitsValue([c] + digits) == DigitsValue(digits)
    decreases |digits|
  {
    if digits == [] {
      assert [c] + digits == [c] && [c][..0] == [];
    } else {
      assert ([c] + digits)[..|digits|] == [c] + digits[..|digits| - 1];
      LeadingSign(c, digits[..|digits| - 1]);
    }
  }

  // A number text has the value of its parts: sign, whole part, fraction and power of ten.
  lemma NumbersHaveTheirValue(n: Number)
    requires Proper(n)
    ensures var magnitude := DigitsValue(n.whole) as real + Shifted(DigitsValue(n.fraction), |n.fraction|);
      var value := (if n.negative then -1.0 else 1.0) * magnitude;
      var scale := Pow10(DigitsValue(n.exponent));
      NumValue(NumberText(n)) == if n.exponent != "" && n.downward then value / scale else value * scale
  {
    hide *;
    UnsignedParts(n);
    SignedParts(n);
    MantissaEnds(n);
    ScaledParts(SignedValue(MantissaText(n)), n);
  }

  // The numeral of a natural number has its value.
  lemma NumeralsHaveTheirValue(n: nat)
    ensures NumValue(Itoa(n)) == n as real
  {
    var number := Number(false, Itoa(n), "", false, "");
    assert Digits(Itoa(n)) && Itoa(n) != "";
    hide *;
    NumeralParts(Itoa(n));
    NumeralDigits(n);
    NumbersHaveTheirValue(number);
    hide Itoa;
    assert NumValue(Itoa(n)) == 1.0 * (n as real + 0.0) * 1.0;
  }

  // Digits alone are a number without sign, fraction and exponent.
  lemma NumeralParts(digits: string)
    requires digits != "" && Digits(digits)
    ensures var number := Number(false, digits, "", false, "");
      Proper(number) && NumberText(number) == digits
    ensures DigitsValue("") == 0 && Pow10(0) == 1.0 && Shifted(0, |""|) == 0.0
  {
    assert "" + (digits + "") == digits;
    hide NumValue;
  }

  lemma {:induction false} NumeralDigits(n: nat)
    ensures DigitsValue(Itoa(n)) == n
  {
    var s := Itoa(n);
    if n < 10 {
      assert s[..|s| - 1] == [];
    } else {
      NumeralDigits(n / 10);
      assert s[..|s| - 1] == Itoa(n / 10);
    }
  }
}
