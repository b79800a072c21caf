// What a decimal text is, sign by sign and digit by digit; printing, which
// parsing inverts; and the error of every text and conversion that fails.
module DecimalText {
  import opened Bytes
  import opened Wrappers
  import opened Decimals

  // ----- The grammar

  ghost predicate AllDigits(s: seq<byte>) { forall i :: 0 <= i < |s| ==> 48 <= s[i] <= 57 }

  // Nothing, a minus or a plus.
  ghost predicate IsSign(s: seq<byte>) { s == [] || s == [45] || s == [43] }

  // What stands behind the sign.
  function BodyOf(whole: seq<byte>, fraction: seq<byte>, point: bool): seq<byte> {
    if point then whole + [46] + fraction else whole
  }

  // The text is the sign, the whole digits and, behind a point, the fraction
  // digits; without any the point may be missing.
  ghost predicate Spells(text: seq<byte>, sign: seq<byte>, whole: seq<byte>, fraction: seq<byte>) {
    && IsSign(sign) && AllDigits(whole) && AllDigits(fraction) && |whole| + |fraction| > 0
    && (text == sign + BodyOf(whole, fraction, true)
        || (fraction == [] && text == sign + BodyOf(whole, fraction, false)))
  }

  lemma BodyIsRead(whole: seq<byte>, fraction: seq<byte>, point: bool)
    requires AllDigits(whole) && AllDigits(fraction) && (point || fraction == []) && |whole| + |fraction| > 0
    ensures var body := BodyOf(whole, fraction, point);
      && body != [] && body[0] != 45 && body[0] != 43 && DotAt(body) == |whole| && body[..|whole|] == whole
      && (if point then |whole| < |body| && body[|whole| + 1..] == fraction else |whole| == |body|)
  {
    hide DotAt;
    var body := BodyOf(whole, fraction, point);
    assert forall i :: 0 <= i < |whole| ==> body[i] == whole[i];
    DotIs(body, |whole|);
  }

  lemma PartsAreRead(text: seq<byte>, sign: seq<byte>, whole: seq<byte>, fraction: seq<byte>, point: bool)
    requires IsSign(sign) && AllDigits(whole) && AllDigits(fraction) && (point || fraction == [])
    requires |whole| + |fraction| > 0 && text == sign + BodyOf(whole, fraction, point)
    ensures WholePart(text) == whole && Fraction(text) == fraction && text != [] && (text[0] == MINUS <==> sign == [45])
  {
    hide DotAt, BodyOf;
    BodyIsRead(whole, fraction, point);
    SignIsRead(text, sign, BodyOf(whole, fraction, point));
  }

  lemma SpeltIsRead(text: seq<byte>, sign: seq<byte>, whole: seq<byte>, fraction: seq<byte>)
    requires Spells(text, sign, whole, fraction)
    ensures WellFormed(text) && WholePart(text) == whole && Fraction(text) == fraction
    ensures Numerator(text) == (if sign == [45] then 0 - Number(whole + fraction) else Number(whole + fraction))
  {
    hide WholePart, Fraction, Number, BodyOf;
    PartsAreRead(text, sign, whole, fraction, text == sign + BodyOf(whole, fraction, true));
  }

  lemma SignIsRead(text: seq<byte>, sign: seq<byte>, body: seq<byte>)
    requires IsSign(sign) && text == sign + body && body != [] && body[0] != 45 && body[0] != 43
    ensures Body(text) == body && (text[0] == MINUS <==> sign == [45])
  {
  }

  lemma DotIs(body: seq<byte>, d: nat)
    requires d <= |body| && (d < |body| ==> body[d] == 46) && forall i :: 0 <= i < d ==> body[i] != 46
    ensures DotAt(body) == d
  {
  }

  // A text is well formed exactly when it is spelt so.
  lemma WellFormedIsSpelt(text: seq<byte>)
    ensures WellFormed(text) <==> exists sign, whole, fraction :: Spells(text, sign, whole, fraction)
  {
    if WellFormed(text) {
      var sign: seq<byte> := if Signed(text) then [text[0]] else [];
      var body := Body(text);
      assert text == sign + body;
      var d := DotAt(body);
      if d < |body| {
        assert body == BodyOf(WholePart(text), Fraction(text), true);
      } else {
        assert body == BodyOf(WholePart(text), Fraction(text), false);
      }
      assert Spells(text, sign, WholePart(text), Fraction(text));
    }
    if sign, whole, fraction :| Spells(text, sign, whole, fraction) { SpeltIsRead(text, sign, whole, fraction); }
  }

  // ----- Printing

  function DigitOf(n: nat): byte { (48 + n % 10) as byte }

  // The digits of a number without leading zeros; zero has none.
  function Shortened(n: nat): seq<byte> {
    if n == 0 then [] else Shortened(n / 10) + [DigitOf(n)]
  }

  // The last so many digits of a number.
  function Padded(n: nat, width: nat): (s: seq<byte>)
    ensures |s| == width
  {
    if width == 0 then [] else Padded(n / 10, width - 1) + [DigitOf(n)]
  }

  lemma {:induction false} ShortenedReads(n: nat)
    ensures AllDigits(Shortened(n)) && Digits(Shortened(n)) && Number(Shortened(n)) == n
  {
    if n > 0 {
      ShortenedReads(n / 10);
      assert Shortened(n)[..|Shortened(n)| - 1] == Shortened(n / 10);
    }
  }

  lemma {:induction false} PaddedReads(n: nat, width: nat)
    ensures AllDigits(Padded(n, width)) && Digits(Padded(n, width))
    ensures n < Pow10(width) ==> Number(Padded(n, width)) == n
  {
    if width > 0 {
      PaddedReads(n / 10, width - 1);
      assert Padded(n, width)[..width - 1] == Padded(n / 10, width - 1);
    }
  }

  lemma NumberUnfolds(s: seq<byte>)
    requires Digits(s)
    ensures s == [] ==> Number(s) == 0
    ensures s != [] ==> Number(s) == 10 * Number(s[..|s| - 1]) + (s[|s| - 1] - ZERO) as nat
    ensures Pow10(0) == 1 && (s != [] ==> Pow10(|s|) == 10 * Pow10(|s| - 1))
  {
  }

  lemma {:induction false} NumberConcat(a: seq<byte>, b: seq<byte>)
    requires Digits(a) && Digits(b)
    ensures Number(a + b) == Number(a) * Pow10(|b|) + Number(b)
    decreases |b|
  {
    hide Number, Pow10;
    NumberUnfolds(a);
    NumberUnfolds(b);
    NumberUnfolds(a + b);
    if b == [] {
      assert a + b == a;
    } else {
      var n := |b| - 1;
      NumberConcat(a, b[..n]);
      assert (a + b)[..|a + b| - 1] == a + b[..n] && (a + b)[|a + b| - 1] == b[n];
      var digit := (b[n] - ZERO) as nat;
      assert Number(b) == 10 * Number(b[..n]) + digit && Number(a + b) == 10 * Number(a + b[..n]) + digit;
      assert Pow10(|b|) == 10 * Pow10(n);
      Ten(Number(a), Pow10(n), Number(b[..n]), digit);
    }
  }

  lemma Ten(x: nat, p: nat, y: nat, d: nat)
    ensures 10 * (x * p + y) + d == x * (10 * p) + (10 * y + d)
  {
    assert 10 * (x * p) == x * (10 * p);
  }

  function Magnitude(x: int): nat { if x < 0 then -x else x }

  // The whole and the fraction digits of n over the power p of ten.
  function WholeOf(n: nat, p: nat): seq<byte>
    requires p > 0
  {
    [48] + Shortened(n / p)
  }

  function FractionOf(n: nat, p: nat, scale: nat): seq<byte>
    requires p > 0
  {
    Padded(n % p, scale)
  }

  function SignOf(x: int): seq<byte> { if x < 0 then [45] else [] }

  function Printed(d: Decimal): seq<byte> {
    var n, p := Magnitude(d.coefficient), Pow10(d.scale);
    SignOf(d.coefficient) + BodyOf(WholeOf(n, p), FractionOf(n, p, d.scale), true)
  }

  lemma PartsRead(n: nat, scale: nat)
    ensures var p := Pow10(scale); var whole, fraction := WholeOf(n, p), FractionOf(n, p, scale);
      && AllDigits(whole) && AllDigits(fraction) && Digits(whole + fraction) && |fraction| == scale
      && Number(whole + fraction) == n
  {
    hide Pow10, Number, WholeOf, FractionOf;
    var p := Pow10(scale);
    WholeReads(n, p);
    FractionReads(n, scale);
    NumberConcat(WholeOf(n, p), FractionOf(n, p, scale));
    Recomposed(n, p, n / p, n % p);
  }

  lemma WholeReads(n: nat, p: nat)
    requires p > 0
    ensures AllDigits(WholeOf(n, p)) && Digits(WholeOf(n, p)) && Number(WholeOf(n, p)) == n / p
  {
    hide Shortened;
    ShortenedReads(n / p);
    assert Number([48]) == 0 by { assert [48 as byte][..0] == []; }
    NumberConcat([48], Shortened(n / p));
  }

  lemma FractionReads(n: nat, scale: nat)
    ensures var p := Pow10(scale); var s := FractionOf(n, p, scale);
      AllDigits(s) && Digits(s) && |s| == scale && Number(s) == n % p
  {
    hide Pow10, Padded;
    PaddedReads(n % Pow10(scale), scale);
  }

  lemma Recomposed(n: nat, p: nat, a: int, b: int)
    requires p > 0 && a == n / p && b == n % p
    ensures a * p + b == n
  {
  }

  // Every decimal in shortest form is what its printing parses to.
  lemma ParsedOfPrinted(d: Decimal)
    requires Shortest(d.coefficient, d.scale) && d.scale <= 38 && |Printed(d)| <= 1024
    ensures Parsed(Printed(d)) == Ok(d)
  {
    hide WellFormed, Numerator, WholeOf, FractionOf, Number, Pow10, WholePart, Fraction;
    var n, p := Magnitude(d.coefficient), Pow10(d.scale);
    var sign, whole, fraction := SignOf(d.coefficient), WholeOf(n, p), FractionOf(n, p, d.scale);
    PartsRead(n, d.scale);
    assert whole != [] by { WholeIsSomething(n, p); }
    assert Spells(Printed(d), sign, whole, fraction);
    SpeltIsRead(Printed(d), sign, whole, fraction);
    LastIsKept(d);
    assert Trimmed(fraction) == fraction;
    CoefficientIs(Printed(d));
  }

  lemma WholeIsSomething(n: nat, p: nat)
    requires p > 0
    ensures WholeOf(n, p) != []
  {
  }

  lemma CoefficientIs(text: seq<byte>)
    requires WellFormed(text) && Trimmed(Fraction(text)) == Fraction(text)
    ensures Coefficient(text) == Numerator(text) && text != []
  {
    hide WholePart, Fraction;
    NothingIsSpelt(text);
  }

  // The last printed digit of a shortest fraction is not zero.
  lemma LastIsKept(d: Decimal)
    requires Shortest(d.coefficient, d.scale)
    ensures var s := FractionOf(Magnitude(d.coefficient), Pow10(d.scale), d.scale); s != [] ==> s[|s| - 1] != 48
    ensures d.coefficient == 0 ==> d.scale == 0
  {
    hide Pow10, Padded;
    if d.scale > 0 {
      var n, q := Magnitude(d.coefficient), Pow10(d.scale - 1);
      TenTimes(d.scale);
      LastOfPadded(n % Pow10(d.scale), d.scale);
      LastDigits(d.coefficient);
      RemainderDigit(n, q);
    }
  }

  lemma TenTimes(n: nat)
    ensures n > 0 ==> Pow10(n) == 10 * Pow10(n - 1)
  {
  }

  lemma LastOfPadded(n: nat, width: nat)
    requires width > 0
    ensures Padded(n, width)[width - 1] == DigitOf(n)
  {
  }

  lemma LastDigits(x: int)
    ensures x % 10 == 0 <==> Magnitude(x) % 10 == 0
  {
  }

  lemma RemainderDigit(n: nat, q: nat)
    requires q > 0
    ensures n % (10 * q) % 10 == n % 10
  {
    var k, r := n / (10 * q), n % (10 * q);
    assert n == 10 * q * k + r;
    assert 10 * q * k == 10 * (q * k);
    assert n % 10 == r % 10 by { assert n == 10 * (q * k) + r; }
  }

  // ----- Errors

  // Why a text is refused.
  lemma ParseErrors(text: seq<byte>)
    ensures Parsed(text) == Err(DecimalTextTooLong) <==> |text| > 1024
    ensures Parsed(text) == Err(InvalidDecimal) <==> |text| <= 1024 && !WellFormed(text)
    ensures Parsed(text) == Err(DecimalScaleOutOfRange) <==>
            |text| <= 1024 && WellFormed(text) && exists i :: 38 <= i < |Fraction(text)| && Fraction(text)[i] != 48
    ensures Parsed(text) == Err(DecimalOverflow) <==>
            && |text| <= 1024 && WellFormed(text)
            && (forall i :: 38 <= i < |Fraction(text)| ==> Fraction(text)[i] == 48)
            && !(-0x8000_0000_0000_0000_0000_0000_0000_0000 <= Coefficient(text)
                 <= 0x7FFF_FFFF_FFFF_FFFF_FFFF_FFFF_FFFF_FFFF)
  {
    hide WellFormed, Coefficient;
    assert text == [] ==> !WellFormed(text) by { NothingIsSpelt(text); }
    if |text| <= 1024 && WellFormed(text) { TrimmedIs(Fraction(text)); }
  }

  lemma NothingIsSpelt(text: seq<byte>)
    ensures text == [] ==> !WellFormed(text)
  {
  }

  lemma {:induction false} TrimmedIs(fraction: seq<byte>)
    ensures forall i :: |Trimmed(fraction)| <= i < |fraction| ==> fraction[i] == 48
    ensures Trimmed(fraction) != [] ==> fraction[|Trimmed(fraction)| - 1] != 48
    decreases |fraction|
  {
    if fraction != [] && fraction[|fraction| - 1] == ZERO { TrimmedIs(fraction[..|fraction| - 1]); }
  }

  // Why a conversion is refused.
  lemma AtomErrors(d: Decimal, atomicScale: nat)
    ensures Atoms(d, atomicScale) == Err(DecimalScaleOutOfRange) <==> d.scale > 38
    ensures Atoms(d, atomicScale) == Err(DecimalRescaleOutOfRange) <==> d.scale <= 38 && atomicScale > 38
    ensures Atoms(d, atomicScale) == Err(InexactDecimal) <==>
            d.scale <= 38 && atomicScale < d.scale && d.coefficient % Pow10(d.scale - atomicScale) != 0
    ensures Atoms(d, atomicScale) == Err(DecimalScalingOverflow) <==>
            && atomicScale <= 38 && d.scale <= atomicScale
            && var atoms := d.coefficient * Pow10(atomicScale - d.scale);
               !(-0x8000_0000_0000_0000_0000_0000_0000_0000 <= atoms <= 0x7FFF_FFFF_FFFF_FFFF_FFFF_FFFF_FFFF_FFFF)
  {
  }

  lemma UnitErrors(d: Decimal, unitScale: nat, unitAtoms: i128)
    ensures Atoms(d, unitScale).Err? ==> Units(d, unitScale, unitAtoms) == Atoms(d, unitScale)
    ensures Atoms(d, unitScale).Ok? && Units(d, unitScale, unitAtoms).Err? ==>
              Units(d, unitScale, unitAtoms).error == InexactInstrumentPrice
  {
    hide Atoms;
  }
}
