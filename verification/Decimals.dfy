// Decimal text of venues, parsed exactly, and its conversion to atomic units,
// price ticks and quantity lots.
module Decimals {
  import opened Bytes
  import opened Wrappers

  const MAX_TEXT: nat := 1024
  const MAX_SCALE: nat := 38

  datatype Decimal = Decimal(coefficient: i128, scale: nat)

  datatype DecimalError =
    | InvalidDecimal | DecimalTextTooLong | DecimalScaleOutOfRange | DecimalOverflow | DecimalRescaleOutOfRange
    | DecimalScalingOverflow | InexactDecimal | InexactInstrumentPrice

  const DOT: byte := 46
  const ZERO: byte := 48
  const MINUS: byte := 45
  const PLUS: byte := 43

  // ----- The number a text denotes

  predicate IsDigit(b: byte) { ZERO <= b <= 57 }

  predicate Digits(s: seq<byte>) { forall i :: 0 <= i < |s| ==> IsDigit(s[i]) }

  predicate Signed(text: seq<byte>) { text != [] && (text[0] == MINUS || text[0] == PLUS) }

  function Body(text: seq<byte>): seq<byte> { if Signed(text) then text[1..] else text }

  function DotAt(body: seq<byte>): (d: nat)
    ensures d <= |body| && (d < |body| ==> body[d] == DOT)
    ensures forall i :: 0 <= i < d ==> body[i] != DOT
  {
    if body == [] || body[0] == DOT then 0 else 1 + DotAt(body[1..])
  }

  function WholePart(text: seq<byte>): seq<byte> { Body(text)[..DotAt(Body(text))] }

  function Fraction(text: seq<byte>): seq<byte> {
    var body := Body(text);
    if DotAt(body) == |body| then [] else body[DotAt(body) + 1..]
  }

  // An optional sign, then digits with at most one point and at least one digit.
  predicate WellFormed(text: seq<byte>) {
    Digits(WholePart(text)) && Digits(Fraction(text)) && |WholePart(text)| + |Fraction(text)| > 0
  }

  function Number(digits: seq<byte>): nat
    requires Digits(digits)
  {
    if digits == [] then 0
    else 10 * Number(digits[..|digits| - 1]) + (digits[|digits| - 1] - ZERO) as nat
  }

  function Pow10(n: nat): (p: nat)
    ensures p >= 1
  {
    if n == 0 then 1 else 10 * Pow10(n - 1)
  }

  function Negated(negative: bool, n: nat): int { if negative then 0 - n else n }

  function WithSign(text: seq<byte>, n: nat): int { Negated(text != [] && text[0] == MINUS, n) }

  // The text denotes Numerator(text) / 10^|Fraction(text)|.
  function Numerator(text: seq<byte>): int
    requires WellFormed(text)
  {
    WithSign(text, Number(WholePart(text) + Fraction(text)))
  }

  // ----- Parsing

  function Trimmed(fraction: seq<byte>): (t: seq<byte>)
    ensures |t| <= |fraction| && t == fraction[..|t|]
    ensures t != [] ==> t[|t| - 1] != ZERO
  {
    if fraction == [] || fraction[|fraction| - 1] != ZERO then fraction else Trimmed(fraction[..|fraction| - 1])
  }

  // The coefficient of the fewest fraction digits, whatever its size.
  function Coefficient(text: seq<byte>): int
    requires WellFormed(text)
  {
    WithSign(text, Number(WholePart(text) + Trimmed(Fraction(text))))
  }

  predicate Fits(x: int) { -I128_MAX - 1 <= x <= I128_MAX }

  function Parsed(text: seq<byte>): Result<Decimal, DecimalError> {
    if text == [] then Err(InvalidDecimal)
    else if |text| > MAX_TEXT then Err(DecimalTextTooLong)
    else if !WellFormed(text) then Err(InvalidDecimal)
    else if |Trimmed(Fraction(text))| > MAX_SCALE then Err(DecimalScaleOutOfRange)
    else if !Fits(Coefficient(text)) then Err(DecimalOverflow)
    else Ok(Decimal(Coefficient(text), if Coefficient(text) == 0 then 0 else |Trimmed(Fraction(text))|))
  }

  lemma {:induction false} NumberGrows(digits: seq<byte>, i: nat)
    requires Digits(digits) && i <= |digits|
    ensures Number(digits[..i]) <= Number(digits)
    decreases |digits|
  {
    if i < |digits| {
      var n := |digits| - 1;
      NumberGrows(digits[..n], i);
      assert digits[..n][..i] == digits[..i];
    } else {
      assert digits[..i] == digits;
    }
  }

  lemma NumberSnoc(digits: seq<byte>, i: nat)
    requires Digits(digits) && i < |digits|
    ensures Number(digits[..i + 1]) == 10 * Number(digits[..i]) + (digits[i] - ZERO) as nat
  {
    assert digits[..i + 1][..i] == digits[..i];
  }

  // The coefficient, built digit by digit within 128 bits; it overflows on the
  // way exactly when the whole number does not fit.
  method Accumulate(digits: seq<byte>, negative: bool) returns (r: Result<i128, DecimalError>)
    requires Digits(digits)
    ensures var value := Negated(negative, Number(digits));
      r == if Fits(value) then Ok(value) else Err(DecimalOverflow)
  {
    var coefficient := 0;
    for i := 0 to |digits|
      invariant coefficient == Negated(negative, Number(digits[..i]))
      invariant Fits(coefficient)
    {
      NumberSnoc(digits, i);
      NumberGrows(digits, i + 1);
      NumberGrows(digits, i);
      var digit := (digits[i] - ZERO) as int;
      if !Fits(coefficient * 10) { return Err(DecimalOverflow); }
      coefficient := if negative then coefficient * 10 - digit else coefficient * 10 + digit;
      if !Fits(coefficient) { return Err(DecimalOverflow); }
    }
    assert digits[..|digits|] == digits;
    return Ok(coefficient);
  }

  // One pass over the text after the sign: where the point is, if it is well formed.
  method Scan(body: seq<byte>) returns (dot: Option<nat>, ok: bool)
    ensures ok == (Digits(body[..DotAt(body)]) && (DotAt(body) < |body| ==> Digits(body[DotAt(body) + 1..]))
                   && |body| > (if DotAt(body) < |body| then 1 else 0))
    ensures ok ==> dot == if DotAt(body) < |body| then Some(DotAt(body)) else None
  {
    dot := None;
    var count := 0;
    for i := 0 to |body|
      invariant dot.Some? ==> dot.value < i && body[dot.value] == DOT && DotAt(body) == dot.value
      invariant dot.None? ==> forall k :: 0 <= k < i ==> body[k] != DOT
      invariant forall k :: 0 <= k < i && Some(k) != dot ==> IsDigit(body[k])
      invariant count == if dot.Some? then i - 1 else i
    {
      if body[i] == DOT {
        if dot.Some? {
          assert body[DotAt(body) + 1..][i - DotAt(body) - 1] == DOT;
          return dot, false;
        }
        dot := Some(i);
        assert DotAt(body) == i;
      } else {
        if !IsDigit(body[i]) {
          if dot.Some? {
            assert body[DotAt(body) + 1..][i - DotAt(body) - 1] == body[i];
          } else if i < DotAt(body) {
            assert body[..DotAt(body)][i] == body[i];
          }
          return dot, false;
        }
        count := count + 1;
      }
    }
    ok := count != 0;
  }

  // Drops zeros at the end of the fraction.
  method TrimEnd(body: seq<byte>, dot: nat) returns (end: nat)
    requires dot < |body|
    ensures dot < end <= |body| && Trimmed(body[dot + 1..]) == body[dot + 1..end]
  {
    end := |body|;
    assert body[dot + 1..end] == body[dot + 1..];
    while end > dot + 1 && body[end - 1] == ZERO
      invariant dot < end <= |body|
      invariant Trimmed(body[dot + 1..]) == Trimmed(body[dot + 1..end])
    {
      assert body[dot + 1..end][..end - dot - 2] == body[dot + 1..end - 1];
      end := end - 1;
    }
  }

  lemma PartsAt(text: seq<byte>, dot: Option<nat>)
    requires dot == if DotAt(Body(text)) < |Body(text)| then Some(DotAt(Body(text))) else None
    ensures var body := Body(text);
      match dot
      case Some(d) => d < |body| && WholePart(text) == body[..d] && Fraction(text) == body[d + 1..]
      case None => WholePart(text) == body && Fraction(text) == []
  {
  }

  // The digits that count and how many of them follow the point.
  method Shorten(text: seq<byte>, dot: Option<nat>) returns (digits: seq<byte>, scale: nat)
    requires dot == if DotAt(Body(text)) < |Body(text)| then Some(DotAt(Body(text))) else None
    ensures digits == WholePart(text) + Trimmed(Fraction(text)) && scale == |Trimmed(Fraction(text))|
  {
    PartsAt(text, dot);
    var body := if Signed(text) then text[1..] else text;
    assert body == Body(text);
    if dot.None? {
      assert Trimmed([]) == [];
      return body, 0;
    }
    var end := TrimEnd(body, dot.value);
    return body[..dot.value] + body[dot.value + 1..end], end - dot.value - 1;
  }

  method Parse(text: seq<byte>) returns (r: Result<Decimal, DecimalError>)
    ensures r == Parsed(text)
  {
    if |text| == 0 { return Err(InvalidDecimal); }
    if |text| > MAX_TEXT { return Err(DecimalTextTooLong); }
    var body := if Signed(text) then text[1..] else text;
    assert body == Body(text);
    var dot, ok := Scan(body);
    assert ok == WellFormed(text);
    if !ok { return Err(InvalidDecimal); }
    var digits, scale := Shorten(text, dot);
    if scale > MAX_SCALE { return Err(DecimalScaleOutOfRange); }
    assert Digits(digits);
    var coefficient := Accumulate(digits, text[0] == MINUS);
    assert Coefficient(text) == Negated(text[0] == MINUS, Number(digits));
    if coefficient.Err? { return Err(coefficient.error); }
    return Ok(Decimal(coefficient.value, if coefficient.value == 0 then 0 else scale));
  }

  // ----- The result is the same number, in its shortest form

  lemma {:induction false} Pow10Adds(a: nat, b: nat)
    ensures Pow10(a + b) == Pow10(a) * Pow10(b)
    decreases a
  {
    if a > 0 {
      Pow10Adds(a - 1, b);
      assert Pow10(a) * Pow10(b) == 10 * (Pow10(a - 1) * Pow10(b));
    }
  }

  // Zeros at the end of the digits only move the point.
  lemma {:induction false} TrimScales(whole: seq<byte>, fraction: seq<byte>)
    requires Digits(whole) && Digits(fraction)
    ensures Number(whole + fraction) == Number(whole + Trimmed(fraction)) * Pow10(|fraction| - |Trimmed(fraction)|)
    decreases |fraction|
  {
    if fraction != [] && fraction[|fraction| - 1] == ZERO {
      var shorter := fraction[..|fraction| - 1];
      TrimScales(whole, shorter);
      var all := whole + fraction;
      assert all[..|all| - 1] == whole + shorter;
      var k := |fraction| - |Trimmed(fraction)|;
      assert Pow10(k) == 10 * Pow10(k - 1);
      Regroup(Number(whole + Trimmed(fraction)), Pow10(k - 1));
    }
  }

  lemma Regroup(n: nat, p: nat)
    ensures 10 * (n * p) == n * (10 * p)
  {
  }

  // A coefficient and a scale that cannot be shortened.
  predicate Shortest(coefficient: int, scale: nat) { scale == 0 || coefficient % 10 != 0 }

  // coefficient / 10^scale and numerator / 10^digits are one number.
  predicate SameNumber(coefficient: int, scale: nat, numerator: int, digits: nat) {
    coefficient * Pow10(digits) == numerator * Pow10(scale)
  }

  lemma NegatedScales(negative: bool, a: nat, b: nat, p: nat)
    requires a == b * p
    ensures Negated(negative, a) == Negated(negative, b) * p
  {
  }

  lemma MulSwap(n: int, p: nat, q: nat)
    ensures n * (p * q) == (n * p) * q == (n * q) * p
  {
  }

  lemma CoefficientIsShortest(text: seq<byte>)
    requires WellFormed(text)
    ensures var s := |Trimmed(Fraction(text))|;
      && Shortest(Coefficient(text), s)
      && SameNumber(Coefficient(text), s, Numerator(text), |Fraction(text)|)
      && (Coefficient(text) == 0 ==> s == 0)
  {
    hide DotAt, Body;
    var whole, fraction := WholePart(text), Fraction(text);
    var trimmed, c := Trimmed(fraction), Coefficient(text);
    var s, f := |trimmed|, |fraction|;
    TrimScales(whole, fraction);
    var negative := text != [] && text[0] == MINUS;
    NegatedScales(negative, Number(whole + fraction), Number(whole + trimmed), Pow10(f - s));
    Pow10Adds(s, f - s);
    MulSwap(c, Pow10(s), Pow10(f - s));
    if s > 0 {
      var all := whole + trimmed;
      assert all[|all| - 1] == trimmed[s - 1] != ZERO;
      LastDigit(all);
    }
  }

  lemma LastDigit(digits: seq<byte>)
    requires Digits(digits) && digits != [] && digits[|digits| - 1] != ZERO
    ensures Number(digits) % 10 != 0 && Number(digits) != 0 && (0 - Number(digits)) % 10 != 0
  {
    assert IsDigit(digits[|digits| - 1]);
  }

  // A parsed decimal is exactly the number of its text, with no digit to spare.
  lemma ParseIsExact(text: seq<byte>)
    requires Parsed(text).Ok?
    ensures var d := Parsed(text).value;
      && WellFormed(text) && SameNumber(d.coefficient, d.scale, Numerator(text), |Fraction(text)|)
      && Shortest(d.coefficient, d.scale) && d.scale <= MAX_SCALE
  {
    hide WellFormed, Coefficient, Numerator, Trimmed, Fraction, SameNumber, Shortest;
    CoefficientIsShortest(text);
  }

  lemma Cancel(a: int, b: int, p: nat)
    requires p >= 1 && a * p == b * p
    ensures a == b
  {
    assert a < b ==> (b - a) * p >= p;
    assert b < a ==> (a - b) * p >= p;
  }

  lemma Tens(c: int, p: nat)
    ensures (c * (10 * p)) % 10 == 0
  {
    assert c * (10 * p) == 10 * (c * p);
  }

  lemma NotShortest(a: int, s: nat, b: int, t: nat)
    requires s < t && SameNumber(a, s, b, t)
    ensures !Shortest(b, t)
  {
    Pow10Adds(s, t - s);
    MulSwap(a, Pow10(s), Pow10(t - s));
    Cancel(a * Pow10(t - s), b, Pow10(s));
    assert Pow10(t - s) == 10 * Pow10(t - s - 1);
    Tens(a, Pow10(t - s - 1));
  }

  // Only one shortest form denotes a number.
  lemma ShortestIsUnique(a: int, s: nat, b: int, t: nat)
    requires Shortest(a, s) && Shortest(b, t) && SameNumber(a, s, b, t)
    ensures a == b && s == t
  {
    if s < t { NotShortest(a, s, b, t); }
    if t < s { NotShortest(b, t, a, s); }
    if s == t { Cancel(a, b, Pow10(s)); }
  }

  ghost function Mul(a: int, b: int): int { a * b }

  lemma Shuffle(a: int, b: int, c: int, d: int)
    ensures Mul(Mul(a, b), Mul(c, d)) == Mul(Mul(a, c), Mul(b, d)) == Mul(Mul(a, d), Mul(b, c))
  {
  }

  lemma MulComm(a: int, b: int)
    ensures Mul(a, b) == Mul(b, a)
  {
  }

  lemma Through(a: int, x: int, n: int, u: int, b: int, y: int, m: int, v: int)
    requires Mul(a, u) == Mul(n, x) && Mul(b, v) == Mul(m, y) && Mul(n, v) == Mul(m, u)
    ensures Mul(Mul(a, y), Mul(u, v)) == Mul(Mul(b, x), Mul(u, v))
  {
    hide Mul;
    calc {
      Mul(Mul(a, y), Mul(u, v));
      { Shuffle(a, y, u, v); }
      Mul(Mul(n, x), Mul(y, v));
      { Shuffle(n, x, y, v); }
      Mul(Mul(n, v), Mul(x, y));
      { Shuffle(m, u, x, y); }
      Mul(Mul(m, y), Mul(u, x));
      { Shuffle(b, v, u, x); }
      Mul(Mul(b, x), Mul(v, u));
      { MulComm(u, v); }
      Mul(Mul(b, x), Mul(u, v));
    }
  }

  // Two forms of numbers that are equal to one number are equal to each other.
  lemma SameThrough(a: int, s: nat, n: int, f: nat, b: int, t: nat, m: int, g: nat)
    requires SameNumber(a, s, n, f) && SameNumber(b, t, m, g) && SameNumber(n, f, m, g)
    ensures SameNumber(a, s, b, t)
  {
    hide Pow10;
    var x, y, u, v := Pow10(s), Pow10(t), Pow10(f), Pow10(g);
    Through(a, x, n, u, b, y, m, v);
    Positive(u, v);
    Cancel(a * y, b * x, u * v);
  }

  lemma Positive(u: nat, v: nat)
    requires u >= 1 && v >= 1
    ensures u * v >= 1
  {
  }

  // Parsing depends on the number alone: however two well-formed texts write
  // the same number, they parse to the same decimal or fail alike.
  lemma ParseIsByValue(text: seq<byte>, other: seq<byte>)
    requires WellFormed(text) && WellFormed(other) && |text| <= MAX_TEXT && |other| <= MAX_TEXT
    requires SameNumber(Numerator(text), |Fraction(text)|, Numerator(other), |Fraction(other)|)
    ensures Parsed(text) == Parsed(other)
  {
    assert text != [] && other != [];
    hide WellFormed, Coefficient, Numerator, Trimmed, Fraction, SameNumber, Shortest;
    CoefficientIsShortest(text);
    CoefficientIsShortest(other);
    var s, t := |Trimmed(Fraction(text))|, |Trimmed(Fraction(other))|;
    SameThrough(Coefficient(text), s, Numerator(text), |Fraction(text)|, Coefficient(other), t, Numerator(other),
        |Fraction(other)|);
    ShortestIsUnique(Coefficient(text), s, Coefficient(other), t);
  }

  // ----- Atomic units

  method Power(exponent: nat) returns (r: Result<int, DecimalError>)
    ensures r == if Pow10(exponent) <= I128_MAX then Ok(Pow10(exponent)) else Err(DecimalOverflow)
  {
    var result := 1;
    for index := 0 to exponent
      invariant result == Pow10(index) <= I128_MAX
    {
      if result * 10 > I128_MAX {
        PowerGrows(index + 1, exponent);
        return Err(DecimalOverflow);
      }
      result := result * 10;
    }
    return Ok(result);
  }

  lemma {:induction false} PowerGrows(a: nat, b: nat)
    requires a <= b
    ensures Pow10(a) <= Pow10(b)
    decreases b
  {
    if a < b { PowerGrows(a, b - 1); }
  }

  lemma LargestPower()
    ensures Pow10(MAX_SCALE) <= I128_MAX
  {
    assert Pow10(5) == 100_000;
    Pow10Adds(5, 5);
    Pow10Adds(10, 10);
    Pow10Adds(20, 10);
    Pow10Adds(30, 5);
    Pow10Adds(35, 3);
    assert Pow10(3) == 1000;
  }

  // Truncating division; the remainder is zero exactly when the divisor divides.
  function Quotient(a: int, b: int): int
    requires b > 0
  {
    if a >= 0 then a / b else -(-a / b)
  }

  method ExactAtoms(d: Decimal, atomicScale: nat) returns (r: Result<int, DecimalError>)
    ensures r == Atoms(d, atomicScale)
  {
    if d.scale > MAX_SCALE { return Err(DecimalScaleOutOfRange); }
    if atomicScale > MAX_SCALE { return Err(DecimalRescaleOutOfRange); }
    LargestPower();
    if d.scale == atomicScale { return Ok(d.coefficient); }
    if d.scale < atomicScale {
      PowerGrows(atomicScale - d.scale, MAX_SCALE);
      var multiplier := Power(atomicScale - d.scale);
      if !Fits(d.coefficient * multiplier.value) { return Err(DecimalScalingOverflow); }
      return Ok(d.coefficient * multiplier.value);
    }
    PowerGrows(d.scale - atomicScale, MAX_SCALE);
    var divisor := Power(d.scale - atomicScale);
    if d.coefficient % divisor.value != 0 { return Err(InexactDecimal); }
    return Ok(Quotient(d.coefficient, divisor.value));
  }

  function Atoms(d: Decimal, atomicScale: nat): Result<int, DecimalError> {
    if d.scale > MAX_SCALE then Err(DecimalScaleOutOfRange)
    else if atomicScale > MAX_SCALE then Err(DecimalRescaleOutOfRange)
    else if d.scale <= atomicScale then
      var atoms := d.coefficient * Pow10(atomicScale - d.scale);
      if Fits(atoms) then Ok(atoms) else Err(DecimalScalingOverflow)
    else if d.coefficient % Pow10(d.scale - atomicScale) != 0 then Err(InexactDecimal)
    else Ok(Quotient(d.coefficient, Pow10(d.scale - atomicScale)))
  }

  lemma DividesExactly(a: int, b: int)
    requires b > 0
    ensures a % b == 0 ==> Quotient(a, b) * b == a
    ensures forall q: int :: q * b == a ==> a % b == 0 && Quotient(a, b) == q
  {
    forall q: int | q * b == a
      ensures a % b == 0 && Quotient(a, b) == q
    {
      Multiple(q, b);
      if a < 0 { assert -a == (-q) * b; Multiple(-q, b); }
    }
    if a % b == 0 && a < 0 { NegativeMultiple(a, b); }
  }

  lemma AtLeast(d: int, b: int)
    requires b > 0
    ensures d >= 1 ==> d * b >= b
    ensures d <= -1 ==> d * b <= -b
  {
  }

  lemma Multiple(q: int, b: int)
    requires b > 0
    ensures (q * b) % b == 0 && (q * b) / b == q
  {
    var a := q * b;
    var k, r := a / b, a % b;
    assert a == k * b + r && 0 <= r < b;
    assert (q - k) * b == r;
    AtLeast(q - k, b);
  }

  lemma NegativeMultiple(a: int, b: int)
    requires b > 0 && a % b == 0
    ensures (-a / b) * b == -a
  {
    assert a == (a / b) * b;
    assert -a == (-(a / b)) * b;
    Multiple(-(a / b), b);
  }

  // The conversion returns a value exactly when it is the same number and fits.
  lemma AtomsAreExact(d: Decimal, atomicScale: nat, atoms: int)
    ensures Atoms(d, atomicScale) == Ok(atoms)
            <==> d.scale <= MAX_SCALE && atomicScale <= MAX_SCALE && Fits(atoms)
                 && SameNumber(atoms, atomicScale, d.coefficient, d.scale)
  {
    var c, s, t := d.coefficient, d.scale, atomicScale;
    if s <= MAX_SCALE && t <= MAX_SCALE {
      if s <= t {
        Pow10Adds(s, t - s);
        MulSwap(c, Pow10(s), Pow10(t - s));
        if SameNumber(atoms, t, c, s) { Cancel(atoms, c * Pow10(t - s), Pow10(s)); }
      } else {
        Pow10Adds(t, s - t);
        DividesExactly(c, Pow10(s - t));
        MulSwap(atoms, Pow10(t), Pow10(s - t));
        if SameNumber(atoms, t, c, s) { Cancel(atoms * Pow10(s - t), c, Pow10(t)); }
        QuotientFits(c, Pow10(s - t));
      }
    }
  }

  lemma QuotientFits(a: int, b: int)
    requires Fits(a) && b > 0
    ensures Fits(Quotient(a, b))
  {
    if a >= 0 { Smaller(a, b); } else { Smaller(-a, b); }
  }

  lemma Smaller(a: nat, b: int)
    requires b > 0
    ensures 0 <= a / b <= a
  {
    var q, r := a / b, a % b;
    assert a == q * b + r && q >= 0 && r >= 0;
    NotLess(q, b);
  }

  lemma NotLess(q: nat, b: int)
    requires b >= 1
    ensures q * b >= q
  {
  }

  // ----- Price ticks and quantity lots

  // The number of whole units in a decimal, where a unit is some atomic units.
  function Units(d: Decimal, unitScale: nat, unitAtoms: i128): Result<int, DecimalError> {
    var atoms := Atoms(d, unitScale);
    if atoms.Err? then atoms
    else if unitAtoms <= 0 || atoms.value % unitAtoms != 0 then Err(InexactInstrumentPrice)
    else Ok(Quotient(atoms.value, unitAtoms))
  }

  // From text to units without rounding: the units found, times the unit, are
  // exactly the number the text denotes.
  lemma TextToUnits(text: seq<byte>, unitScale: nat, unitAtoms: i128, units: int)
    requires Parsed(text).Ok? && unitScale <= MAX_SCALE
    ensures Units(Parsed(text).value, unitScale, unitAtoms) == Ok(units)
            <==> unitAtoms > 0 && Fits(units * unitAtoms)
                 && SameNumber(units * unitAtoms, unitScale, Numerator(text), |Fraction(text)|)
  {
    var d := Parsed(text).value;
    ParseIsExact(text);
    hide Parsed, WellFormed, Numerator, Fraction, Atoms, Quotient;
    var atoms := Atoms(d, unitScale);
    AtomsAreExact(d, unitScale, units * unitAtoms);
    if unitAtoms > 0 {
      if atoms.Ok? { DividesExactly(atoms.value, unitAtoms); }
      SameBothWays(units * unitAtoms, unitScale, d.coefficient, d.scale, Numerator(text), |Fraction(text)|);
    }
  }

  lemma SameBothWays(a: int, s: nat, c: int, k: nat, n: int, f: nat)
    requires SameNumber(c, k, n, f)
    ensures SameNumber(a, s, c, k) <==> SameNumber(a, s, n, f)
  {
    assert SameNumber(n, f, c, k) && SameNumber(n, f, n, f) && SameNumber(c, k, c, k);
    if SameNumber(a, s, c, k) { SameThrough(a, s, c, k, n, f, n, f); }
    if SameNumber(a, s, n, f) { SameThrough(a, s, n, f, c, k, c, k); }
  }
}
