// The arithmetic a strategy state must satisfy: profit targets, covariance
// matrices, and ordered identities.
module StrategyTargets {

  const MILLION: int := 1_000_000

  // ----- Targets

  // Division that rounds up, as negated floor division of the negation.
  function Ceiling(a: int, b: int): int
    requires b > 0
  {
    -((-a) / b)
  }

  function Max(a: int, b: int): int { if a < b then b else a }

  datatype Ratio = Ratio(numerator: int, denominator: int)

  datatype Holding = Pending | Frozen(matched: Ratio, asset: int, atoms: int, freezeCursor: int)

  datatype Plan = Plan(
    profitAsset: int, profitAtoms: int, entryAsset: int, entryAtoms: int, minimumAsset: int, minimumAtoms: int,
    alpha: int, holding: Holding)

  function EntryTarget(p: Plan): int { Max(p.minimumAtoms, Ceiling(p.profitAtoms * p.alpha, MILLION)) }

  function HoldingTarget(p: Plan, r: Ratio): int
    requires r.denominator > 0
  {
    Max(p.minimumAtoms, Ceiling(r.numerator * p.entryAtoms, r.denominator))
  }

  // What validation accepts of a plan at a cursor.
  predicate Accepted(p: Plan, cursor: int) {
    && 1 <= p.alpha <= MILLION
    && p.profitAsset == p.entryAsset == p.minimumAsset && p.entryAtoms > 0 && p.minimumAtoms > 0
    && p.entryAtoms == EntryTarget(p)
    && match p.holding
       case Pending => true
       case Frozen(matched, asset, atoms, freezeCursor) =>
         && matched.denominator >= 1 && freezeCursor <= cursor
         && 0 <= matched.numerator <= matched.denominator
         && asset == p.profitAsset && atoms > 0 && atoms == HoldingTarget(p, matched)
  }

  // The ceiling is the least integer that, times the divisor, covers the dividend.
  lemma CeilingIsLeast(a: int, b: int)
    requires b > 0
    ensures Ceiling(a, b) * b >= a && (Ceiling(a, b) - 1) * b < a
    ensures forall c: int :: c * b >= a ==> Ceiling(a, b) <= c
  {
    var q, r, k := (-a) / b, (-a) % b, Ceiling(a, b);
    assert -a == q * b + r && 0 <= r < b;
    assert k * b == -(q * b);
    assert (k - 1) * b == k * b - b;
    forall c: int | c * b >= a
      ensures k <= c
    {
      assert (k - 1) * b < c * b;
      Less(k - 1, c, b);
    }
  }

  lemma Less(x: int, y: int, b: int)
    requires b > 0 && x * b < y * b
    ensures x < y
  {
    assert x >= y ==> (x - y) * b >= 0;
  }

  lemma MulOrder(x: int, y: int, b: int)
    requires b >= 0 && x <= y
    ensures x * b <= y * b
  {
  }

  // A larger matched ratio never lowers the rounded target.
  lemma CeilingGrows(a: int, b: int, c: int, d: int)
    requires b > 0 && d > 0 && a * d <= c * b
    ensures Ceiling(a, b) <= Ceiling(c, d)
  {
    CeilingIsLeast(a, b);
    CeilingIsLeast(c, d);
    var k := Ceiling(c, d);
    // k * d >= c, so k * b * d >= c * b >= a * d
    MulOrder(c, k * d, b);
    assert (k * b) * d == (k * d) * b;
    if k * b < a { MulStrict(k * b, a, d); }
  }

  lemma MulStrict(x: int, y: int, d: int)
    requires d > 0 && x < y
    ensures x * d < y * d
  {
    MulOrder(x + 1, y, d);
    assert (x + 1) * d == x * d + d;
  }

  // Accepted are exactly the plans in one asset whose targets are the least
  // amounts that reach the minimum and cover the rate, or the matched ratio, of
  // what they are taken from.
  lemma AcceptedIsExact(p: Plan, cursor: int)
    ensures var e, m := p.entryAtoms, p.minimumAtoms;
      Accepted(p, cursor) <==>
      && 1 <= p.alpha <= 1_000_000 && p.entryAsset == p.profitAsset && p.minimumAsset == p.profitAsset && m >= 1
      && e >= m && e * 1_000_000 >= p.profitAtoms * p.alpha
      && (e == m || (e - 1) * 1_000_000 < p.profitAtoms * p.alpha)
      && (p.holding.Frozen? ==>
            var n, d, h := p.holding.matched.numerator, p.holding.matched.denominator, p.holding.atoms;
            && 0 <= n <= d && d >= 1 && p.holding.freezeCursor <= cursor && p.holding.asset == p.profitAsset
            && h >= m && h * d >= n * e && (h == m || (h - 1) * d < n * e))
  {
    LeastTarget(p.minimumAtoms, p.profitAtoms * p.alpha, MILLION, p.entryAtoms);
    if p.holding.Frozen? && p.holding.matched.denominator >= 1 {
      var r := p.holding.matched;
      LeastTarget(p.minimumAtoms, r.numerator * p.entryAtoms, r.denominator, p.holding.atoms);
    }
  }

  lemma LeastTarget(minimum: int, a: int, b: int, target: int)
    requires b > 0
    ensures target == Max(minimum, Ceiling(a, b)) <==>
            target >= minimum && target * b >= a && (target == minimum || (target - 1) * b < a)
  {
    CeilingIsLeast(a, b);
    var c := Ceiling(a, b);
    if target >= c { MulOrder(c, target, b); } else { MulOrder(target, c - 1, b); }
    if target > c { MulOrder(c, target - 1, b); }
  }

  // An accepted plan with a frozen target keeps its targets in order.
  lemma TargetsAreOrdered(p: Plan, cursor: int)
    requires Accepted(p, cursor) && p.holding.Frozen?
    ensures 0 < p.minimumAtoms <= p.holding.atoms <= p.entryAtoms
  {
    var r := p.holding.matched;
    MulOrder(r.numerator, r.denominator, p.entryAtoms);
    CeilingIsLeast(r.numerator * p.entryAtoms, r.denominator);
  }

  // The holding target grows with the matched ratio and reaches the entry
  // target when everything is matched.
  lemma HoldingIsMonotone(p: Plan, less: Ratio, more: Ratio)
    requires p.entryAtoms >= 0 && less.denominator > 0 && more.denominator > 0
    requires less.numerator * more.denominator <= more.numerator * less.denominator
    ensures HoldingTarget(p, less) <= HoldingTarget(p, more)
  {
    var e := p.entryAtoms;
    MulOrder(less.numerator * more.denominator, more.numerator * less.denominator, e);
    assert (less.numerator * e) * more.denominator == (less.numerator * more.denominator) * e;
    assert (more.numerator * e) * less.denominator == (more.numerator * less.denominator) * e;
    CeilingGrows(less.numerator * e, less.denominator, more.numerator * e, more.denominator);
  }

  lemma FullyMatchedIsEntry(p: Plan, n: int)
    requires n > 0 && p.entryAtoms >= p.minimumAtoms
    ensures HoldingTarget(p, Ratio(n, n)) == p.entryAtoms
  {
    CeilingIsLeast(n * p.entryAtoms, n);
    assert p.entryAtoms * n >= n * p.entryAtoms;
    Less(Ceiling(n * p.entryAtoms, n) - 1, p.entryAtoms, n);
    if Ceiling(n * p.entryAtoms, n) < p.entryAtoms { MulStrict(Ceiling(n * p.entryAtoms, n), p.entryAtoms, n); }
  }

  // ----- Covariance

  datatype Matrix = Matrix(a: real, b: real, c: real, d: real)

  predicate AcceptedCovariance(m: Matrix) {
    !(m.a < 0.0 || m.d < 0.0 || m.b != m.c || m.a * m.d < m.b * m.c)
  }

  function Form(m: Matrix, x: real, y: real): real {
    m.a * x * x + m.b * x * y + m.c * y * x + m.d * y * y
  }

  lemma Square(x: real)
    ensures x * x >= 0.0
  {
  }

  lemma CompleteTheSquare(m: Matrix, x: real, y: real)
    requires m.b == m.c
    ensures m.a * Form(m, x, y) == (m.a * x + m.b * y) * (m.a * x + m.b * y) + (m.a * m.d - m.b * m.b) * (y * y)
  {
  }

  lemma NonNegativeProduct(p: real, q: real)
    requires p >= 0.0 && q >= 0.0
    ensures p * q >= 0.0
  {
  }

  lemma PositiveFactor(p: real, q: real)
    requires p > 0.0 && p * q >= 0.0
    ensures q >= 0.0
  {
    assert q < 0.0 ==> p * (-q) > 0.0;
  }

  lemma FormIsNonNegative(m: Matrix, x: real, y: real)
    requires AcceptedCovariance(m)
    ensures Form(m, x, y) >= 0.0
  {
    Square(y);
    if m.a > 0.0 {
      CompleteTheSquare(m, x, y);
      Square(m.a * x + m.b * y);
      NonNegativeProduct(m.a * m.d - m.b * m.b, y * y);
      PositiveFactor(m.a, Form(m, x, y));
    } else {
      ZeroSquare(m.b);
      NonNegativeProduct(m.d, y * y);
      assert Form(m, x, y) == m.d * (y * y);
    }
  }

  lemma ZeroSquare(x: real)
    requires x * x <= 0.0
    ensures x == 0.0
  {
    if x > 0.0 {
      assert x * (-x) == -(x * x);
      PositiveFactor(x, -x);
    } else if x < 0.0 {
      assert (-x) * x == -(x * x);
      PositiveFactor(-x, x);
    }
  }

  // The test accepts exactly the symmetric matrices that are positive
  // semidefinite on every vector.
  lemma CovarianceIsSemidefinite(m: Matrix)
    ensures AcceptedCovariance(m) <==> m.b == m.c && forall x: real, y: real :: Form(m, x, y) >= 0.0
  {
    if AcceptedCovariance(m) {
      forall x: real, y: real ensures Form(m, x, y) >= 0.0 { FormIsNonNegative(m, x, y); }
    }
    if m.b == m.c && forall x: real, y: real :: Form(m, x, y) >= 0.0 {
      SemidefiniteIsAccepted(m);
    }
  }

  // Without a leading entry, any off-diagonal entry makes the form negative somewhere.
  lemma NegativePoint(m: Matrix) returns (x: real)
    requires m.a == 0.0 && m.b == m.c && m.b != 0.0
    ensures Form(m, x, 1.0) < 0.0
  {
    x := Solve(m.b, -(m.d + 1.0) / 2.0);
    FormWithoutLead(m, x, -(m.d + 1.0) / 2.0);
  }

  lemma FormWithoutLead(m: Matrix, x: real, bx: real)
    requires m.a == 0.0 && m.b == m.c && m.b * x == bx
    ensures Form(m, x, 1.0) == 2.0 * bx + m.d
  {
  }

  lemma Solve(q: real, p: real) returns (x: real)
    requires q != 0.0
    ensures q * x == p
  {
    x := p / q;
  }

  lemma SemidefiniteIsAccepted(m: Matrix)
    requires m.b == m.c && forall x: real, y: real :: Form(m, x, y) >= 0.0
    ensures AcceptedCovariance(m)
  {
    assert Form(m, 1.0, 0.0) == m.a;
    assert Form(m, 0.0, 1.0) == m.d;
    assert m.a >= 0.0 && m.d >= 0.0;
    if m.a > 0.0 {
      assert Form(m, -m.b, m.a) >= 0.0;
      assert Form(m, -m.b, m.a) == m.a * (m.a * m.d - m.b * m.b) by { FormAt(m); }
      PositiveFactor(m.a, m.a * m.d - m.b * m.b);
    } else if m.b != 0.0 {
      var x := NegativePoint(m);
    }
  }

  lemma FormAt(m: Matrix)
    requires m.b == m.c
    ensures Form(m, -m.b, m.a) == m.a * (m.a * m.d - m.b * m.b)
  {
  }

  // ----- Ordered identities

  // No neighbour is out of order or repeated.
  predicate OrderedUnique(values: seq<int>) {
    forall i, j :: 0 <= i && j == i + 1 < |values| ==> values[i] < values[j]
  }

  // Looking at neighbours is enough: all values are distinct and increasing.
  lemma {:induction false} NeighboursSuffice(values: seq<int>, i: nat, j: nat)
    requires OrderedUnique(values) && i < j < |values|
    ensures values[i] < values[j]
    decreases j
  {
    if i + 1 < j { NeighboursSuffice(values, i, j - 1); }
    assert values[j - 1] < values[j];
  }
}
