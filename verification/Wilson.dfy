/** The Wilson interval of the recall evaluation, over the reals.  `math.sqrt` enters as its
    defining property: a non-negative real with the given square. */
module Wilson {
  import opened Wrappers

  predicate IsSqrt(root: real, x: real) { root >= 0.0 && root * root == x }

  function Proportion(k: nat, n: nat): real
    requires n > 0
  {
    k as real / n as real
  }

  /** The argument of the square root, for a proportion `p` of `m` trials. */
  function SpreadOf(p: real, m: real, z: real): real
    requires m > 0.0
  {
    p * (1.0 - p) / m + z * z / (4.0 * m * m)
  }

  function Spread(k: nat, n: nat, z: real): real
    requires n > 0
  {
    SpreadOf(Proportion(k, n), n as real, z)
  }

  /** The interval before it is clamped to [0, 1]. */
  function Unclamped(k: nat, n: nat, z: real, root: real): (real, real)
    requires n > 0
  {
    var p, m := Proportion(k, n), n as real;
    var d := 1.0 + z * z / m;
    var c := (p + z * z / (2.0 * m)) / d;
    var h := z * root / d;
    (c - h, c + h)
  }

  function Max(x: real, y: real): real { if x < y then y else x }

  function Min(x: real, y: real): real { if y < x then y else x }

  /** `wilson`; `None` stands for the pair of NaN. */
  function Interval(k: nat, n: nat, z: real, root: real): Option<(real, real)> {
    if n == 0 then None
    else
      var (lo, hi) := Unclamped(k, n, z, root);
      Some((Max(0.0, lo), Min(1.0, hi)))
  }

  // --------------------------------------------------------------- algebra, in p, u, w

  predicate Positive(x: real) { x > 0.0 }

  lemma Product(a: real, b: real)
    ensures a >= 0.0 && b >= 0.0 ==> a * b >= 0.0
    ensures Positive(a) && Positive(b) ==> Positive(a * b)
  {
  }

  lemma Square(z: real)
    ensures z * z >= 0.0 && (z != 0.0 ==> Positive(z * z))
  {
    if z >= 0.0 {
      Product(z, z);
    } else {
      Product(-z, -z);
      assert (-z) * (-z) == z * z;
    }
  }

  lemma Quotient(x: real, d: real)
    requires Positive(d)
    ensures x / d * d == x
    ensures (x / d >= 0.0 <==> x >= 0.0) && (Positive(x / d) <==> Positive(x))
  {
    var r := x / d;
    assert r * d == x;
    SignOfProduct(d, r);
    SignOfProduct(d, -r);
  }

  lemma SquareGrows(x: real, y: real)
    requires 0.0 <= y < x
    ensures x * x > y * y
  {
    var e := x - y;
    assert x == y + e;
    assert x * x == y * y + 2.0 * e * y + e * e;
    Product(e, e);
    assert e * y >= 0.0;
  }

  lemma SquareOrder(x: real, y: real)
    requires y >= 0.0
    ensures x * x <= y * y <==> -y <= x <= y
  {
    if x > y {
      SquareGrows(x, y);
    } else if x < -y {
      SquareGrows(-x, y);
      assert (-x) * (-x) == x * x;
    } else {
      assert (y - x) * (y + x) == y * y - x * x;
      Product(y - x, y + x);
    }
  }

  lemma Expand(p: real, u: real, w: real, q: real)
    requires w * w == u * p * (1.0 - p) + u * u / 4.0
    ensures var e := (1.0 + u) * q - (p + u / 2.0);
            e * e - w * w == (1.0 + u) * ((q - p) * (q - p) - u * q * (1.0 - q))
  {
    var e := (1.0 + u) * q - (p + u / 2.0);
    var a, b := (1.0 + u) * q, p + u / 2.0;
    assert e * e == a * a - 2.0 * (a * b) + b * b;
    assert b * b == p * p + p * u + u * u / 4.0;
    assert b * b - w * w == p * p + u * (p * p);
    assert a * b == (1.0 + u) * (q * p + q * u / 2.0);
    assert a * a == (1.0 + u) * (q * q + u * (q * q));
  }

  /** `q` lies between the two bounds exactly when its squared distance from `p` is within
      `u q (1 - q)`. */
  lemma Bracket(p: real, u: real, w: real, q: real)
    requires u >= 0.0 && w >= 0.0 && w * w == u * p * (1.0 - p) + u * u / 4.0
    ensures var d := 1.0 + u;
            (p + u / 2.0) / d - w / d <= q <= (p + u / 2.0) / d + w / d
            <==> (q - p) * (q - p) <= u * q * (1.0 - q)
  {
    var d, b := 1.0 + u, p + u / 2.0;
    var e := d * q - b;
    Expand(p, u, w, q);
    SquareOrder(e, w);
    ScaleBounds(b, w, d, q);
    var f := (q - p) * (q - p) - u * q * (1.0 - q);
    assert e * e - w * w == d * f;
    assert d * f <= 0.0 <==> f <= 0.0 by { SignOfProduct(d, f); }
  }

  lemma SignOfProduct(d: real, f: real)
    requires d > 0.0
    ensures d * f <= 0.0 <==> f <= 0.0
  {
    Product(d, f);
    Product(d, -f);
    assert d * -f == -(d * f);
  }

  lemma ScaleBounds(b: real, w: real, d: real, q: real)
    requires d > 0.0
    ensures b / d - w / d <= q <= b / d + w / d <==> -w <= d * q - b <= w
  {
    assert d * (b / d) == b && d * (w / d) == w;
    var low, high := q - (b / d - w / d), b / d + w / d - q;
    assert d * low == d * q - b + w && d * high == b + w - d * q;
    SignOfProduct(d, -low);
    SignOfProduct(d, -high);
  }

  // ------------------------------------------------------------- the code's own bounds

  /** Dividing by a positive number can be checked by multiplying back. */
  lemma QuotientIs(x: real, d: real, y: real)
    requires Positive(d) && y * d == x
    ensures x / d == y
  {
    Quotient(x, d);
    assert (x / d - y) * d == 0.0;
  }

  lemma FourSquares(m: real)
    requires m > 0.0
    ensures Positive(4.0 * m * m)
  {
    Product(m, m);
    Product(4.0, m * m);
    assert 4.0 * (m * m) == 4.0 * m * m;
  }

  lemma FirstTerm(zz: real, v: real, m: real, u: real)
    requires m > 0.0 && u * m == zz
    ensures zz * (v / m) == u * v
  {
    Quotient(v, m);
    var r := v / m;
    assert (u * m) * r == u * (r * m);
  }

  lemma SecondTerm(zz: real, m: real, u: real)
    requires m > 0.0 && u * m == zz
    ensures zz * (zz / (4.0 * m * m)) == u * u / 4.0
  {
    FourSquares(m);
    var r := u / (4.0 * m);
    Quotient(u, 4.0 * m);
    assert r * (4.0 * m * m) == (r * (4.0 * m)) * m;
    QuotientIs(zz, 4.0 * m * m, r);
    assert (u * m) * r * 4.0 == u * (r * (4.0 * m));
  }

  /** `z * root` squared, in terms of `u = z^2 / m`. */
  lemma RootSquared(p: real, m: real, z: real, root: real, u: real)
    requires m > 0.0 && u * m == z * z && IsSqrt(root, SpreadOf(p, m, z))
    ensures (z * root) * (z * root) == u * p * (1.0 - p) + u * u / 4.0
    ensures z >= 0.0 ==> z * root >= 0.0
  {
    Product(z, root);
    FirstTerm(z * z, p * (1.0 - p), m, u);
    SecondTerm(z * z, m, u);
    SquareOfProduct(z, root, p * (1.0 - p) / m, z * z / (4.0 * m * m));
    assert u * (p * (1.0 - p)) == u * p * (1.0 - p);
  }

  lemma SquareOfProduct(z: real, root: real, a: real, b: real)
    requires root * root == a + b
    ensures (z * root) * (z * root) == z * z * a + z * z * b
  {
    assert (z * root) * (z * root) == (z * z) * (root * root);
    assert (z * z) * (a + b) == z * z * a + z * z * b;
  }

  lemma ProportionInUnit(k: nat, n: nat)
    requires k <= n && n > 0
    ensures 0.0 <= Proportion(k, n) <= 1.0
    ensures Proportion(n - k, n) == 1.0 - Proportion(k, n)
  {
    var m, p := n as real, Proportion(k, n);
    Quotient(k as real, m);
    Quotient((n - k) as real, m);
    QuotientIs((n - k) as real, m, 1.0 - p);
  }

  /** `z^2 / n`, which the bounds are written in. */
  function Scale(n: nat, z: real): (u: real)
    requires n > 0
  {
    z * z / n as real
  }

  lemma ScaleFacts(n: nat, z: real)
    requires n > 0
    ensures Scale(n, z) >= 0.0 && (z != 0.0 ==> Positive(Scale(n, z)))
    ensures Scale(n, z) * n as real == z * z
    ensures z * z / (2.0 * n as real) == Scale(n, z) / 2.0
  {
    var m, u := n as real, Scale(n, z);
    Square(z);
    Quotient(z * z, m);
    assert u / 2.0 * (2.0 * m) == u * m;
    QuotientIs(z * z, 2.0 * m, u / 2.0);
  }

  /** The bounds in terms of that scale and of `z * root`. */
  lemma UnclampedShape(k: nat, n: nat, z: real, root: real)
    requires n > 0
    ensures Scale(n, z) >= 0.0
    ensures var p, u, w := Proportion(k, n), Scale(n, z), z * root;
            Unclamped(k, n, z, root) == ((p + u / 2.0) / (1.0 + u) - w / (1.0 + u), (p + u / 2.0) / (1.0 + u) + w / (1.0 + u))
  {
    ScaleFacts(n, z);
  }

  /** `q` is as far from `p` as `z` standard errors, taken at `q`, allow; `u` is `z^2 / n`. */
  predicate WithinErrors(p: real, u: real, q: real) {
    (q - p) * (q - p) <= u * q * (1.0 - q)
  }

  lemma ErrorsInCounts(k: nat, n: nat, z: real, q: real)
    requires n > 0
    ensures var p := k as real / n as real;
            WithinErrors(Proportion(k, n), Scale(n, z), q) <==> (q - p) * (q - p) <= z * z / n as real * (q * (1.0 - q))
  {
    var u := z * z / n as real;
    assert u * q * (1.0 - q) == u * (q * (1.0 - q));
  }

  lemma BoundsAreWithin(k: nat, n: nat, z: real, root: real, q: real)
    requires 0 < n && z >= 0.0 && IsSqrt(root, Spread(k, n, z))
    ensures var (lo, hi) := Unclamped(k, n, z, root);
            lo <= q <= hi <==> WithinErrors(Proportion(k, n), Scale(n, z), q)
  {
    hide SpreadOf, IsSqrt, Unclamped, Scale, Proportion, WithinErrors;
    ScaleFacts(n, z);
    UnclampedShape(k, n, z, root);
    BracketAt(Proportion(k, n), n as real, z, root, Scale(n, z), q);
  }

  /** The meaning of the bounds: a rate `q` lies between them exactly when the observed
      proportion is within `z` standard errors of `q`, the error taken at `q` itself. */
  lemma ScoreInterval(k: nat, n: nat, z: real, root: real, q: real)
    requires 0 < n && z >= 0.0 && IsSqrt(root, Spread(k, n, z))
    ensures var (lo, hi) := Unclamped(k, n, z, root);
            var p := k as real / n as real;
            lo <= q <= hi <==> (q - p) * (q - p) <= z * z / n as real * (q * (1.0 - q))
  {
    hide Unclamped, Scale, Proportion, WithinErrors, Spread, IsSqrt;
    BoundsAreWithin(k, n, z, root, q);
    ErrorsInCounts(k, n, z, q);
  }

  lemma BracketAt(p: real, m: real, z: real, root: real, u: real, q: real)
    requires m > 0.0 && z >= 0.0 && u >= 0.0 && u * m == z * z && IsSqrt(root, SpreadOf(p, m, z))
    ensures (p + u / 2.0) / (1.0 + u) - z * root / (1.0 + u) <= q <= (p + u / 2.0) / (1.0 + u) + z * root / (1.0 + u)
            <==> WithinErrors(p, u, q)
  {
    hide SpreadOf, IsSqrt;
    RootSquared(p, m, z, root, u);
    Bracket(p, u, z * root, q);
  }

  lemma NotBelowZero(p: real, u: real, q: real)
    requires 0.0 <= p && u >= 0.0 && (q - p) * (q - p) <= u * q * (1.0 - q)
    ensures 0.0 <= q
  {
    if q < 0.0 {
      var e := p - q;
      Product(u, -q);
      Product(u * -q, 1.0 - q);
      assert (u * -q) * (1.0 - q) == -(u * q * (1.0 - q));
      assert e * e == (q - p) * (q - p);
      Product(e, e);
    }
  }

  lemma WithinUnit(p: real, u: real, q: real)
    requires 0.0 <= p <= 1.0 && u >= 0.0 && WithinErrors(p, u, q)
    ensures 0.0 <= q <= 1.0
  {
    NotBelowZero(p, u, q);
    var q', p' := 1.0 - q, 1.0 - p;
    assert (q' - p') * (q' - p') == (q - p) * (q - p);
    assert u * q' * (1.0 - q') == u * q * (1.0 - q);
    NotBelowZero(p', u, q');
  }

  lemma ErrorAtProportion(p: real, u: real)
    requires 0.0 <= p <= 1.0 && u >= 0.0
    ensures WithinErrors(p, u, p)
  {
    Product(u, p);
    Product(u * p, 1.0 - p);
  }

  lemma Encloses(k: nat, n: nat, z: real, root: real)
    requires k <= n && 0 < n && z >= 0.0 && IsSqrt(root, Spread(k, n, z))
    ensures var (lo, hi) := Unclamped(k, n, z, root);
            0.0 <= lo <= k as real / n as real <= hi <= 1.0
  {
    assert Proportion(k, n) == k as real / n as real && Scale(n, z) == z * z / n as real;
    ProportionInUnit(k, n);
    ScaleFacts(n, z);
    hide Unclamped, Scale, Proportion, Spread, IsSqrt, WithinErrors;
    var p, u := Proportion(k, n), Scale(n, z);
    var (lo, hi) := Unclamped(k, n, z, root);
    ErrorAtProportion(p, u);
    BoundsAreWithin(k, n, z, root, p);
    BoundsAreWithin(k, n, z, root, lo);
    WithinUnit(p, u, lo);
    BoundsAreWithin(k, n, z, root, hi);
    WithinUnit(p, u, hi);
  }

  /** The bounds enclose the proportion and lie in [0, 1], so clamping changes nothing. */
  lemma EnclosesAndNeedsNoClamp(k: nat, n: nat, z: real, root: real)
    requires k <= n && 0 < n && z >= 0.0 && IsSqrt(root, Spread(k, n, z))
    ensures var (lo, hi) := Unclamped(k, n, z, root);
            0.0 <= lo <= k as real / n as real <= hi <= 1.0
    ensures Interval(k, n, z, root) == Some(Unclamped(k, n, z, root))
  {
    hide Unclamped, Proportion, Spread, IsSqrt;
    Encloses(k, n, z, root);
    var (lo, hi) := Unclamped(k, n, z, root);
    assert Unclamped(k, n, z, root) == (lo, hi);
    assert Max(0.0, lo) == lo && Min(1.0, hi) == hi;
  }

  lemma MirrorSpread(p: real, m: real, z: real)
    requires m > 0.0
    ensures SpreadOf(1.0 - p, m, z) == SpreadOf(p, m, z)
  {
    assert (1.0 - p) * (1.0 - (1.0 - p)) == p * (1.0 - p);
  }

  lemma MirrorCentre(p: real, u: real)
    requires u >= 0.0
    ensures (1.0 - p + u / 2.0) / (1.0 + u) == 1.0 - (p + u / 2.0) / (1.0 + u)
  {
    var d := 1.0 + u;
    var c := (p + u / 2.0) / d;
    Quotient(p + u / 2.0, d);
    assert (1.0 - c) * d == d - c * d;
    QuotientIs(1.0 - p + u / 2.0, d, 1.0 - c);
  }

  /** Counting misses instead of hits mirrors the interval. */
  lemma MissesMirrorHits(k: nat, n: nat, z: real, root: real)
    requires k <= n && 0 < n
    ensures Spread(n - k, n, z) == Spread(k, n, z)
    ensures var (lo, hi) := Unclamped(k, n, z, root);
            Unclamped(n - k, n, z, root) == (1.0 - hi, 1.0 - lo)
  {
    hide Unclamped, Scale, Proportion, SpreadOf;
    ProportionInUnit(k, n);
    UnclampedShape(k, n, z, root);
    UnclampedShape(n - k, n, z, root);
    MirrorCentre(Proportion(k, n), Scale(n, z));
    MirrorSpread(Proportion(k, n), n as real, z);
  }

  lemma SpreadPositive(p: real, m: real, z: real)
    requires 0.0 <= p <= 1.0 && m > 0.0 && z != 0.0
    ensures Positive(SpreadOf(p, m, z))
  {
    Product(p, 1.0 - p);
    Quotient(p * (1.0 - p), m);
    Square(z);
    FourSquares(m);
    Quotient(z * z, 4.0 * m * m);
  }

  lemma PositiveRoot(root: real, x: real)
    requires IsSqrt(root, x) && Positive(x)
    ensures root > 0.0
  {
  }

  /** For any `z` the bounds enclose the proportion exactly when `z` is not negative. */
  lemma EnclosesIffNonNegative(k: nat, n: nat, z: real, root: real)
    requires k <= n && 0 < n && IsSqrt(root, Spread(k, n, z))
    ensures var (lo, hi) := Unclamped(k, n, z, root);
            lo <= k as real / n as real <= hi <==> z >= 0.0
  {
    assert Proportion(k, n) == k as real / n as real;
    if z >= 0.0 {
      EnclosesAndNeedsNoClamp(k, n, z, root);
      return;
    }
    UnclampedShape(k, n, z, root);
    ProportionInUnit(k, n);
    hide Unclamped, Scale, Proportion, SpreadOf;
    SpreadPositive(Proportion(k, n), n as real, z);
    PositiveRoot(root, Spread(k, n, z));
    Product(-z, root);
    assert -z * root == -(z * root);
    Quotient(z * root, 1.0 + Scale(n, z));
  }

  /** No trials, no interval; otherwise each bound moves to the unit interval, if it must. */
  lemma ClampedIsNearest(k: nat, n: nat, z: real, root: real)
    ensures Interval(k, n, z, root).None? <==> n == 0
    ensures n > 0 ==>
      var ((lo, hi), (low, high)) := (Unclamped(k, n, z, root), Interval(k, n, z, root).value);
      && low >= 0.0 && (if lo >= 0.0 then low == lo else low == 0.0)
      && high <= 1.0 && (if hi <= 1.0 then high == hi else high == 1.0)
  {
    hide Unclamped;
  }
}
