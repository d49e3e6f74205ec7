/** The Wilson interval of a proportion, before clamping and rounding. Real arithmetic; the square root
    is any non-negative number with the required square. */
module Wilson {
  import opened Basics
  import Tallies

  const Z: real := 1.96

  /** `k` of `n` opportunities, as the source's `p`, `d`, `c` and `h`; `root` is the square root in `h`. */
  datatype Interval = Interval(low: real, rate: real, high: real)

  function Share(k: nat, n: nat): (p: real)
    requires 0 < n && k <= n
    ensures 0.0 <= p <= 1.0
  {
    DivideBounds(k as real, n as real);
    k as real / n as real
  }

  lemma DivideBounds(x: real, y: real)
    requires 0.0 <= x <= y && y > 0.0
    ensures 0.0 <= x / y <= 1.0
  {}

  function Radicand(p: real, n: real): real
    requires n > 0.0
  {
    (p * (1.0 - p) + Z * Z / (4.0 * n)) / n
  }

  predicate IsRoot(root: real, k: nat, n: nat)
    requires 0 < n && k <= n
  {
    root >= 0.0 && root * root == Radicand(Share(k, n), n as real)
  }

  function WilsonOf(k: nat, n: nat, root: real): Interval
    requires 0 < n && k <= n && IsRoot(root, k, n)
  {
    var p, m := Share(k, n), n as real;
    var d := 1.0 + Z * Z / m;
    var c := p + Z * Z / (2.0 * m);
    var h := Z * root;
    Interval((c - h) / d, p, (c + h) / d)
  }

  lemma SquareOrder(x: real, y: real)
    requires y >= 0.0 && x * x <= y * y
    ensures x <= y
  {
    if x > y { Bigger(x, y); }
  }

  lemma Bigger(x: real, y: real)
    requires x > y >= 0.0
    ensures x * x > y * y
  {
    Grow(x, y, x + y);
    assert x * (x + y) == x * x + x * y && y * (x + y) == x * y + y * y;
  }

  lemma Grow(x: real, y: real, f: real)
    requires x > y && f > 0.0
    ensures x * f > y * f
  {}

  /** With q = z*z/n and h the half width: the lower end is not negative and not above the rate. */
  lemma LowerEnd(p: real, q: real, h: real)
    requires 0.0 <= p <= 1.0 && q >= 0.0 && h >= 0.0 && h * h == q * (p * (1.0 - p) + q / 4.0)
    ensures 0.0 <= p + q / 2.0 - h <= p * (1.0 + q)
  {
    var v := p * (1.0 - p);
    Spread(q, v);
    // the lower end is not negative: the centre's square exceeds h*h by p*p*(1+q)
    CentreSquare(p, q, p + q / 2.0, v);
    SquareOrder(h, p + q / 2.0);
    // and it does not exceed the rate: q*(1/2-p) is at most h
    GapSquare(p, q, q * (0.5 - p), v);
    SquareOrder(q * (0.5 - p), h);
    Level(p, q);
  }

  lemma Spread(q: real, v: real)
    ensures q * (v + q / 4.0) == q * v + q * q / 4.0
  {}

  lemma Level(p: real, q: real)
    ensures q * (0.5 - p) == q / 2.0 - p * q && p * (1.0 + q) == p + p * q
  {}

  lemma Product(x: real, y: real)
    requires x >= 0.0 && y >= 0.0
    ensures x * y >= 0.0
  {}

  lemma CentreSquare(p: real, q: real, c: real, v: real)
    requires 0.0 <= p <= 1.0 && q >= 0.0 && c == p + q / 2.0 && v == p * (1.0 - p)
    ensures c * c >= q * v + q * q / 4.0
  {
    var pp := p * p;
    Product(p, p);
    Product(q, pp);
    assert c * c == pp + p * q + q * q / 4.0;
    assert q * v == q * p - q * pp;
  }

  lemma GapSquare(p: real, q: real, g: real, v: real)
    requires 0.0 <= p <= 1.0 && q >= 0.0 && g == q * (0.5 - p) && v == p * (1.0 - p)
    ensures g * g <= q * v + q * q / 4.0
  {
    Product(p, 1.0 - p);
    Product(q, v);
    Product(q, q);
    Product(q * q, v);
    assert (0.5 - p) * (0.5 - p) == 0.25 - v;
    Regroup(q, 0.5 - p);
    assert (q * q) * (0.25 - v) == q * q / 4.0 - (q * q) * v;
  }

  lemma Regroup(q: real, g: real)
    ensures (q * g) * (q * g) == (q * q) * (g * g)
  {}

  lemma Quotients(lo: real, rate: real, hi: real, d: real)
    requires d > 0.0 && 0.0 <= lo <= rate * d && rate * d <= hi <= d
    ensures 0.0 <= lo / d <= rate <= hi / d <= 1.0
  {
    var a, b := lo / d, hi / d;
    assert a * d == lo && b * d == hi;
    if a > rate { Grow(a, rate, d); }
    if rate > b { Grow(rate, b, d); }
    if b > 1.0 { Grow(b, 1.0, d); }
    if a < 0.0 { Grow(0.0, a, d); }
  }

  /** The interval lies in [0, 1] before any clamping and contains the rate. */
  lemma {:induction false} WilsonContainsRate(k: nat, n: nat, root: real)
    requires 0 < n && k <= n && IsRoot(root, k, n)
    ensures 0.0 <= WilsonOf(k, n, root).low <= WilsonOf(k, n, root).rate
                <= WilsonOf(k, n, root).high <= 1.0
  {
    var p, m := Share(k, n), n as real;
    var q := Z * Z / m;
    var h := Z * root;
    HalfWidth(p, m, root);
    assert Z * Z / (2.0 * m) == q / 2.0;
    Flip(p, q);
    LowerEnd(p, q, h);
    LowerEnd(1.0 - p, q, h);
    var c := p + q / 2.0;
    var d := 1.0 + q;
    assert (1.0 - p) * d == d - p * d;
    Quotients(c - h, p, c + h, d);
  }

  lemma Flip(p: real, q: real)
    ensures q * (p * (1.0 - p) + q / 4.0) == q * ((1.0 - p) * (1.0 - (1.0 - p)) + q / 4.0)
  {
    assert p * (1.0 - p) == (1.0 - p) * (1.0 - (1.0 - p));
  }

  lemma HalfWidth(p: real, m: real, root: real)
    requires m > 0.0 && root * root == Radicand(p, m)
    ensures var q := Z * Z / m;
            (Z * root) * (Z * root) == q * (p * (1.0 - p) + q / 4.0)
  {
    var v := p * (1.0 - p);
    var q := Z * Z / m;
    assert Z * Z / (4.0 * m) == q / 4.0;
    var r := (v + q / 4.0) / m;
    assert root * root == r;
    Regroup(Z, root);
    Swap(v + q / 4.0, m);
  }

  lemma Swap(x: real, m: real)
    requires m > 0.0
    ensures (Z * Z) * (x / m) == (Z * Z / m) * x
  {}

  /** On sound counters no opportunity is violated twice, so the avoidance interval of any pooled pair is
      defined and contains the share of opportunities that were kept. */
  lemma {:induction false} AvoidanceInterval(a: Tallies.Acc, opp: Tallies.Key, viol: Tallies.Key) returns (kept: nat)
    requires Tallies.Sound(a) && Tallies.TotalOf(viol) == Some(opp) && a[opp] > 0
    ensures kept + a[viol] == a[opp]
    ensures forall root :: IsRoot(root, kept, a[opp]) ==>
              0.0 <= WilsonOf(kept, a[opp], root).low
              <= WilsonOf(kept, a[opp], root).rate
              <= WilsonOf(kept, a[opp], root).high <= 1.0
  {
    hide WilsonOf, IsRoot, Share, Tallies.TotalOf, Tallies.AddsUp;
    assert a[viol] <= a[opp];
    kept := a[opp] - a[viol];
    forall root | IsRoot(root, kept, a[opp])
      ensures 0.0 <= WilsonOf(kept, a[opp], root).low <= WilsonOf(kept, a[opp], root).rate
                  <= WilsonOf(kept, a[opp], root).high <= 1.0
    {
      WilsonContainsRate(kept, a[opp], root);
    }
  }
}
