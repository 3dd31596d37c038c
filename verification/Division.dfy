/** Quotients, remainders and powers of two of natural numbers. */
module Division {
  lemma MulMonotone(a: nat, b: nat, d: nat)
    ensures a <= b ==> a * d <= b * d
  {
    if a <= b {
      assert b * d == a * d + (b - a) * d;
    }
  }

  function Product(a: nat, b: nat): nat {
    MulMonotone(0, a, b);
    a * b
  }

  function Quot(a: nat, b: nat): nat
    requires b > 0
  {
    a / b
  }

  function Rem(a: nat, b: nat): nat
    requires b > 0
  {
    a % b
  }

  lemma MulAssoc(a: nat, b: nat, c: nat)
    ensures a * b * c == a * (b * c) == a * (c * b)
  {
  }

  lemma MulAdd(a: nat, b: nat, d: nat)
    ensures (a + b) * d == a * d + b * d
  {
  }

  /** A quotient and remainder that fit are the quotient and remainder. */
  lemma DivUnique(n: nat, d: nat, q: nat, r: nat)
    requires d > 0 && n == q * d + r && r < d
    ensures n / d == q && n % d == r
  {
    var q', r' := n / d, n % d;
    assert n == q' * d + r';
    MulMonotone(q' + 1, q, d);
    MulMonotone(q + 1, q', d);
  }

  lemma DivStep(n: nat, d: nat)
    requires d > 0
    ensures (n + d) / d == n / d + 1
  {
    assert n + d == (n / d + 1) * d + n % d;
    DivUnique(n + d, d, n / d + 1, n % d);
  }

  /** Dividing twice is dividing by the product. */
  lemma DivDiv(n: nat, a: nat, c: nat)
    requires a > 0 && c > 0
    ensures a * c > 0 && n / a / c == n / (a * c)
  {
    var q, r := n / a, n % a;
    var q', r' := q / c, q % c;
    MulAdd(q' * c, r', a);
    MulAssoc(q', c, a);
    assert n == q' * (a * c) + (r' * a + r);
    MulMonotone(r' + 1, c, a);
    MulAdd(r', 1, a);
    MulMonotone(1, c, a);
    DivUnique(n, a * c, q', r' * a + r);
  }

  lemma HalveMod(x: nat, p: nat)
    requires p > 0
    ensures x % (2 * p) == 2 * (x / 2 % p) + x % 2
  {
    var q, r := x / 2 / p, x / 2 % p;
    MulAssoc(q, p, 2);
    assert x == q * (2 * p) + (2 * r + x % 2);
    DivUnique(x, 2 * p, q, 2 * r + x % 2);
  }

  lemma MulSign(x: int, d: int)
    requires d > 0
    ensures x >= 1 ==> x * d >= d
    ensures x <= -1 ==> x * d <= -d
  {
    if x >= 1 {
      MulMonotone(1, x, d);
    } else if x <= -1 {
      MulMonotone(1, -x, d);
      assert (-x) * d == -(x * d);
    }
  }

  /** Floor division of a possibly negative number by a positive one. */
  lemma FloorUnique(n: int, d: nat, q: int, r: nat)
    requires d > 0 && n == q * d + r && r < d
    ensures n / d == q && n % d == r
  {
    var q', r' := n / d, n % d;
    assert n == q' * d + r';
    var e := q' - q;
    assert e * d == q' * d - q * d;
    MulSign(e, d);
  }

  /** Splitting a product p * t: the quotient and the remainder of h by p, seen after multiplying by t. */
  lemma SplitProduct(h: nat, p: nat, t: nat)
    requires p > 0 && t > 0
    ensures h * t == (h / p) * (p * t) + (h % p) * t
    ensures (h % p) * t + t <= p * t
    ensures (h % p) * t < p * t
  {
    var q, r := h / p, h % p;
    MulAdd(q * p, r, t);
    MulAssoc(q, p, t);
    MulMonotone(r + 1, p, t);
    MulAdd(r, 1, t);
  }

  /** The same, with the products named. */
  lemma SplitNamed(h: nat, p: nat, t: nat, w: nat, n: nat, s: nat)
    requires p > 0 && t > 0 && w == p * t && n == h * t && s == (h % p) * t
    ensures w > 0 && s + t <= w && n % w == s
  {
    SplitProduct(h, p, t);
    DivUnique(n, w, h / p, s);
  }

  /** A quotient by p of a number below p * t is below t. */
  lemma QuotientBound(n: nat, p: nat, t: nat)
    requires p > 0 && n < p * t
    ensures n / p < t
  {
    MulMonotone(t, n / p, p);
    assert t * p == p * t;
  }

  /** (h * w + l) / p, where w is p * t: h moves up by t and the top of l fills in. */
  lemma ShiftDown(h: nat, l: nat, p: nat, t: nat, w: nat, n: nat)
    requires p > 0 && w == p * t && n == h * t
    ensures (h * w + l) / p == n + l / p
  {
    MulAssoc(h, t, p);
    MulAdd(n, l / p, p);
    assert h * w + l == (n + l / p) * p + l % p;
    DivUnique(h * w + l, p, n + l / p, l % p);
  }

  /** Shifting left within a word of p * t values keeps the low part of h, on top. */
  lemma TopBits(h: nat, p: nat, t: nat)
    requires p > 0 && t > 0
    ensures p * t > 0 && h * t % (p * t) == (h % p) * t
  {
    SplitNamed(h, p, t, p * t, h * t, (h % p) * t);
  }

  lemma ModSum(n: nat, u: nat, w: nat, s: nat, t: nat)
    requires w > 0 && n % w == s && u < t && s + t <= w
    ensures (n + u) % w == s + u
  {
    DivUnique(n + u, w, n / w, s + u);
  }

  /** Shifting a two-word number right, reduced to a word of w values: the top of l, below the low part of h. */
  lemma ShiftReduced(h: nat, l: nat, p: nat, t: nat, w: nat, s: nat, u: nat)
    requires p > 0 && t > 0 && w == p * t && l < w && s == (h % p) * t && u == l / p
    ensures w > 0 && (h * w + l) / p % w == s + u
    ensures u < t && s + t <= w
  {
    var n := h * t;
    QuotientBound(l, p, t);
    SplitNamed(h, p, t, w, n, s);
    ModSum(n, u, w, s, t);
    ShiftDown(h, l, p, t, w, n);
  }
}
