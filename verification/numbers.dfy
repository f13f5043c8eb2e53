/** Quotients, remainders and greatest common divisors, and which residues a repeated step reaches. */
module Numbers {

  function Min(a: nat, b: nat): nat {
    if a <= b then a else b
  }

  lemma MulLe(a: int, b: int, c: nat)
    requires a <= b
    ensures a * c <= b * c
  {}

  lemma DivModUnique(a: int, m: int, q: int, r: int)
    requires 0 <= r < m && a == q * m + r
    ensures a / m == q && a % m == r
  {
    var d := a / m - q;
    assert d * m == r - a % m by {
      assert d * m == a / m * m - q * m;
    }
    if d > 0 {
      AtLeast(d, m);
    } else if d < 0 {
      AtLeast(-d, m);
    }
  }

  lemma AtLeast(d: int, m: int)
    requires d > 0 && m > 0
    ensures d * m >= m
  {}

  lemma ModStep(a: int, k: int, m: int)
    requires m > 0
    ensures (a + k * m) % m == a % m
  {
    assert a == a / m * m + a % m;
    assert (a / m + k) * m == a / m * m + k * m;
    DivModUnique(a + k * m, m, a / m + k, a % m);
  }

  lemma ModSum(a: int, b: int, m: int)
    requires m > 0 && a % m == 0
    ensures (a + b) % m == b % m
  {
    ModStep(b, a / m, m);
    assert a == a / m * m;
  }

  lemma ModProduct(a: int, k: int, m: int)
    requires m > 0 && a % m == 0
    ensures (k * a) % m == 0
  {
    ModStep(0, k * (a / m), m);
    assert a == a / m * m;
    assert k * a == k * (a / m) * m;
  }

  lemma QuotientRemainder(x: int, m: int)
    requires m > 0
    ensures x == x / m * m + x % m
  {}

  /** The ceiling of n / m is the least factor that covers n. */
  lemma CeilingLeast(n: nat, m: nat, k: nat)
    requires m > 0
    ensures var q := (n + m - 1) / m; n <= q * m && (n <= k * m ==> q * m <= k * m)
  {
    var q := (n + m - 1) / m;
    QuotientRemainder(n + m - 1, m);
    if q > k {
      MulLe(k + 1, q, m);
    }
    MulLe(q, if q <= k then k else q, m);
  }

  lemma CeilingIs(n: nat, m: nat)
    requires m > 0
    ensures (n + m - 1) / m * m == n + if n % m == 0 then 0 else m - n % m
  {
    var q, r := n / m, n % m;
    QuotientRemainder(n, m);
    if r == 0 {
      DivModUnique(n + m - 1, m, q, m - 1);
    } else {
      DivModUnique(n + m - 1, m, q + 1, r - 1);
    }
  }

  /** Multiples of g less than g apart are in order. */
  lemma NextMultiple(a: int, b: int, g: nat)
    requires g > 0 && a % g == 0 && b % g == 0 && a < b + g
    ensures a <= b
  {
    QuotientRemainder(a, g);
    QuotientRemainder(b, g);
    NextTimes(a / g, b / g, g);
  }

  lemma NextTimes(m: int, n: int, g: nat)
    requires m * g < n * g + g
    ensures m * g <= n * g
  {
    if m > n {
      MulLe(n + 1, m, g);
    }
  }

  lemma RoundUp(n: nat, g: nat) returns (m: nat)
    requires g > 0
    ensures m % g == 0 && n <= m < n + g
  {
    var k := (n + g - 1) / g;
    m := k * g;
    assert n + g - 1 == k * g + (n + g - 1) % g;
    DivModUnique(m, g, k, 0);
  }

  function Gcd(a: nat, b: nat): nat
    decreases b
  {
    if b == 0 then a else Gcd(b, a % b)
  }

  /** The divisor divides both numbers and is a combination of them. */
  lemma {:induction false} GcdCombination(a: nat, b: nat) returns (s: int, v: int)
    requires a > 0
    ensures var g := Gcd(a, b); 0 < g <= a && a % g == 0 && b % g == 0 && s * a + v * b == g
    decreases b
  {
    if b == 0 {
      s, v := 1, 0;
    } else {
      var q, r := a / b, a % b;
      assert a == q * b + r;
      var s', v' := GcdCombination(b, r);
      var g := Gcd(b, r);
      ModProduct(b, q, g);
      ModSum(q * b, r, g);
      s, v := v', s' - v' * q;
      Combine(a, b, q, r, s', v');
      DivisorSmall(a, g);
    }
  }

  lemma GcdDivides(a: nat, b: nat)
    requires a > 0 || b > 0
    ensures Gcd(a, b) > 0 && a % Gcd(a, b) == 0 && b % Gcd(a, b) == 0
  {
    if a > 0 {
      var s, v := GcdCombination(a, b);
    } else {
      assert Gcd(0, b) == Gcd(b, 0 % b) == b;
    }
  }

  lemma DivisorSmall(a: nat, g: nat)
    requires a > 0 && g > 0 && a % g == 0
    ensures g <= a
  {}

  lemma Combine(a: nat, b: nat, q: int, r: int, s: int, v: int)
    requires a == q * b + r
    ensures v * a + (s - v * q) * b == s * b + v * r
  {
    assert v * a == v * (q * b) + v * r;
    assert (s - v * q) * b == s * b - v * q * b;
    assert v * (q * b) == v * q * b;
  }

  /** Steps of b, taken modulo a + b, lead from d to every number below a + b that Gcd(a, b) allows. */
  lemma ReachResidue(a: nat, b: nat, d: int, r: nat) returns (k: nat)
    requires a > 0 && r < a + b
    requires Gcd(a, b) > 0 ==> (r - d) % Gcd(a, b) == 0
    ensures (d + k * b) % (a + b) == r
  {
    var g, m := Gcd(a, b), a + b;
    var s, v := GcdCombination(a, b);
    hide Gcd;
    var y, w := (r - d) / g, v - s;
    assert r - d == y * g;
    Expand(a, b, s, v);
    k := y * w % m;
    var z := y * w / m;
    QuotientRemainder(y * w, m);
    Regroup(d, r, k, b, m, y, s, w, z, g);
    DivModUnique(d + k * b, m, -(z * b + y * s), r);
  }

  lemma Expand(a: int, b: int, s: int, v: int)
    ensures s * a + v * b == s * (a + b) + (v - s) * b
  {}

  lemma Regroup(d: int, r: int, k: int, b: int, m: int, y: int, s: int, w: int, z: int, g: int)
    requires r - d == y * g && g == s * m + w * b && y * w == z * m + k
    ensures d + k * b == -(z * b + y * s) * m + r
  {
    assert y * g == y * (s * m) + y * (w * b);
    assert y * (w * b) == (y * w) * b;
    assert (z * m + k) * b == z * m * b + k * b;
    assert z * m * b == z * b * m;
    assert y * (s * m) == y * s * m;
    assert (z * b + y * s) * m == z * b * m + y * s * m;
    assert -(z * b + y * s) * m == -((z * b + y * s) * m);
  }
}
