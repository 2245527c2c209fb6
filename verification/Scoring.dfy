/** The wallet-age score, in fixed-point arithmetic with two floor divisions. */
module WalletAge {
  const SCALE: int := 1_000_000_000
  const THRESHOLD_MS: int := 90 * 24 * 60 * 60 * 1000

  function Max(a: int, b: int): int { if a < b then b else a }

  /** The age in thresholds, times the scale. */
  function Thresholds(ageMs: int): nat { Max(0, ageMs) * SCALE / THRESHOLD_MS }

  /** x / (1 + x), times the scale. */
  function Saturate(x: nat): nat { x * SCALE / (SCALE + x) }

  function Scaled(ageMs: int): nat { Saturate(Thresholds(ageMs)) }

  /** The score as the caller gets it. */
  function Score(ageMs: int): real { Scaled(ageMs) as real / SCALE as real }

  lemma LessFromProducts(a: int, b: int, d: int)
    requires d > 0 && a * d < b * d
    ensures a < b
  {
  }

  lemma FloorBounds(n: int, d: int)
    requires d > 0
    ensures n / d * d <= n < (n / d + 1) * d
  {
    assert (n / d + 1) * d == n / d * d + d;
  }

  lemma FloorAtLeast(n: int, d: int, q: int)
    requires d > 0 && q * d <= n
    ensures q <= n / d
  {
    FloorBounds(n, d);
    LessFromProducts(q, n / d + 1, d);
  }

  lemma SaturateBelowScale(x: nat)
    ensures Saturate(x) < SCALE
  {
    FloorBounds(x * SCALE, SCALE + x);
    LessFromProducts(Saturate(x), SCALE, SCALE + x);
  }

  lemma SaturateBounds(x: nat)
    ensures Saturate(x) < SCALE
    ensures Saturate(x) * SCALE <= x * (SCALE - Saturate(x))
    ensures x * SCALE < (Saturate(x) + 1) * (SCALE + x)
  {
    var y := Saturate(x);
    SaturateBelowScale(x);
    FloorBounds(x * SCALE, SCALE + x);
    assert y * (SCALE + x) == y * SCALE + x * y;
    assert x * (SCALE - y) == x * SCALE - x * y;
  }

  lemma SaturateMonotone(x: nat, z: nat)
    requires x <= z
    ensures Saturate(x) <= Saturate(z)
  {
    var y := Saturate(x);
    FloorBounds(x * SCALE, SCALE + x);
    SaturateBelowScale(x);
    assert y * (SCALE + x) == y * SCALE + y * x;
    assert x * (SCALE - y) <= z * (SCALE - y);
    assert y * (SCALE + z) <= z * SCALE by {
      assert y * (SCALE + z) == y * SCALE + y * z;
      assert z * (SCALE - y) == z * SCALE - z * y;
      assert x * (SCALE - y) == x * SCALE - x * y;
    }
    FloorAtLeast(z * SCALE, SCALE + z, y);
  }

  /** The score never falls with age. */
  lemma ScoreMonotone(a: int, b: int)
    requires a <= b
    ensures Score(a) <= Score(b)
  {
    var p, q := Max(0, a), Max(0, b);
    FloorBounds(p * SCALE, THRESHOLD_MS);
    FloorAtLeast(q * SCALE, THRESHOLD_MS, Thresholds(a));
    SaturateMonotone(Thresholds(a), Thresholds(b));
  }

  /** The score is in [0, 1), and one half at the threshold. */
  lemma ScoreRange(ageMs: int)
    ensures 0.0 <= Score(ageMs) < 1.0
    ensures Score(THRESHOLD_MS) == 0.5
  {
    SaturateBelowScale(Thresholds(ageMs));
    assert Thresholds(THRESHOLD_MS) == SCALE;
    assert Scaled(THRESHOLD_MS) == SCALE / 2;
  }

  /** Two floors lose less than two units of the scale, and never gain: over the integers. */
  lemma FloorsCostLessThanTwo(a: nat)
    ensures Scaled(a) * (a + THRESHOLD_MS) <= a * SCALE < (Scaled(a) + 2) * (a + THRESHOLD_MS)
  {
    var x := Thresholds(a);
    var y := Saturate(x);
    FloorBounds(a * SCALE, THRESHOLD_MS);
    SaturateBounds(x);
    NeverGains(a, x, y);
    LosesLessThanTwo(a, x, y);
  }

  lemma NeverGains(a: nat, x: nat, y: nat)
    requires y < SCALE && x * THRESHOLD_MS <= a * SCALE && y * SCALE <= x * (SCALE - y)
    ensures y * (a + THRESHOLD_MS) <= a * SCALE
  {
    var rest := SCALE - y;
    assert x * THRESHOLD_MS * rest <= a * SCALE * rest;
    assert x * THRESHOLD_MS * rest == (x * rest) * THRESHOLD_MS;
    assert a * SCALE * rest == (a * rest) * SCALE;
    assert y * SCALE * THRESHOLD_MS <= (a * rest) * SCALE;
    assert y * THRESHOLD_MS <= a * rest;
    assert a * rest == a * SCALE - a * y;
  }

  lemma LosesLessThanTwo(a: nat, x: nat, y: nat)
    requires y < SCALE && a * SCALE < (x + 1) * THRESHOLD_MS && x * SCALE < (y + 1) * (SCALE + x)
    ensures a * SCALE < (y + 2) * (a + THRESHOLD_MS)
  {
    var rest := SCALE - y - 2;
    SaturatedRest(SCALE, x, y);
    if rest > 0 {
      ScaledRest(SCALE, THRESHOLD_MS, a, x, y, rest);
    } else {
      ProductSign(a, rest);
    }
    assert (y + 2) * (a + THRESHOLD_MS) == (y + 2) * THRESHOLD_MS + a * (y + 2);
    assert a * SCALE == a * rest + a * (y + 2);
  }

  lemma ProductSign(a: nat, rest: int)
    requires rest <= 0
    ensures a * rest <= 0
  {
  }

  lemma SaturatedRest(s: int, x: nat, y: nat)
    requires x * s < (y + 1) * (s + x)
    ensures (x + 1) * (s - y - 2) < (y + 2) * s
  {
    assert (y + 1) * (s + x) == y * s + s + x * y + x;
    assert (x + 1) * (s - y - 2) == x * s - x * y - 2 * x + s - y - 2;
    assert (y + 2) * s == y * s + 2 * s;
  }

  lemma ScaledRest(s: int, t: int, a: nat, x: nat, y: nat, rest: int)
    requires s > 0 && t > 0 && rest > 0
    requires a * s < (x + 1) * t && (x + 1) * rest < (y + 2) * s
    ensures a * rest < (y + 2) * t
  {
    ProductsLess(a * s, (x + 1) * t, rest);
    ProductsLess((x + 1) * rest, (y + 2) * s, t);
    Reorder(a, s, rest);
    Reorder(x + 1, t, rest);
    Reorder(y + 2, s, t);
    LessFromProducts(a * rest, (y + 2) * t, s);
  }

  lemma ProductsLess(a: int, b: int, d: int)
    requires a < b && d > 0
    ensures a * d < b * d
  {
  }

  lemma Reorder(a: int, b: int, c: int)
    ensures (a * b) * c == (a * c) * b
  {
  }

  /** The score lies below the exact ratio age / (age + threshold), by less than 2 / SCALE. */
  lemma ScoreError(a: nat)
    ensures var exact := a as real / (a + THRESHOLD_MS) as real;
            Score(a) <= exact < Score(a) + 2.0 / SCALE as real
  {
    FloorsCostLessThanTwo(a);
    var y, n, d := Scaled(a) as real, a as real, (a + THRESHOLD_MS) as real;
    assert y * d <= n * SCALE as real < (y + 2.0) * d by {
      assert (Scaled(a) * (a + THRESHOLD_MS)) as real == y * d;
      assert (a * SCALE) as real == n * SCALE as real;
      assert ((Scaled(a) + 2) * (a + THRESHOLD_MS)) as real == (y + 2.0) * d;
    }
    CrossMultiply(y, n, d, SCALE as real);
  }

  lemma CrossMultiply(y: real, n: real, d: real, s: real)
    requires d > 0.0 && s > 0.0 && y * d <= n * s < (y + 2.0) * d
    ensures y / s <= n / d < y / s + 2.0 / s
  {
    Divide(y, n, s, d);
    DivideStrictly(n, y + 2.0, d, s);
    assert (y + 2.0) / s == y / s + 2.0 / s;
  }

  lemma Divide(a: real, b: real, s: real, d: real)
    requires s > 0.0 && d > 0.0 && a * d <= b * s
    ensures a / s <= b / d
  {
    assert a / s * s == a && b / d * d == b;
    assert (b / d - a / s) * (s * d) == b / d * d * s - a / s * s * d;
    assert (b / d - a / s) * (s * d) >= 0.0;
  }

  lemma DivideStrictly(a: real, b: real, s: real, d: real)
    requires s > 0.0 && d > 0.0 && a * d < b * s
    ensures a / s < b / d
  {
    assert a / s * s == a && b / d * d == b;
    assert (b / d - a / s) * (s * d) == b / d * d * s - a / s * s * d;
    assert (b / d - a / s) * (s * d) > 0.0;
  }
}

/** The rollout bucket of a percentage flag: a 32-bit rolling hash of user and key. */
module StableHash {
  /** A UTF-16 code unit, as `charCodeAt` returns it. */
  type CodeUnit = c: int | 0 <= c < 0x1_0000

  const TWO_32: int := 0x1_0000_0000
  const TWO_31: int := 0x8000_0000

  /** The signed 32-bit integer congruent to `x`. */
  function ToInt32(x: int): int { (x + TWO_31) % TWO_32 - TWO_31 }

  function Pow31(n: nat): int { if n == 0 then 1 else 31 * Pow31(n - 1) }

  /** The sum of s[i] * 31^(|s| - 1 - i). */
  function Polynomial(s: seq<CodeUnit>): int {
    if s == [] then 0 else s[0] * Pow31(|s| - 1) + Polynomial(s[1..])
  }

  lemma {:induction false} PolynomialSnoc(s: seq<CodeUnit>, c: CodeUnit)
    ensures Polynomial(s + [c]) == 31 * Polynomial(s) + c
  {
    if s == [] {
      assert s + [c] == [c] && [c][1..] == [];
    } else {
      assert (s + [c])[0] == s[0] && (s + [c])[1..] == s[1..] + [c];
      PolynomialSnoc(s[1..], c);
      assert s[0] * Pow31(|s|) == 31 * (s[0] * Pow31(|s| - 1));
    }
  }

  lemma ToInt32Congruent(x: int, k: int)
    ensures ToInt32(x + k * TWO_32) == ToInt32(x)
  {
    ModShift(x + TWO_31, k);
    assert x + k * TWO_32 + TWO_31 == x + TWO_31 + k * TWO_32;
  }

  lemma {:induction false} ModShift(x: int, k: int)
    ensures (x + k * TWO_32) % TWO_32 == x % TWO_32
    decreases if k < 0 then -k else k
  {
    if k > 0 {
      ModShift(x, k - 1);
      assert x + k * TWO_32 == x + (k - 1) * TWO_32 + TWO_32;
    } else if k < 0 {
      ModShift(x, k + 1);
      assert x + k * TWO_32 == x + (k + 1) * TWO_32 - TWO_32;
    }
  }

  lemma ToInt32Multiple(x: int) returns (k: int)
    ensures ToInt32(x) == x + k * TWO_32
    ensures -TWO_31 <= ToInt32(x) < TWO_31
  {
    k := -((x + TWO_31) / TWO_32);
  }

  /** One turn of the loop: shift by five with wrap-around, subtract, add, truncate. */
  function Turn(hash: int, c: CodeUnit): int { ToInt32(ToInt32(hash * 32) - hash + c) }

  lemma TurnIsHorner(p: int, c: CodeUnit)
    ensures Turn(ToInt32(p), c) == ToInt32(31 * p + c)
  {
    var h := ToInt32(p);
    var k := ToInt32Multiple(p);
    var l := ToInt32Multiple(h * 32);
    assert ToInt32(h * 32) - h + c == 31 * p + c + (31 * k + l) * TWO_32;
    ToInt32Congruent(31 * p + c, 31 * k + l);
  }

  function Abs(x: int): nat { if x < 0 then -x else x }

  /** The loop computes the 32-bit representative of the polynomial, and returns its absolute value. */
  method Hash(input: seq<CodeUnit>) returns (result: nat)
    ensures result == Abs(ToInt32(Polynomial(input)))
    ensures var h := ToInt32(Polynomial(input)); (h >= 0 ==> result == h) && (h < 0 ==> result == -h)
    ensures result <= TWO_31
  {
    var hash := 0;
    for i := 0 to |input|
      invariant hash == ToInt32(Polynomial(input[..i]))
    {
      assert input[..i + 1] == input[..i] + [input[i]];
      PolynomialSnoc(input[..i], input[i]);
      TurnIsHorner(Polynomial(input[..i]), input[i]);
      var shifted := ToInt32(hash * 32);
      hash := shifted - hash + input[i];
      hash := ToInt32(hash);
    }
    assert input[..|input|] == input;
    ghost var k := ToInt32Multiple(Polynomial(input));
    result := Abs(hash);
  }

  const COLON: CodeUnit := 58

  function BucketOf(user: seq<CodeUnit>, key: seq<CodeUnit>): nat {
    Abs(ToInt32(Polynomial(user + [COLON] + key))) % 100
  }

  /** The bucket of a one-character user and key: user "a" and key "b" hash as "a:b", to 95113, and fall into bucket 13. */
  lemma ShortBucket(u: CodeUnit, k: CodeUnit)
    ensures BucketOf([u], [k]) == (961 * u + 31 * 58 + k) % 100
    ensures u == 97 && k == 98 ==> BucketOf([u], [k]) == 13
  {
    assert Polynomial([u]) == u by { assert [u][1..] == []; }
    PolynomialSnoc([u], 58);
    PolynomialSnoc([u] + [58], k);
    assert Polynomial([u] + [58] + [k]) == 961 * u + 31 * 58 + k;
  }

  /** The percentage rule of a flag: user and key, joined by a colon, hash to one of a hundred buckets. */
  method EvaluatePercentage(user: seq<CodeUnit>, key: seq<CodeUnit>, rolloutPercentage: int) returns (enabled: bool)
    ensures enabled <==> BucketOf(user, key) < rolloutPercentage
    ensures enabled <==> Abs(ToInt32(Polynomial(user + [58] + key))) % 100 < rolloutPercentage
    ensures (rolloutPercentage <= 0 ==> !enabled) && (rolloutPercentage >= 100 ==> enabled)
  {
    var hash := Hash(user + [COLON] + key);
    var bucket := hash % 100;
    enabled := bucket < rolloutPercentage;
  }
}
