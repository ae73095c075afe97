/**
 * Modular arithmetic on mathematical integers: the BN_mod_* operations used by
 * jpake.c and schnorr.c, and the facts about subgroups of prime order they rest on.
 */
module NumberTheory {
  /** BN_mod_mul */
  function ModMul(a: int, b: int, m: int): (r: int)
    requires m > 0
    ensures 0 <= r < m
  {
    a * b % m
  }

  /** BN_mod_exp */
  function ModExp(b: int, e: nat, m: int): (r: int)
    requires m > 1
    ensures 0 <= r < m
  {
    if e == 0 then 1 else ModMul(b, ModExp(b, e - 1, m), m)
  }

  ghost predicate Prime(q: int) {
    q > 1 && forall d :: 1 < d < q ==> q % d != 0
  }

  lemma PrimeAboveOne(q: int)
    requires Prime(q)
    ensures q > 1
  {
  }

  // ----- Remainders

  lemma MulAtLeast(d: int, m: int)
    requires m > 0
    ensures d >= 1 ==> d * m >= m
  {
  }

  /** Quotient and remainder are unique. */
  lemma ModUnique(n: int, m: int, q: int, r: int)
    requires m > 0 && n == q * m + r && 0 <= r < m
    ensures n % m == r && n / m == q
  {
    var d := n / m - q;
    calc {
      d * m;
      n / m * m - q * m;
      r - n % m;
    }
    MulAtLeast(d, m);
    MulAtLeast(-d, m);
  }

  /** Adding a multiple of the modulus changes nothing. */
  lemma ModShift(n: int, k: int, m: int)
    requires m > 0
    ensures (n + k * m) % m == n % m
  {
    var q, r := n / m, n % m;
    assert n + k * m == (q + k) * m + r by {
      assert (q + k) * m == q * m + k * m;
    }
    ModUnique(n + k * m, m, q + k, r);
  }

  lemma ModDiff(a: int, b: int, m: int)
    requires m > 0
    ensures a % m == b % m <==> (a - b) % m == 0
  {
    if a % m == b % m {
      assert a - b == 0 + (a / m - b / m) * m by {
        assert (a / m - b / m) * m == a / m * m - b / m * m;
      }
      ModShift(0, a / m - b / m, m);
    }
    if (a - b) % m == 0 {
      assert a == b + (a - b) / m * m;
      ModShift(b, (a - b) / m, m);
    }
  }

  /** A factor may be reduced first. */
  lemma MulMod(a: int, b: int, m: int)
    requires m > 0
    ensures a % m * b % m == a * b % m && b * (a % m) % m == b * a % m
  {
    assert a % m * b == a * b + (-(a / m) * b) * m by {
      assert a % m == a - a / m * m;
      assert (a - a / m * m) * b == a * b - (a / m * b) * m;
    }
    ModShift(a * b, -(a / m) * b, m);
  }

  lemma AddMod(a: int, b: int, m: int)
    requires m > 0
    ensures (a % m + b) % m == (a + b) % m
  {
    assert a % m + b == a + b + -(a / m) * m;
    ModShift(a + b, -(a / m), m);
  }

  lemma ModMulAssoc(a: int, b: int, c: int, m: int)
    requires m > 0
    ensures ModMul(ModMul(a, b, m), c, m) == a * b * c % m == ModMul(a, ModMul(b, c, m), m)
  {
    MulMod(a * b, c, m);
    MulMod(b * c, a, m);
    MulAssoc(a, b, c);
  }

  lemma MulAssoc(a: int, b: int, c: int)
    ensures a * (b * c) == a * b * c
  {
  }

  // ----- Powers

  lemma {:induction false} ExpAdd(b: int, i: nat, j: nat, m: int)
    requires m > 1
    ensures ModExp(b, i + j, m) == ModMul(ModExp(b, i, m), ModExp(b, j, m), m)
  {
    if i == 0 {
      ModUnique(ModExp(b, j, m), m, 0, ModExp(b, j, m));
    } else {
      ExpAdd(b, i - 1, j, m);
      ModMulAssoc(b, ModExp(b, i - 1, m), ModExp(b, j, m), m);
    }
  }

  lemma {:induction false} ExpMul(b: int, i: nat, j: nat, m: int)
    requires m > 1
    ensures i * j >= 0 && ModExp(ModExp(b, i, m), j, m) == ModExp(b, i * j, m)
  {
    if j != 0 {
      ExpMul(b, i, j - 1, m);
      assert i * j == i + i * (j - 1);
      ExpAdd(b, i, i * (j - 1), m);
    }
  }

  lemma {:induction false} ExpBaseMod(b: int, e: nat, m: int)
    requires m > 1
    ensures ModExp(b % m, e, m) == ModExp(b, e, m)
  {
    if e != 0 {
      ExpBaseMod(b, e - 1, m);
      MulMod(b, ModExp(b, e - 1, m), m);
    }
  }

  lemma {:induction false} ExpOne(e: nat, m: int)
    requires m > 1
    ensures ModExp(1, e, m) == 1
  {
    if e != 0 {
      ExpOne(e - 1, m);
      ModUnique(1, m, 0, 1);
    }
  }

  // ----- Prime order

  /** `b` generates a subgroup whose order divides `q`. */
  predicate InSubgroup(b: int, q: nat, m: int)
    requires m > 1
  {
    ModExp(b, q, m) == 1
  }

  /** In such a subgroup exponents count modulo `q`. */
  lemma ExpReduce(b: int, e: nat, q: nat, m: int)
    requires m > 1 && q > 0 && InSubgroup(b, q, m)
    ensures ModExp(b, e, m) == ModExp(b, e % q, m)
  {
    var k, r := e / q, e % q;
    assert e == q * k + r;
    ExpMul(b, q, k, m);
    ExpOne(k, m);
    ExpAdd(b, q * k, r, m);
    ModUnique(ModExp(b, r, m), m, 0, ModExp(b, r, m));
  }

  lemma ExpCongruent(b: int, i: nat, j: nat, q: nat, m: int)
    requires m > 1 && q > 0 && InSubgroup(b, q, m) && i % q == j % q
    ensures ModExp(b, i, m) == ModExp(b, j, m)
  {
    ExpReduce(b, i, q, m);
    ExpReduce(b, j, q, m);
  }

  /** Euclid's lemma, by descent through the remainders of `q`. */
  lemma {:induction false} EuclidDescent(q: int, n: int, y: int)
    requires Prime(q) && 0 < n < q && n * y % q == 0
    ensures y % q == 0
    decreases n
  {
    if n != 1 {
      var k, t := q / n, q % n;
      assert t * y == 0 + (y - k * (n * y / q)) * q by {
        assert n * y == n * y / q * q;
        assert t * y == q * y - k * (n * y) by { assert t == q - k * n; }
        assert k * (n * y / q * q) == k * (n * y / q) * q;
      }
      ModShift(0, y - k * (n * y / q), q);
      EuclidDescent(q, t, y);
    }
  }

  lemma MultipleOf(x: int, y: int, q: int)
    requires q > 0 && x % q == 0
    ensures x * y % q == 0 && y * x % q == 0
  {
    MulMod(x, y, q);
    assert x % q * y == 0;
  }

  lemma EuclidLemma(q: int, x: int, y: int)
    requires Prime(q)
    ensures x * y % q == 0 <==> x % q == 0 || y % q == 0
  {
    if x % q == 0 {
      MultipleOf(x, y, q);
    } else if y % q == 0 {
      MultipleOf(y, x, q);
    } else if x * y % q == 0 {
      MulMod(x, y, q);
      EuclidDescent(q, x % q, y);
    }
  }

  /** Modulo a prime everything but zero has an inverse, found by the same descent. */
  lemma {:induction false} InverseBelow(q: int, n: int) returns (i: nat)
    requires Prime(q) && 0 < n < q
    ensures n * i % q == 1
    decreases n
  {
    if n == 1 {
      i := 1;
      ModUnique(1, q, 0, 1);
    } else {
      var k, t := q / n, q % n;
      var j := InverseBelow(q, t);
      i := -(k * j) % q;
      assert n * -(k * j) == t * j + -j * q by {
        assert t == q - k * n;
        assert t * j == q * j - k * n * j;
      }
      MulMod(-(k * j), n, q);
      ModShift(t * j, -j, q);
    }
  }

  lemma Inverse(q: int, n: int) returns (i: nat)
    requires Prime(q) && n % q != 0
    ensures n * i % q == 1
  {
    i := InverseBelow(q, n % q);
    MulMod(n, i, q);
  }

  /** A power below the prime order that is 1 forces the base itself to be 1. */
  lemma {:induction false} OrderDescent(b: int, q: int, n: nat, m: int)
    requires m > 1 && Prime(q) && InSubgroup(b, q, m) && 0 < n < q && ModExp(b, n, m) == 1
    ensures b % m == 1
    decreases n
  {
    if n == 1 {
      assert ModExp(b, 1, m) == ModMul(b, ModExp(b, 0, m), m);
    } else {
      ExpReduce(b, q, n, m);
      OrderDescent(b, q, q % n, m);
    }
  }

  /** An element other than 1 of a subgroup of prime order has exactly that order. */
  lemma ExpIsOne(b: int, q: int, e: nat, m: int)
    requires m > 1 && Prime(q) && InSubgroup(b, q, m) && b % m != 1
    ensures ModExp(b, e, m) == 1 <==> e % q == 0
  {
    ExpReduce(b, e, q, m);
    if ModExp(b, e % q, m) == 1 && e % q != 0 {
      OrderDescent(b, q, e % q, m);
    }
  }

  /** Discrete logarithms are unique modulo the order. */
  lemma ExpEqual(b: int, q: int, i: nat, j: nat, m: int)
    requires m > 1 && Prime(q) && InSubgroup(b, q, m) && b % m != 1
    ensures ModExp(b, i, m) == ModExp(b, j, m) <==> i % q == j % q
  {
    if i % q == j % q {
      ExpCongruent(b, i, j, q, m);
    }
    if ModExp(b, i, m) == ModExp(b, j, m) {
      ExpCancel(b, q, i, j, m);
    }
  }

  lemma ExpCancel(b: int, q: int, i: nat, j: nat, m: int)
    requires m > 1 && Prime(q) && InSubgroup(b, q, m) && b % m != 1
    requires ModExp(b, i, m) == ModExp(b, j, m)
    ensures i % q == j % q
  {
    var inv := Complement(i, q);
    ExpAdd(b, i, inv, m);
    ExpAdd(b, j, inv, m);
    ExpIsOne(b, q, i + inv, m);
    ExpIsOne(b, q, j + inv, m);
    ModDiff(j + inv, i + inv, q);
    ModDiff(j, i, q);
  }

  lemma Complement(i: nat, q: nat) returns (inv: nat)
    requires q > 0
    ensures (i + inv) % q == 0
  {
    inv := if i % q == 0 then 0 else q - i % q;
    var k := if i % q == 0 then i / q else i / q + 1;
    assert i + inv == k * q + 0;
    ModUnique(i + inv, q, k, 0);
  }
}
