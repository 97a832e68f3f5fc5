// The number theory that the primality test rests on: powers modulo n, Euclid's lemma,
// Fermat's little theorem, and the square roots of 1 modulo a prime.
module ModularArithmetic {
  import opened Basics

  function Pow(b: nat, e: nat): nat
  {
    if e == 0 then 1 else b * Pow(b, e - 1)
  }

  predicate Divides(d: nat, n: int)
    requires d > 0
  {
    n % d == 0
  }

  ghost predicate Prime(p: nat)
  {
    2 <= p && forall d: nat :: 2 <= d < p ==> !Divides(d, p)
  }

  // ---------- remainders ----------

  lemma Distribute(x: int, y: int, z: int)
    ensures (x + y) * z == x * z + y * z
  {}

  lemma Associate(x: int, y: int, z: int)
    ensures x * (y * z) == x * y * z
  {}

  lemma Exchange(x: int, y: int, z: int)
    ensures x * (y * z) == y * (x * z)
  {}

  lemma MulMonotone(x: int, y: int, z: int)
    requires x <= y && z >= 0
    ensures x * z <= y * z
  {
    Distribute(y - x, x, z);
    assert (y - x) * z >= 0;
  }

  lemma MultipleIsFar(k: int, n: nat)
    requires k != 0 && n > 0
    ensures k * n >= n || k * n + n <= 0
    decreases if k < 0 then -k else k
  {
    if k > 1 {
      MultipleIsFar(k - 1, n);
      Distribute(k - 1, 1, n);
    } else if k < -1 {
      MultipleIsFar(k + 1, n);
      Distribute(k, 1, n);
    }
  }

  lemma RemainderIsUnique(x: int, q: int, r: int, n: nat)
    requires 0 <= r < n && x == q * n + r
    ensures x % n == r
  {
    var k := q - x / n;
    assert k * n == x % n - r;
    if k != 0 {
      MultipleIsFar(k, n);
    }
  }

  /** Replacing a factor by its remainder does not change the remainder of the product. */
  lemma MulRemainder(a: int, b: int, n: nat)
    requires n > 0
    ensures (a % n * b) % n == (a * b) % n
  {
    var y := a % n * b;
    assert a * b == (a / n * n + a % n) * b;
    assert a * b == (a / n * b) * n + y;
    assert y == y / n * n + y % n;
    assert a * b == (a / n * b + y / n) * n + y % n by {
      Distribute(a / n * b, y / n, n);
    }
    RemainderIsUnique(a * b, a / n * b + y / n, y % n, n);
  }

  /** Congruent factors give congruent products. */
  lemma MulCongruent(a: int, b: int, c: int, n: nat)
    requires n > 0 && a % n == b % n
    ensures (a * c) % n == (b * c) % n
  {
    MulRemainder(a, c, n);
    MulRemainder(b, c, n);
  }

  /** x and y leave the same remainder exactly when n divides their difference. */
  lemma CongruentIffDividesDifference(x: int, y: int, n: nat)
    requires n > 0
    ensures x % n == y % n <==> Divides(n, x - y)
  {
    assert x - y == (x / n - y / n) * n + (x % n - y % n);
    if x % n == y % n {
      RemainderIsUnique(x - y, x / n - y / n, 0, n);
    } else if x % n > y % n {
      RemainderIsUnique(x - y, x / n - y / n, x % n - y % n, n);
    } else {
      assert x - y == (x / n - y / n - 1) * n + (n + x % n - y % n);
      RemainderIsUnique(x - y, x / n - y / n - 1, n + x % n - y % n, n);
    }
  }

  lemma MultipleIsDivisible(k: int, n: nat)
    requires n > 0
    ensures Divides(n, k * n)
  {
    RemainderIsUnique(k * n, k, 0, n);
  }

  lemma FactorOfFactor(q: nat, m: nat, n: int)
    requires q > 0 && m > 0 && Divides(m * q, n)
    ensures Divides(q, n)
  {
    var k := n / (m * q);
    Associate(k, m, q);
    MultipleIsDivisible(k * m, q);
  }

  // ---------- powers ----------

  lemma {:induction false} PowAdd(b: nat, x: nat, y: nat)
    ensures Pow(b, x + y) == Pow(b, x) * Pow(b, y)
  {
    if x > 0 {
      PowAdd(b, x - 1, y);
      Associate(b, Pow(b, x - 1), Pow(b, y));
    }
  }

  /** Squaring the base halves the exponent: the step that square-and-multiply takes. */
  lemma {:induction false} PowSquare(b: nat, e: nat)
    ensures Pow(b * b, e) == Pow(b, 2 * e)
  {
    if e > 0 {
      PowSquare(b, e - 1);
      assert Pow(b, 2 * e) == b * Pow(b, 2 * e - 1) == b * (b * Pow(b, 2 * e - 2));
      Associate(b, b, Pow(b, 2 * e - 2));
    }
  }

  lemma {:induction false} PowRemainder(b: nat, e: nat, n: nat)
    requires n > 0
    ensures Pow(b % n, e) % n == Pow(b, e) % n
  {
    if e > 0 {
      PowRemainder(b, e - 1, n);
      MulRemainder(b, Pow(b % n, e - 1), n);
      MulCongruent(Pow(b % n, e - 1), Pow(b, e - 1), b, n);
      assert Pow(b, e) == Pow(b, e - 1) * b;
      assert b * Pow(b % n, e - 1) == Pow(b % n, e - 1) * b;
    }
  }

  // ---------- primes ----------

  /** Euclid's lemma for a factor already reduced modulo p, by descent on that factor. */
  lemma {:induction false} EuclidReduced(p: nat, a: nat, b: int)
    requires Prime(p) && 0 < a < p && Divides(p, a * b)
    ensures Divides(p, b)
    decreases a
  {
    if a > 1 {
      var q, r := p / a, p % a;
      assert !Divides(a, p);
      assert r == p - q * a;
      assert r * b == p * b - q * (a * b) by {
        assert (p - q * a) * b == p * b - q * a * b;
        assert q * a * b == q * (a * b);
      }
      var k := a * b / p;
      assert a * b == k * p;
      assert r * b == (b - q * k) * p by {
        assert q * (k * p) == q * k * p;
        assert p * b == b * p;
        Distribute(b, -(q * k), p);
      }
      MultipleIsDivisible(b - q * k, p);
      EuclidReduced(p, r, b);
    }
  }

  /** Euclid's lemma: a prime that divides a product divides one of the factors. */
  lemma Euclid(p: nat, a: int, b: int)
    requires Prime(p) && Divides(p, a * b)
    ensures Divides(p, a) || Divides(p, b)
  {
    if !Divides(p, a) {
      MulRemainder(a, b, p);
      EuclidReduced(p, a % p, b);
    }
  }

  lemma PrimeDoesNotDivideProduct(p: nat, j: nat, f: nat)
    requires Prime(p) && 0 < j < p && !Divides(p, f)
    ensures !Divides(p, j * f)
  {
    if Divides(p, j * f) {
      EuclidReduced(p, j, f);
    }
  }

  /** Modulo a prime, an equation may be divided by a factor the prime does not divide. */
  lemma Cancel(p: nat, f: int, x: int, y: int)
    requires Prime(p) && !Divides(p, f) && (f * x) % p == (f * y) % p
    ensures x % p == y % p
  {
    CongruentIffDividesDifference(f * x, f * y, p);
    assert f * x - f * y == f * (x - y);
    Euclid(p, f, x - y);
    CongruentIffDividesDifference(x, y, p);
  }

  // ---------- Fermat's little theorem ----------

  ghost function Pick(s: set<nat>): (x: nat)
    requires s != {}
    ensures x in s
  {
    var x :| x in s; x
  }

  ghost function Product(s: set<nat>): nat
  {
    if s == {} then 1 else var x := Pick(s); x * Product(s - {x})
  }

  /** A product over a set may take any element out first. */
  lemma {:induction false} ProductTakeOut(s: set<nat>, x: nat)
    requires x in s
    ensures Product(s) == x * Product(s - {x})
    decreases |s|
  {
    var y := Pick(s);
    if x != y {
      ProductTakeOut(s - {y}, x);
      ProductTakeOut(s - {x}, y);
      assert s - {y} - {x} == s - {x} - {y};
      Exchange(x, y, Product(s - {x} - {y}));
    }
  }

  lemma ProductAdd(s: set<nat>, x: nat)
    requires x !in s
    ensures Product(s + {x}) == x * Product(s)
  {
    ProductTakeOut(s + {x}, x);
    assert s + {x} - {x} == s;
  }

  /** The numbers 1, ..., j. */
  ghost function Range(j: nat): (s: set<nat>)
    ensures forall k: nat :: k in s <==> 1 <= k <= j
    ensures |s| == j
  {
    if j == 0 then {} else Range(j - 1) + {j}
  }

  lemma {:induction false} PrimeDoesNotDivideRange(p: nat, j: nat)
    requires Prime(p) && j < p
    ensures !Divides(p, Product(Range(j)))
  {
    if j > 0 {
      PrimeDoesNotDivideRange(p, j - 1);
      ProductAdd(Range(j - 1), j);
      PrimeDoesNotDivideProduct(p, j, Product(Range(j - 1)));
    }
  }

  /** The residues of a, 2a, ..., ja modulo p. */
  ghost function Residues(a: nat, p: nat, j: nat): set<nat>
    requires p > 0
  {
    if j == 0 then {} else Residues(a, p, j - 1) + {(a * j) % p}
  }

  lemma ResiduesDiffer(a: nat, p: nat, i: nat, j: nat)
    requires Prime(p) && !Divides(p, a) && i < j < p
    ensures (a * i) % p != (a * j) % p
  {
    if (a * i) % p == (a * j) % p {
      Cancel(p, a, i, j);
      RemainderIsUnique(i, 0, i, p);
      RemainderIsUnique(j, 0, j, p);
    }
  }

  lemma {:induction false} ResidueNotSeenBefore(a: nat, p: nat, i: nat, j: nat)
    requires Prime(p) && !Divides(p, a) && i < j < p
    ensures (a * j) % p !in Residues(a, p, i)
  {
    if i > 0 {
      ResidueNotSeenBefore(a, p, i - 1, j);
      ResiduesDiffer(a, p, i, j);
    }
  }

  lemma ResidueInRange(a: nat, p: nat, j: nat)
    requires Prime(p) && !Divides(p, a) && 0 < j < p
    ensures 1 <= (a * j) % p <= p - 1
  {
    ResiduesDiffer(a, p, 0, j);
    assert a * 0 == 0;
  }

  lemma {:induction false} ResiduesFillRange(a: nat, p: nat, j: nat)
    requires Prime(p) && !Divides(p, a) && j < p
    ensures |Residues(a, p, j)| == j && Residues(a, p, j) <= Range(p - 1)
  {
    if j > 0 {
      ResiduesFillRange(a, p, j - 1);
      ResidueNotSeenBefore(a, p, j - 1, j);
      ResidueInRange(a, p, j);
    }
  }

  lemma {:induction false} ResiduesProduct(a: nat, p: nat, j: nat)
    requires Prime(p) && !Divides(p, a) && j < p
    ensures Product(Residues(a, p, j)) % p == (Product(Range(j)) * Pow(a, j)) % p
  {
    if j > 0 {
      hide Pow, Product, Range, Residues;
      ResiduesProduct(a, p, j - 1);
      UnfoldResidues(a, p, j);
      ResidueProductStep(a, j, p, Product(Residues(a, p, j - 1)), Product(Range(j - 1)), Pow(a, j - 1),
                         Product(Range(j)), Pow(a, j));
    }
  }

  lemma UnfoldResidues(a: nat, p: nat, j: nat)
    requires Prime(p) && !Divides(p, a) && 0 < j < p
    ensures Product(Residues(a, p, j)) == (a * j) % p * Product(Residues(a, p, j - 1))
    ensures Product(Range(j)) == j * Product(Range(j - 1))
    ensures Pow(a, j) == a * Pow(a, j - 1)
  {
    ResidueNotSeenBefore(a, p, j - 1, j);
    ProductAdd(Residues(a, p, j - 1), (a * j) % p);
    ProductAdd(Range(j - 1), j);
  }

  lemma ResidueProductStep(a: nat, j: nat, p: nat, product: nat, u: nat, v: nat, u': nat, v': nat)
    requires p > 0 && product % p == (u * v) % p && u' == j * u && v' == a * v
    ensures ((a * j) % p * product) % p == (u' * v') % p
  {
    MulRemainder(a * j, product, p);
    MulCongruent(product, u * v, a * j, p);
    assert product * (a * j) == a * j * product;
    Regroup(a, j, u, v);
  }

  lemma Regroup(a: nat, j: nat, u: nat, v: nat)
    ensures u * v * (a * j) == j * u * (a * v)
  {
    assert u * v * (a * j) == j * (u * v * a);
    assert u * v * a == u * (a * v);
  }

  /** The residues of a, 2a, ..., (p-1)a are 1, ..., p-1 in some order. */
  lemma ResiduesAreAll(a: nat, p: nat)
    requires Prime(p) && !Divides(p, a)
    ensures Residues(a, p, p - 1) == Range(p - 1)
  {
    ResiduesFillRange(a, p, p - 1);
    SubsetOfSameSize(Residues(a, p, p - 1), Range(p - 1));
  }

  lemma CancelToOne(p: nat, f: nat, w: nat, product: nat)
    requires Prime(p) && !Divides(p, f) && product % p == (f * w) % p && product == f
    ensures w % p == 1
  {
    Cancel(p, f, w, 1);
    RemainderIsUnique(1, 0, 1, p);
  }

  /** Fermat's little theorem. */
  lemma Fermat(p: nat, a: nat)
    requires Prime(p) && !Divides(p, a)
    ensures Pow(a, p - 1) % p == 1
  {
    hide Pow, Product, Range, Residues;
    ResiduesAreAll(a, p);
    ResiduesProduct(a, p, p - 1);
    PrimeDoesNotDivideRange(p, p - 1);
    CancelToOne(p, Product(Range(p - 1)), Pow(a, p - 1), Product(Residues(a, p, p - 1)));
  }

  /** Modulo a prime, 1 has no square roots besides 1 and -1. */
  lemma SquareRootsOfOne(p: nat, y: nat)
    requires Prime(p) && (y * y) % p == 1
    ensures y % p == 1 || y % p == p - 1
  {
    CongruentIffDividesDifference(y * y, 1, p);
    assert y * y - 1 == (y - 1) * (y + 1);
    Euclid(p, y - 1, y + 1);
    CongruentIffDividesDifference(y, 1, p);
    if Divides(p, y + 1) {
      RemainderIsUnique(y, (y + 1) / p - 1, p - 1, p) by {
        Distribute((y + 1) / p, -1, p);
      }
    }
  }
}
