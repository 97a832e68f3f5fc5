// The primality test of common.go on 64-bit words: double-word products, square-and-multiply,
// the strong-probable-prime check for one base, and the seven-base test.
module MillerRabin {
  import opened Words
  import opened ModularArithmetic

  // ---------- 128-bit products (Go's math/bits) ----------

  function Mul64(a: uint64, b: uint64): (r: (uint64, uint64))
    ensures r.0 as int * WORD + r.1 as int == a as int * b as int
  {
    var product := a as int * b as int;
    assert product / WORD < WORD by {
      ProductFitsTwoWords(a, b);
    }
    ((product / WORD) as uint64, (product % WORD) as uint64)
  }

  lemma ProductFitsTwoWords(a: uint64, b: uint64)
    ensures 0 <= a as int * b as int <= (WORD - 1) * (WORD - 1)
  {
    MulMonotone(0, a as int, b as int);
    MulMonotone(a as int, WORD - 1, b as int);
  }

  /** bits.Div64: it panics unless the high word is below the divisor, for then the quotient would not fit a word. */
  function Div64(hi: uint64, lo: uint64, y: uint64): (r: (uint64, uint64))
    requires hi < y
    ensures r.0 as int * y as int + r.1 as int == hi as int * WORD + lo as int
    ensures r.1 < y
  {
    QuotientFitsWord(hi, lo, y);
    var x, m := hi as int * WORD + lo as int, y as int;
    ((x / m) as uint64, (x % m) as uint64)
  }

  lemma QuotientFitsWord(hi: uint64, lo: uint64, y: uint64)
    requires hi < y
    ensures var x := hi as int * WORD + lo as int;
            0 <= x / y as int < WORD && x == x / y as int * y as int + x % y as int
  {
    var x, m := hi as int * WORD + lo as int, y as int;
    var q := x / m;
    if q >= WORD {
      MulMonotone(WORD, q, m);
    }
  }

  function MulMod(a: uint64, b: uint64, mod: uint64): (r: uint64)
    requires Mul64(a, b).0 < mod
    ensures r as int == (a as int * b as int) % mod as int
  {
    var (hi, lo) := Mul64(a, b);
    var (quo, rem) := Div64(hi, lo, mod);
    RemainderIsUnique(a as int * b as int, quo as int, rem as int, mod as int);
    rem
  }

  /** A product with a factor below the modulus never overflows the 128-by-64 division. */
  lemma HighWordBelowModulus(a: uint64, b: uint64, mod: uint64)
    requires b < mod
    ensures Mul64(a, b).0 < mod
  {
    MulMonotone(a as int, WORD - 1, b as int);
  }

  // ---------- modular exponentiation ----------

  /**
   * Square-and-multiply. The Go code divides by mod, so mod must not be 0. The result is base^exp modulo mod,
   * with one exception: for mod == 1 and exp == 0 the loop never runs and the unreduced 1 comes back.
   */
  method ModExp(base: uint64, exp: uint64, mod: uint64) returns (result: uint64)
    requires mod > 0
    ensures mod == 1 && exp == 0 ==> result == 1
    ensures !(mod == 1 && exp == 0) ==> result as int == Pow(base as nat, exp as nat) % mod as nat
  {
    ghost var target := Pow(base as nat, exp as nat) % mod as nat;
    result := 1;
    var b := base % mod;
    var e := exp;
    PowRemainder(base as nat, exp as nat, mod as nat);
    while e > 0
      invariant b < mod && e <= exp
      invariant e == exp ==> result == 1
      invariant result < mod || (mod == 1 && result == 1 && (exp > 0 ==> e > 0))
      invariant (result as int * Pow(b as nat, e as nat)) % mod as nat == target
    {
      SquareAndMultiplyStep(result as nat, b as nat, e as nat, mod as nat);
      if e % 2 == 1 {
        HighWordBelowModulus(result, b, mod);
        result := MulMod(result, b, mod);
      }
      HighWordBelowModulus(b, b, mod);
      b := MulMod(b, b, mod);
      e := e / 2;
    }
    if !(mod == 1 && exp == 0) {
      RemainderIsUnique(result as int, 0, result as int, mod as nat);
    }
  }

  lemma SquareAndMultiplyStep(result: nat, b: nat, e: nat, m: nat)
    requires e > 0 && m > 0
    ensures e % 2 == 0 ==> (result * Pow(b * b % m, e / 2)) % m == (result * Pow(b, e)) % m
    ensures e % 2 == 1 ==> (result * b % m * Pow(b * b % m, e / 2)) % m == (result * Pow(b, e)) % m
  {
    var h := e / 2;
    var square := Pow(b * b % m, h);
    PowRemainder(b * b, h, m);
    PowSquare(b, h);
    if e % 2 == 0 {
      MulCongruent(square, Pow(b, e), result, m);
      assert square * result == result * square && Pow(b, e) * result == result * Pow(b, e);
    } else {
      MulRemainder(result * b, square, m);
      MulCongruent(square, Pow(b, 2 * h), result * b, m);
      assert square * (result * b) == result * b * square;
      assert Pow(b, 2 * h) * (result * b) == result * Pow(b, e) by {
        assert Pow(b, e) == b * Pow(b, 2 * h);
        Associate(result, b, Pow(b, 2 * h));
      }
    }
  }

  // ---------- one base ----------

  /** a^(d * 2^i): what squaring a^d i times gives. */
  function Ladder(a: nat, d: nat, i: nat): nat
  {
    Pow(a, d * Pow(2, i))
  }

  /** The condition that the check for one base decides: a^d is 1, or one of r successive squarings of it is -1. */
  ghost predicate StrongProbable(a: nat, d: nat, n: nat, r: int)
    requires n > 0
  {
    || Pow(a, d) % n == 1
    || exists i: nat :: (i == 0 || i < r) && Ladder(a, d, i) % n == n - 1
  }

  lemma LadderStep(a: nat, d: nat, i: nat)
    ensures Ladder(a, d, i + 1) == Ladder(a, d, i) * Ladder(a, d, i)
  {
    var e := d * Pow(2, i);
    assert d * Pow(2, i + 1) == e + e by {
      assert Pow(2, i + 1) == Pow(2, i) + Pow(2, i);
    }
    PowAdd(a, e, e);
  }

  lemma LadderStart(a: nat, d: nat)
    ensures Ladder(a, d, 0) == Pow(a, d)
  {
    assert Pow(2, 0) == 1;
  }

  lemma LadderSquares(a: nat, d: nat, i: nat, n: nat)
    requires n > 0
    ensures Ladder(a, d, i + 1) % n == (Ladder(a, d, i) % n * (Ladder(a, d, i) % n)) % n
  {
    var x := Ladder(a, d, i);
    LadderStep(a, d, i);
    MulRemainder(x, x, n);
    MulRemainder(x, x % n, n);
    assert x % n * x == x * (x % n);
  }

  /** The check for one base, on every modulus n >= 1 (on n == 0 the Go code divides by zero). */
  method Check(a: uint64, d: uint64, n: uint64, r: int) returns (ok: bool)
    requires n > 0
    ensures ok <==> StrongProbable(a as nat, d as nat, n as nat, r)
  {
    var x := ModExp(a, d, n);
    LadderStart(a as nat, d as nat);
    if x == 1 || x == n - 1 {
      assert n == 1 ==> Ladder(a as nat, d as nat, 0) % n as nat == n as nat - 1;
      return true;
    }
    var i := 0;
    ghost var A, D, N := a as nat, d as nat, n as nat;
    while i < r - 1
      invariant 0 <= i && (i == 0 || i <= r - 1)
      invariant x < n && x as int == Ladder(A, D, i) % N
      invariant forall k: nat :: k <= i ==> Ladder(A, D, k) % N != N - 1
    {
      HighWordBelowModulus(x, x, n);
      LadderSquares(A, D, i, N);
      x := MulMod(x, x, n);
      if x == n - 1 {
        return true;
      }
      i := i + 1;
    }
    return false;
  }

  // ---------- n - 1 = d * 2^r ----------

  function OddPart(m: nat): (d: nat)
    requires m > 0
    ensures d % 2 == 1 && d <= m
  {
    if m % 2 == 1 then m else OddPart(m / 2)
  }

  function TwosExponent(m: nat): nat
    requires m > 0
  {
    if m % 2 == 1 then 0 else 1 + TwosExponent(m / 2)
  }

  lemma {:induction false} OddTimesPowerOfTwo(m: nat)
    requires m > 0
    ensures m == OddPart(m) * Pow(2, TwosExponent(m))
  {
    if m % 2 == 0 {
      OddTimesPowerOfTwo(m / 2);
      Associate(2, OddPart(m), Pow(2, TwosExponent(m / 2)));
      Associate(OddPart(m), 2, Pow(2, TwosExponent(m / 2)));
    }
  }

  // ---------- seven bases ----------

  const SMALL_PRIMES: seq<uint64> := [2, 3, 5, 7, 11, 13, 17]

  ghost predicate PassesBase(a: nat, n: nat)
    requires n >= 2
  {
    StrongProbable(a, OddPart(n - 1), n, TwosExponent(n - 1))
  }

  /** What IsPrime decides, for every n: no loops, no words. */
  ghost predicate Accepted(n: nat)
  {
    || (exists j :: 0 <= j < |SMALL_PRIMES| && n == SMALL_PRIMES[j] as nat)
    || (n >= 2 && forall j :: 0 <= j < |SMALL_PRIMES| ==>
          !Divides(SMALL_PRIMES[j] as nat, n) && PassesBase(SMALL_PRIMES[j] as nat, n))
  }

  ghost predicate NoFactorBelow19(n: nat)
  {
    forall d: nat :: 2 <= d < 19 ==> !Divides(d, n)
  }

  /** Fermat's congruence for all seven bases. */
  ghost predicate FermatForAllBases(n: nat)
    requires n > 1
  {
    forall j :: 0 <= j < |SMALL_PRIMES| ==> Pow(SMALL_PRIMES[j] as nat, n - 1) % n == 1
  }

  /**
   * The test itself. It never rejects a prime, and a number above 17 that it accepts satisfies Fermat's
   * congruence for all seven bases and has no factor between 2 and 18.
   */
  method IsPrime(n: uint64) returns (accepted: bool)
    ensures accepted <==> Accepted(n as nat)
    ensures Prime(n as nat) ==> accepted
    ensures accepted && n > 17 ==> NoFactorBelow19(n as nat) && FermatForAllBases(n as nat)
  {
    if Prime(n as nat) {
      PrimeIsAccepted(n as nat);
    }
    if Accepted(n as nat) && n > 17 {
      AcceptedFacts(n as nat);
    }
    if n < 2 {
      return false;
    }
    for j := 0 to |SMALL_PRIMES|
      invariant forall k :: 0 <= k < j ==> !Divides(SMALL_PRIMES[k] as nat, n as nat)
    {
      var p := SMALL_PRIMES[j];
      assert p as nat > 0;
      if n % p == 0 {
        assert Divides(p as nat, n as nat);
        if n != p {
          NotSmallAndDivisible(n as nat, j);
        }
        return n == p;
      }
    }
    var d := n - 1;
    var r := 0;
    while d % 2 == 0
      invariant 0 < d < n
      invariant OddPart(d as nat) == OddPart(n as nat - 1)
      invariant TwosExponent(d as nat) + r == TwosExponent(n as nat - 1)
      decreases d
    {
      d := d / 2;
      r := r + 1;
    }
    NoSmallFactorIsLarge(n as nat);
    for j := 0 to |SMALL_PRIMES|
      invariant forall k :: 0 <= k < j ==> PassesBase(SMALL_PRIMES[k] as nat, n as nat)
    {
      var a := SMALL_PRIMES[j];
      if a >= n {
        continue;
      }
      var ok := Check(a, d, n, r);
      if !ok {
        return false;
      }
    }
    return true;
  }

  /** A number with no factor among the seven small primes is 1 or at least 19. */
  lemma NoSmallFactorIsLarge(n: nat)
    requires n >= 2
    requires forall j :: 0 <= j < |SMALL_PRIMES| ==> !Divides(SMALL_PRIMES[j] as nat, n)
    ensures n >= 19
  {
    var s := SMALL_PRIMES;
    assert !Divides(s[0] as nat, n) && !Divides(s[1] as nat, n) && !Divides(s[2] as nat, n) && !Divides(s[3] as nat, n);
    assert !Divides(s[4] as nat, n) && !Divides(s[5] as nat, n) && !Divides(s[6] as nat, n);
  }

  /** A proper multiple of one small prime, with no smaller one dividing it, is not itself a small prime. */
  lemma NotSmallAndDivisible(n: nat, j: nat)
    requires j < |SMALL_PRIMES| && n != SMALL_PRIMES[j] as nat && Divides(SMALL_PRIMES[j] as nat, n)
    ensures !Accepted(n)
  {
    forall k | 0 <= k < |SMALL_PRIMES|
      ensures n != SMALL_PRIMES[k] as nat
    {
      assert SMALL_PRIMES[k] in {2, 3, 5, 7, 11, 13, 17} && SMALL_PRIMES[j] in {2, 3, 5, 7, 11, 13, 17};
    }
  }

  // ---------- primes are accepted ----------

  /** Going down the ladder from a 1 at rung i: either -1 turns up below it, or the bottom is 1 too. */
  lemma {:induction false} DescendFromOne(p: nat, a: nat, d: nat, i: nat) returns (k: nat)
    requires Prime(p) && Ladder(a, d, i) % p == 1
    ensures Pow(a, d) % p == 1 || (k < i && Ladder(a, d, k) % p == p - 1)
  {
    k := 0;
    LadderStart(a, d);
    if i > 0 {
      LadderStep(a, d, i - 1);
      SquareRootsOfOne(p, Ladder(a, d, i - 1));
      if Ladder(a, d, i - 1) % p == 1 {
        k := DescendFromOne(p, a, d, i - 1);
      } else {
        k := i - 1;
      }
    }
  }

  /** A prime passes the check for every base it does not divide. */
  lemma PrimePassesBase(p: nat, a: nat)
    requires Prime(p) && !Divides(p, a)
    ensures PassesBase(a, p)
  {
    Fermat(p, a);
    OddTimesPowerOfTwo(p - 1);
    var k := DescendFromOne(p, a, OddPart(p - 1), TwosExponent(p - 1));
  }

  /** The test never rejects a prime. */
  lemma PrimeIsAccepted(p: nat)
    requires Prime(p)
    ensures Accepted(p)
  {
    if !(exists j :: 0 <= j < |SMALL_PRIMES| && p == SMALL_PRIMES[j] as nat) {
      forall j | 0 <= j < |SMALL_PRIMES|
        ensures !Divides(SMALL_PRIMES[j] as nat, p)
      {
        if p <= SMALL_PRIMES[j] as nat {
          PrimeUpTo17IsSmall(p);
        }
      }
      NoSmallFactorIsLarge(p);
      forall j | 0 <= j < |SMALL_PRIMES|
        ensures PassesBase(SMALL_PRIMES[j] as nat, p)
      {
        RemainderIsUnique(SMALL_PRIMES[j] as nat, 0, SMALL_PRIMES[j] as nat, p);
        PrimePassesBase(p, SMALL_PRIMES[j] as nat);
      }
    }
  }

  lemma PrimeUpTo17IsSmall(p: nat)
    requires Prime(p) && p <= 17
    ensures exists j :: 0 <= j < |SMALL_PRIMES| && p == SMALL_PRIMES[j] as nat
  {
    assert !(p > 2 && Divides(2, p)) && !(p > 3 && Divides(3, p));
    assert SMALL_PRIMES[0] == 2 && SMALL_PRIMES[1] == 3 && SMALL_PRIMES[2] == 5 && SMALL_PRIMES[3] == 7;
    assert SMALL_PRIMES[4] == 11 && SMALL_PRIMES[5] == 13 && SMALL_PRIMES[6] == 17;
  }

  // ---------- what acceptance means ----------

  /** Once a rung is 1, every later rung is 1. */
  lemma {:induction false} OnesStay(a: nat, d: nat, i: nat, j: nat, n: nat)
    requires n >= 2 && i <= j && Ladder(a, d, i) % n == 1
    ensures Ladder(a, d, j) % n == 1
    decreases j
  {
    if i < j {
      OnesStay(a, d, i, j - 1, n);
      LadderSquares(a, d, j - 1, n);
      RemainderIsUnique(1, 0, 1, n);
    }
  }

  lemma MinusOneSquared(n: nat)
    requires n >= 2
    ensures ((n - 1) * (n - 1)) % n == 1
  {
    assert (n - 1) * (n - 1) == (n - 2) * n + 1;
    RemainderIsUnique((n - 1) * (n - 1), n - 2, 1, n);
  }

  /** A base that passes satisfies Fermat's congruence. */
  lemma PassingImpliesFermat(a: nat, n: nat)
    requires n > 2 && n % 2 == 1 && PassesBase(a, n)
    ensures Pow(a, n - 1) % n == 1
  {
    var d, r := OddPart(n - 1), TwosExponent(n - 1);
    OddTimesPowerOfTwo(n - 1);
    LadderStart(a, d);
    if Pow(a, d) % n == 1 {
      OnesStay(a, d, 0, r, n);
    } else {
      var i: nat :| (i == 0 || i < r) && Ladder(a, d, i) % n == n - 1;
      LadderSquares(a, d, i, n);
      MinusOneSquared(n);
      OnesStay(a, d, i + 1, r, n);
    }
  }

  lemma AcceptedFacts(n: nat)
    requires n > 17 && Accepted(n)
    ensures NoFactorBelow19(n) && FermatForAllBases(n)
  {
    assert forall j :: 0 <= j < |SMALL_PRIMES| ==> !Divides(SMALL_PRIMES[j] as nat, n) && PassesBase(SMALL_PRIMES[j] as nat, n);
    forall d: nat | 2 <= d < 19
      ensures !Divides(d, n)
    {
      SmallFactorHasSmallPrime(d, n);
    }
    assert !Divides(SMALL_PRIMES[0] as nat, n);
    forall j | 0 <= j < |SMALL_PRIMES|
      ensures Pow(SMALL_PRIMES[j] as nat, n - 1) % n == 1
    {
      PassingImpliesFermat(SMALL_PRIMES[j] as nat, n);
    }
  }

  lemma SmallFactorHasSmallPrime(d: nat, n: nat)
    requires 2 <= d < 19
    requires forall j :: 0 <= j < |SMALL_PRIMES| ==> !Divides(SMALL_PRIMES[j] as nat, n)
    ensures !Divides(d, n)
  {
    if Divides(d, n) {
      var j := if d % 2 == 0 then 0 else if d % 3 == 0 then 1 else if d == 5 then 2 else if d == 7 then 3
        else if d == 11 then 4 else if d == 13 then 5 else 6;
      var q := SMALL_PRIMES[j] as nat;
      assert d == d / q * q;
      FactorOfFactor(q, d / q, n);
    }
  }

  /** A composite number has a factor whose square does not exceed it. */
  lemma CompositeHasSmallFactor(n: nat) returns (d: nat)
    requires n >= 2 && !Prime(n)
    ensures 2 <= d < n && Divides(d, n) && d * d <= n
  {
    d :| 2 <= d < n && Divides(d, n);
    var q := n / d;
    assert n == q * d;
    if d <= q {
      MulMonotone(d, q, d);
    } else {
      MulMonotone(q, d, q);
      assert q >= 2 by {
        if q < 2 {
          MulMonotone(q, 1, d);
        }
      }
      MultipleIsDivisible(d, q);
      assert d * q == n;
      d := q;
    }
  }

  /** Below 19 * 19 the seven-base test is exact. */
  lemma ExactBelow361(n: nat)
    requires n < 361
    ensures Accepted(n) <==> Prime(n)
  {
    if Prime(n) {
      PrimeIsAccepted(n);
    } else if Accepted(n) {
      if n > 17 {
        AcceptedFacts(n);
        var d := CompositeHasSmallFactor(n);
        SquareBelow361(d);
      } else {
        AcceptedUpTo17(n);
      }
    }
  }

  lemma SquareBelow361(d: nat)
    requires d * d < 361
    ensures d < 19
  {
    if d >= 19 {
      MulMonotone(19, d, d);
    }
  }

  lemma AcceptedUpTo17(n: nat)
    requires Accepted(n) && n <= 17
    ensures Prime(n)
  {
    if forall j :: 0 <= j < |SMALL_PRIMES| ==> n != SMALL_PRIMES[j] as nat {
      NoSmallFactorIsLarge(n);
    }
    forall d: nat | 2 <= d < n
      ensures !Divides(d, n)
    {
    }
  }
}
