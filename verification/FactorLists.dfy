/** Lists of prime factors, as trial division finds them. */
module FactorLists {
  import opened Numbers
  import opened Primes
  import opened Wheel

  function Pow(b: nat, e: nat): nat {
    if e == 0 then 1 else b * Pow(b, e - 1)
  }

  function Product(s: seq<nat>): nat {
    if s == [] then 1 else Product(s[..|s| - 1]) * s[|s| - 1]
  }

  predicate Sorted(s: seq<nat>) {
    forall i, j :: 0 <= i < j < |s| ==> s[i] <= s[j]
  }

  ghost predicate AllPrime(s: seq<nat>) {
    forall i :: 0 <= i < |s| ==> Prime(s[i])
  }

  predicate Divides(d: nat, n: nat) {
    d > 0 && n % d == 0
  }

  predicate AllDivide(s: seq<nat>, n: nat) {
    forall i :: 0 <= i < |s| ==> Divides(s[i], n)
  }

  /** The prime factors of `n` in order, each as often as it divides, and all of that `rep` times. */
  ghost predicate Factors(s: seq<nat>, n: nat, rep: nat) {
    AllPrime(s) && Sorted(s) && Product(s) == Pow(n, rep) && AllDivide(s, n)
  }

  // ---------- powers and products ----------

  lemma {:induction false} PowTimes(a: nat, b: nat, e: nat)
    ensures Pow(a * b, e) == Pow(a, e) * Pow(b, e)
  {
    if e > 0 {
      PowTimes(a, b, e - 1);
      var x, y := Pow(a, e - 1), Pow(b, e - 1);
      Shuffle(a, b, x, y);
    }
  }

  lemma Shuffle(a: nat, b: nat, x: nat, y: nat)
    ensures (a * b) * (x * y) == (a * x) * (b * y)
  {
    MulAssoc(a * b, x, y);
    MulAssoc(a, b, x);
    MulSwap(b, x);
    MulAssoc(a, x, b);
    MulAssoc(a * x, b, y);
  }

  lemma {:induction false} PowTwice(a: nat, e: nat)
    ensures Pow(a, 2 * e) == Pow(a * a, e)
  {
    if e > 0 {
      PowTwice(a, e - 1);
      assert Pow(a, 2 * e) == a * Pow(a, 2 * e - 1) == a * (a * Pow(a, 2 * (e - 1)));
      MulAssoc(a, a, Pow(a, 2 * (e - 1)));
    }
  }

  lemma {:induction false} PowMono(a: nat, b: nat, e: nat)
    requires a <= b
    ensures Pow(a, e) <= Pow(b, e)
  {
    if e > 0 {
      PowMono(a, b, e - 1);
      MulMono(a, b, Pow(a, e - 1));
      MulMono(Pow(a, e - 1), Pow(b, e - 1), b);
      MulSwap(b, Pow(a, e - 1));
      MulSwap(b, Pow(b, e - 1));
    }
  }

  lemma {:induction false} PowOne(e: nat)
    ensures Pow(1, e) == 1
  {
    if e > 0 { PowOne(e - 1); }
  }

  lemma {:induction false} PowOfTwo(e: nat)
    ensures Pow(2, e) == Pow2(e)
  {
    if e > 0 { PowOfTwo(e - 1); }
  }

  /** A power below 2^64 of a number from 2 on has an exponent below 64. */
  lemma SmallExponent(b: nat, e: nat)
    requires b >= 2 && Pow(b, e) < Pow2(64)
    ensures e < 64
  {
    hide Pow, Pow2;
    PowMono(2, b, e);
    PowOfTwo(e);
    if e >= 64 { Pow2Mono(64, e); }
  }

  lemma {:induction false} ProductConcat(s: seq<nat>, t: seq<nat>)
    ensures Product(s + t) == Product(s) * Product(t)
  {
    if t == [] {
      assert s + t == s;
    } else {
      var r, x := t[..|t| - 1], t[|t| - 1];
      assert (s + t)[..|s + t| - 1] == s + r;
      ProductConcat(s, r);
      MulAssoc(Product(s), Product(r), x);
    }
  }

  lemma {:induction false} ProductCopies(n: nat, rep: nat)
    ensures Product(Repeat(n, rep)) == Pow(n, rep)
  {
    if rep > 0 {
      ProductCopies(n, rep - 1);
      assert Repeat(n, rep)[..rep - 1] == Repeat(n, rep - 1);
      MulSwap(n, Pow(n, rep - 1));
    }
  }

  // ---------- divisibility ----------

  lemma DividesTimes(d: nat, q: nat)
    requires d > 0
    ensures Divides(d, q * d) && Divides(d, d * q)
  {
    DivMod(q * d, d, q, 0);
    MulSwap(q, d);
  }

  lemma DividesTrans(a: nat, b: nat, c: nat)
    requires Divides(a, b) && Divides(b, c)
    ensures Divides(a, c)
  {
    var x, y := b / a, c / b;
    assert b == x * a && c == y * b;
    MulAssoc(y, x, a);
    DividesTimes(a, y * x);
  }

  /** Dividing by a divisor. */
  lemma Cofactors(n: nat, f: nat)
    requires n >= 1 && f >= 2 && Divides(f, n)
    ensures var m := n / f; n == m * f && 1 <= m < n && Divides(m, n)
  {
    var m := n / f;
    assert n == m * f;
    DividesTimes(m, f);
    MulMono(2, f, m);
    MulSwap(m, f);
  }

  /** No number below `f` divides `n`, apart from 1. */
  predicate NoneBelow(n: nat, f: nat) {
    forall d: nat :: 2 <= d < f ==> !Divides(d, n)
  }

  lemma LeastIsPrime(n: nat, f: nat)
    requires f >= 2 && Divides(f, n) && NoneBelow(n, f)
    ensures Prime(f)
  {
    forall k | 1 < k < f
      ensures f % k != 0
    {
      if f % k == 0 { DividesTrans(k, f, n); }
    }
  }

  lemma NoneBelowDivisor(n: nat, m: nat, f: nat)
    requires NoneBelow(n, f) && Divides(m, n)
    ensures NoneBelow(m, f)
  {
    forall d: nat | 2 <= d < f
      ensures !Divides(d, m)
    {
      if Divides(d, m) { DividesTrans(d, m, n); }
    }
  }

  /** Numbers with a small divisor need not be tried. */
  lemma StepOver(n: nat, f: nat, w: nat)
    requires OnWheel(f, w) && NoneBelow(n, f) && !Divides(f, n)
    ensures NoneBelow(n, f + Inc(w))
  {
    hide Inc;
    forall d: nat | 2 <= d < f + Inc(w)
      ensures !Divides(d, n)
    {
      if f < d {
        Between(f, w, d);
        SmallDivides(d, n, f);
      }
    }
  }

  lemma SmallDivides(d: nat, n: nat, f: nat)
    requires HasSmall(d, f) && NoneBelow(n, f + 1)
    ensures !Divides(d, n)
  {
    var q := if 2 <= f && d % 2 == 0 then 2 else if 3 <= f && d % 3 == 0 then 3
             else if 5 <= f && d % 5 == 0 then 5 else if 7 <= f && d % 7 == 0 then 7 else 11;
    assert !Divides(q, n);
    if Divides(d, n) { DividesTrans(q, d, n); }
  }

  // ---------- what has been found so far ----------

  /** `s` are the factors of `n0` below `f`, and `n` is what is left of it. */
  ghost predicate Going(s: seq<nat>, n: nat, f: nat, n0: nat, rep: nat) {
    && AllPrime(s) && Sorted(s) && Product(s) * Pow(n, rep) == Pow(n0, rep) && AllDivide(s, n0)
    && (forall i :: 0 <= i < |s| ==> s[i] <= f)
    && 1 <= n <= n0 && Divides(n, n0) && f >= 2 && NoneBelow(n, f)
  }

  lemma GoingStart(n: nat, rep: nat)
    requires n >= 1
    ensures Going([], n, 2, n, rep)
  {
    DividesTimes(n, 1);
  }

  /** A factor has been found. */
  lemma GoingFactor(s: seq<nat>, n: nat, f: nat, n0: nat, rep: nat)
    requires Going(s, n, f, n0, rep) && Divides(f, n)
    ensures Going(s + Repeat(f, rep), n / f, f, n0, rep) && 1 <= n / f < n
  {
    hide Pow, Product, Prime, Repeat;
    var m := n / f;
    Cofactors(n, f);
    LeastIsPrime(n, f);
    NoneBelowDivisor(n, m, f);
    DividesTrans(m, n, n0);
    DividesTrans(f, n, n0);
    PowTimes(m, f, rep);
    ProductConcat(s, Repeat(f, rep));
    ProductCopies(f, rep);
    MulAssoc(Product(s), Pow(f, rep), Pow(m, rep));
    MulSwap(Pow(m, rep), Pow(f, rep));
    AppendCopies(s, f, rep, n0);
  }

  lemma AppendCopies(s: seq<nat>, f: nat, rep: nat, n0: nat)
    requires AllPrime(s) && Sorted(s) && AllDivide(s, n0) && (forall i :: 0 <= i < |s| ==> s[i] <= f)
    requires Prime(f) && Divides(f, n0)
    ensures var t := s + Repeat(f, rep);
            AllPrime(t) && Sorted(t) && AllDivide(t, n0) && forall i :: 0 <= i < |t| ==> t[i] <= f
  {
    hide Prime, Divides;
  }

  lemma GoingFacts(s: seq<nat>, n: nat, f: nat, n0: nat, rep: nat)
    requires Going(s, n, f, n0, rep)
    ensures NoneBelow(n, f) && f >= 2 && n <= n0
  {}

  lemma GoingOn(s: seq<nat>, n: nat, f: nat, n0: nat, rep: nat, g: nat)
    requires Going(s, n, f, n0, rep) && f <= g && NoneBelow(n, g)
    ensures Going(s, n, g, n0, rep)
  {
    hide Pow, Product, Prime, Divides;
  }

  /** What is left is prime: it is the last factor. */
  lemma GoingPrime(s: seq<nat>, n: nat, f: nat, n0: nat, rep: nat)
    requires Going(s, n, f, n0, rep) && Prime(n)
    ensures Factors(s + Repeat(n, rep), n0, rep)
  {
    hide Pow, Product, Repeat;
    DividesTimes(n, 1);
    assert Divides(n, n);
    hide Prime, Divides;
    ProductConcat(s, Repeat(n, rep));
    ProductCopies(n, rep);
    AppendCopies(s, n, rep, n0);
  }

  /** What is left is a square, whose root has the factors `t`, each twice as often. */
  lemma GoingSquare(s: seq<nat>, n: nat, f: nat, n0: nat, rep: nat, r: nat, t: seq<nat>)
    requires Going(s, n, f, n0, rep) && n == r * r && r >= 1 && Factors(t, r, 2 * rep)
    ensures Factors(s + t, n0, rep)
  {
    hide Pow, Product;
    PowTwice(r, rep);
    ProductConcat(s, t);
    DividesTimes(r, r);
    forall i | 0 <= i < |t|
      ensures Prime(t[i]) && Divides(t[i], n0) && f <= t[i]
    {
      DividesTrans(t[i], r, n);
      DividesTrans(t[i], n, n0);
    }
    hide Prime, Divides;
    Appended(s, t, f, n0);
  }

  lemma Appended(s: seq<nat>, t: seq<nat>, f: nat, n0: nat)
    requires AllPrime(s) && AllPrime(t) && Sorted(s) && Sorted(t) && AllDivide(s, n0) && AllDivide(t, n0)
    requires (forall i :: 0 <= i < |s| ==> s[i] <= f) && forall i :: 0 <= i < |t| ==> f <= t[i]
    ensures AllPrime(s + t) && Sorted(s + t) && AllDivide(s + t, n0)
  {
    hide Prime, Divides;
  }

  // ---------- square roots ----------

  /** The square root, rounded down. */
  function FloorSqrt(n: nat): (s: nat)
    ensures s * s <= n < (s + 1) * (s + 1)
  {
    if n == 0 then 0 else
    var r := FloorSqrt(n / 4);
    RootDoubles(r, n);
    RootBit(r, n)
  }

  /** One more bit of the root of `n` after `r`. */
  function RootBit(r: nat, n: nat): nat {
    if (2 * r + 1) * (2 * r + 1) <= n then 2 * r + 1 else 2 * r
  }

  lemma RootDoubles(r: nat, n: nat)
    requires r * r <= n / 4 < (r + 1) * (r + 1)
    ensures (2 * r) * (2 * r) <= n < (2 * r + 2) * (2 * r + 2)
  {
    assert (2 * r) * (2 * r) == 4 * (r * r);
    assert (2 * r + 2) * (2 * r + 2) == 4 * ((r + 1) * (r + 1));
  }

  lemma {:induction false} ShrHalf(v: nat, k: nat)
    ensures Shr(v, k + 1) == Shr(v, k) / 2
  {
    if k > 0 { ShrHalf(v / 2, k - 1); }
  }

  lemma {:induction false} RootStep(m: nat)
    ensures FloorSqrt(m) == RootBit(FloorSqrt(m / 4), m)
  {
    if m == 0 {
      assert FloorSqrt(0) == 0;
    } else {
      hide RootBit;
    }
  }

  lemma NextRoot(n: nat, k: nat)
    ensures FloorSqrt(Shr(n, k)) == RootBit(FloorSqrt(Shr(n, k + 2)), Shr(n, k))
  {
    hide Shr, FloorSqrt, RootBit;
    ShrHalf(n, k);
    ShrHalf(n, k + 1);
    HalfTwice(Shr(n, k));
    RootStep(Shr(n, k));
  }

  lemma HalfTwice(m: nat)
    ensures m / 2 / 2 == m / 4
  {}

  lemma TopRoot(n: nat)
    requires n < Pow2(64)
    ensures FloorSqrt(Shr(n, 64)) == 0
  {
    hide Pow2, Shr;
    ShrDiv(n, 64);
    DivMod(n, Pow2(64), 0, n);
  }

  lemma WholeRoot(n: nat)
    ensures Shr(n, 0) == n
  {}

  /** The square root, found bit by bit from the top. */
  method Isqrt(n: nat) returns (x: nat)
    requires n < Pow2(64)
    ensures x == FloorSqrt(n)
  {
    hide FloorSqrt, Shr, Pow2;
    var shift: int := 64 - 2;
    x := 0;
    TopRoot(n);
    while true
      invariant 0 <= shift <= 62 && shift % 2 == 0 && x == FloorSqrt(Shr(n, shift + 2))
      decreases shift
    {
      NextRoot(n, shift);
      x := 2 * x + 1;
      if x * x > Shr(n, shift) {
        x := x - 1;
      }
      shift := shift - 2;
      if shift < 0 {
        break;
      }
    }
    WholeRoot(n);
  }

  /** A number is prime if nothing up to its root divides it. */
  lemma PrimeByRoot(n: nat)
    requires n >= 2 && NoneBelow(n, FloorSqrt(n) + 1)
    ensures Prime(n)
  {
    hide FloorSqrt;
    var k := FloorSqrt(n);
    forall d | 2 <= d <= k
      ensures n % d != 0
    {
      assert !Divides(d, n);
    }
    SmallDivisors(n, k);
  }
}
