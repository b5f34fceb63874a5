/** Splitting a number into its prime factors by trial division along the wheel. */
module Factoring {
  import opened Numbers
  import opened Primes
  import opened WheelTable
  import opened Wheel
  import opened FactorLists

  // ---------- unpacking the wheel ----------

  /** The halves of the increments, three bits each. */
  function Code(h: Half): nat {
    h.a / 2 + 8 * (h.b / 2 + 8 * (h.c / 2 + 8 * (h.d / 2 + 8 * (h.e / 2
      + 8 * (h.f / 2 + 8 * (h.g / 2 + 8 * (h.h / 2 + 8 * (h.i / 2 + 8 * (h.j / 2)))))))))
  }

  /** A 64-bit word of the packed table: the two halves, from bit 1 and from bit 31 on. */
  function Pack(e: Entry): nat {
    2 * Code(e.lo) + 0x8000_0000 * Code(e.hi)
  }

  /** The same digits as one sequence. */
  function Octal(s: seq<nat>): nat {
    if s == [] then 0 else s[0] / 2 + 8 * Octal(s[1..])
  }

  lemma OctalOne(d: nat, s: seq<nat>)
    ensures Octal([d] + s) == d / 2 + 8 * Octal(s)
  {
    assert ([d] + s)[1..] == s;
  }

  /** Ten more digits in front. */
  lemma OctalHalf(h: Half, t: seq<nat>)
    ensures Octal(h.Incs() + t) == Code(h) + 0x4000_0000 * Octal(t)
  {
    hide Octal;
    var r := [h.j] + t;
    OctalOne(h.j, t);
    OctalOne(h.i, r);
    r := [h.i] + r;
    OctalOne(h.h, r);
    r := [h.h] + r;
    OctalOne(h.g, r);
    r := [h.g] + r;
    OctalOne(h.f, r);
    r := [h.f] + r;
    OctalOne(h.e, r);
    r := [h.e] + r;
    OctalOne(h.d, r);
    r := [h.d] + r;
    OctalOne(h.c, r);
    r := [h.c] + r;
    OctalOne(h.b, r);
    r := [h.b] + r;
    OctalOne(h.a, r);
    assert h.Incs() + t == [h.a] + r;
  }

  lemma PackOctal(e: Entry)
    ensures Pack(e) == 2 * Octal(e.Incs())
  {
    assert Octal([]) == 0;
    hide Octal, Code;
    OctalHalf(e.hi, []);
    OctalHalf(e.lo, e.hi.Incs());
    assert e.hi.Incs() + [] == e.hi.Incs();
  }

  /** Increments that three bits can hold. */
  predicate Packable(s: seq<nat>) {
    forall i :: 0 <= i < |s| ==> 0 < s[i] <= 14 && s[i] % 2 == 0
  }

  lemma {:induction false} ChainPackable(p: nat, s: seq<nat>, z: nat)
    requires Chain(p, s, z)
    ensures Packable(s)
    decreases |s|
  {
    if s != [] {
      ChainPackable(p + s[0], s[1..], z);
      assert s == [s[0]] + s[1..];
    }
  }

  /** The last three bits above the lowest are the first increment. */
  lemma FirstDigit(s: seq<nat>, i: nat, v: nat)
    requires Packable(s) && i <= |s| && v / 2 == Octal(s[i..])
    ensures v / 2 % 8 * 2 == if i < |s| then s[i] else 0
    ensures i < |s| ==> v / 8 / 2 == Octal(s[i + 1..])
  {
    if i < |s| {
      assert s[i..][1..] == s[i + 1..];
      var d, r := s[i] / 2, Octal(s[i + 1..]);
      DivMod(v / 2, 8, r, d);
    }
  }

  /** Unpacks one word of the table behind `p0`. */
  method UnpackEntry(tab: array<nat>, p0: nat, v0: nat, ghost s: seq<nat>) returns (p: nat)
    requires Packable(s) && v0 == 2 * Octal(s) && p0 + |s| <= tab.Length
    modifies tab
    ensures p == p0 + |s| && tab[p0..p] == s
    ensures forall w :: 0 <= w < tab.Length && !(p0 <= w < p) ==> tab[w] == old(tab[w])
  {
    hide Octal;
    p := p0;
    var v := v0;
    ghost var i := 0;
    assert s[0..] == s;
    FirstDigit(s, 0, v);
    while v / 2 % 8 * 2 != 0
      invariant i <= |s| && p == p0 + i && v / 2 == Octal(s[i..]) && tab[p0..p] == s[..i]
      invariant v / 2 % 8 * 2 == if i < |s| then s[i] else 0
      invariant forall w :: 0 <= w < tab.Length && !(p0 <= w < p) ==> tab[w] == old(tab[w])
      decreases |s| - i
    {
      tab[p] := v / 2 % 8 * 2;
      FirstDigit(s, i, v);
      p := p + 1;
      v := v / 8;
      i := i + 1;
      FirstDigit(s, i, v);
    }
    NotZero(s, i);
  }

  lemma NotZero(s: seq<nat>, i: nat)
    requires Packable(s) && i <= |s| && (i < |s| ==> s[i] == 0)
    ensures i == |s| && s[..i] == s
  {}

  predicate IsWheel(tab: seq<nat>) {
    |tab| == WHEEL_SIZE && forall w: nat :: w < WHEEL_SIZE ==> tab[w] == Inc(w)
  }

  /** The whole wheel as a table of increments. */
  method UnpackWheel() returns (tab: array<nat>)
    ensures fresh(tab) && IsWheel(tab[..])
  {
    hide Inc, PackedWheel, Octal, Chain;
    tab := new nat[WHEEL_SIZE](_ => 0);
    tab[0], tab[1], tab[2], tab[3], tab[4] := 1, 2, 2, 4, 2;
    FirstIncs();
    var p := WHEEL_START;
    var i := 0;
    while i < 24
      invariant i <= 24 && p == WHEEL_START + 20 * i
      invariant forall w: nat :: w < p ==> tab[w] == Inc(w)
    {
      EntryChain(i);
      ChainPackable(Start(i), PackedWheel(i).Incs(), Start(i + 1));
      PackOctal(PackedWheel(i));
      ghost var q, s := p, PackedWheel(i).Incs();
      p := UnpackEntry(tab, p, Pack(PackedWheel(i)), s);
      forall w: nat | w < p
        ensures tab[w] == Inc(w)
      {
        if w >= q {
          IncAt(i, w - q);
          assert tab[q..p][w - q] == tab[w];
        }
      }
      i := i + 1;
    }
  }

  lemma FirstIncs()
    ensures Inc(0) == 1 && Inc(1) == 2 && Inc(2) == 2 && Inc(3) == 4 && Inc(4) == 2
  {}

  // ---------- trial division ----------

  const U64: nat := Pow2(64)

  /** The largest trial divisor that matters: the root, or the odd number below it. */
  ghost predicate MaxFactor(n: nat, m: nat) {
    m % 2 == 1 && (m == FloorSqrt(n) || m + 1 == FloorSqrt(n))
  }

  class Factorizer {
    const wheelTab: array<nat>
    var squareCount: nat
    var printed: seq<nat>

    ghost predicate Ready()
      reads wheelTab
    {
      IsWheel(wheelTab[..])
    }

    constructor (tab: array<nat>)
      ensures wheelTab == tab && squareCount == 1 && printed == []
    {
      wheelTab, squareCount, printed := tab, 1, [];
    }

    /** Prints a factor as often as the squares it comes from say. */
    method PrintW(n: nat)
      requires squareCount >= 1
      modifies this`printed
      ensures printed == old(printed) + Repeat(n, squareCount)
    {
      var rep := squareCount;
      ghost var p := printed;
      assert p + Repeat(n, 0) == p;
      while true
        invariant 1 <= rep <= squareCount && printed == p + Repeat(n, squareCount - rep)
        decreases rep
      {
        printed := printed + [n];
        rep := rep - 1;
        if rep == 0 {
          break;
        }
      }
    }

    /** Factors the root of a square, each factor twice as often; otherwise gives the largest trial divisor. */
    method IsqrtOdd(n: nat, ghost top: nat) returns (m: nat, ghost t: seq<nat>)
      requires Ready() && 1 <= n < U64 && FloorSqrt(n) < top && 1 <= squareCount < 64 && Pow(n, squareCount) < U64
      modifies this
      ensures m == 0 <==> FloorSqrt(n) * FloorSqrt(n) == n
      ensures m == 0 ==> printed == old(printed) + t && Factors(t, FloorSqrt(n), 2 * old(squareCount))
      ensures m > 0 ==> MaxFactor(n, m) && printed == old(printed) && squareCount == old(squareCount)
      decreases top, 0
    {
      hide Pow, Factors, FloorSqrt, Pow2;
      var s := Isqrt(n);
      t := [];
      RootBelow(n);
      if s * s == n {
        PowTwice(s, squareCount);
        squareCount := squareCount * 2 % 256;
        t := Factorize(s);
        return 0, t;
      }
      m := (s - 1) / 2 * 2 + 1;
      OddRoot(n);
    }

    /** Prints the prime factors of `n0`, in order. */
    method Factorize(n0: nat) returns (ghost s: seq<nat>)
      requires Ready() && 1 <= n0 < U64 && 1 <= squareCount < 128 && Pow(n0, squareCount) < U64
      modifies this
      ensures printed == old(printed) + s && Factors(s, n0, old(squareCount))
      decreases n0, 3
    {
      hide Factors, Going, FloorSqrt, Inc, OnWheel, MaxFactor, Pow2, Pow, NoneBelow, Divides;
      ghost var rep, p0 := squareCount, printed;
      GoingStart(n0, rep);
      if n0 < 4 {
        if n0 > 1 {
          SmallPrime(n0);
          GoingPrime([], n0, 2, n0, rep);
          PrintW(n0);
          s := Repeat(n0, rep);
          assert [] + s == s;
        } else {
          s := [];
          NoFactors(rep);
        }
        return;
      }
      SmallExponent(n0, rep);
      RootBelow(n0);
      var n := n0;
      var maxFactor, t := IsqrtOdd(n, n0);
      if maxFactor == 0 {
        GoingSquare([], n, 2, n0, rep, FloorSqrt(n), t);
        s := t;
        assert [] + t == t;
        return;
      }
      RootOfOne(n);
      s := TryDivisors(n, maxFactor, rep, p0);
    }

    /** Tries the divisors along the wheel. */
    method TryDivisors(n0: nat, max0: nat, ghost rep: nat, ghost p0: seq<nat>) returns (ghost s: seq<nat>)
      requires Ready() && printed == p0 && squareCount == rep && Going([], n0, 2, n0, rep)
      requires MaxFactor(n0, max0) && FloorSqrt(n0) * FloorSqrt(n0) != n0
      requires 4 <= n0 < U64 && 1 <= rep < 64 && Pow(n0, rep) < U64
      modifies this
      ensures printed == p0 + s && Factors(s, n0, rep)
      decreases n0, 2
    {
      hide Factors, Going, FloorSqrt, Inc, OnWheel, MaxFactor, Pow2, Pow, NoneBelow, Divides;
      var n: nat, maxFactor: nat := n0, max0;
      var factor: nat, w: nat := 2, 0;
      s := [];
      OnWheelStart();
      while true
        invariant printed == p0 + s && squareCount == rep && Going(s, n, factor, n0, rep) && 2 <= n <= n0
        invariant MaxFactor(n, maxFactor) && FloorSqrt(n) * FloorSqrt(n) != n
        invariant OnWheel(factor, w) && factor < U32 && w < WHEEL_SIZE
        decreases n, U32 - factor
      {
        var done;
        n, maxFactor, done, s := DivideOut(n, factor, maxFactor, s, n0, rep, p0);
        if done {
          return;
        }
        GoingFacts(s, n, factor, n0, rep);
        if factor >= maxFactor {
          StopsAtRoot(n, factor, maxFactor);
          break;
        }
        IncPositive(w);
        StepOver(n, factor, w);
        OnWheelNext(factor, w);
        var next := (factor + wheelTab[w]) % U32;
        if next < factor {
          StopsAtWord(n, factor, w);
          break;
        }
        NoWrap(factor, Inc(w));
        GoingOn(s, n, factor, n0, rep, next);
        factor := next;
        w := w + 1;
        if w >= WHEEL_SIZE {
          w := WHEEL_START;
        }
      }
      GoingPrime(s, n, factor, n0, rep);
      PrintW(n);
      s := s + Repeat(n, rep);
    }

    /** Divides by a factor as often as possible. */
    method DivideOut(n1: nat, factor: nat, max1: nat, ghost s1: seq<nat>, ghost n0: nat, ghost rep: nat,
                     ghost p0: seq<nat>)
      returns (n: nat, maxFactor: nat, done: bool, ghost s: seq<nat>)
      requires Ready() && printed == p0 + s1 && squareCount == rep && Going(s1, n1, factor, n0, rep)
      requires MaxFactor(n1, max1) && FloorSqrt(n1) * FloorSqrt(n1) != n1
      requires 4 <= n0 < U64 && 1 <= rep < 64 && Pow(n0, rep) < U64 && 2 <= n1 <= n0 && 2 <= factor
      modifies this
      ensures done ==> printed == p0 + s && Factors(s, n0, rep)
      ensures !done ==> printed == p0 + s && squareCount == rep && Going(s, n, factor, n0, rep) && 2 <= n <= n1
      ensures !done ==> MaxFactor(n, maxFactor) && FloorSqrt(n) * FloorSqrt(n) != n && !Divides(factor, n)
      decreases n0, 1
    {
      hide Factors, Going, FloorSqrt, MaxFactor, Pow2, Pow, NoneBelow;
      n, maxFactor, done, s := n1, max1, false, s1;
      while n % factor == 0
        invariant printed == p0 + s && squareCount == rep && Going(s, n, factor, n0, rep) && 2 <= n <= n1
        invariant MaxFactor(n, maxFactor) && FloorSqrt(n) * FloorSqrt(n) != n
        decreases n
      {
        GoingFactor(s, n, factor, n0, rep);
        n := n / factor;
        PrintW(factor);
        s := s + Repeat(factor, rep);
        PowMono(n, n0, rep);
        RootBelow(n);
        ghost var t;
        maxFactor, t := IsqrtOdd(n, n0);
        if maxFactor == 0 {
          GoingSquare(s, n, factor, n0, rep, FloorSqrt(n), t);
          s := s + t;
          done := true;
          return;
        }
        RootOfOne(n);
      }
    }
  }

  lemma NoFactors(rep: nat)
    ensures Factors([], 1, rep)
  {
    PowOne(rep);
  }

  lemma SmallPrime(n: nat)
    requires n == 2 || n == 3
    ensures Prime(n)
  {}

  lemma RootBelow(n: nat)
    requires n >= 1
    ensures 1 <= FloorSqrt(n) <= n && (n >= 2 ==> FloorSqrt(n) < n)
  {
    hide FloorSqrt;
    var s := FloorSqrt(n);
    if s >= 2 { MulMono(2, s, s); }
  }

  lemma OddRoot(n: nat)
    requires n >= 1
    ensures FloorSqrt(n) >= 1 && MaxFactor(n, (FloorSqrt(n) - 1) / 2 * 2 + 1)
  {
    RootBelow(n);
    hide FloorSqrt;
  }

  lemma RootOfOne(n: nat)
    requires FloorSqrt(n) * FloorSqrt(n) != n && n >= 1
    ensures n >= 2
  {}

  lemma NoWrap(f: nat, inc: nat)
    requires f < U32 && 0 < inc <= 14 && (f + inc) % U32 >= f
    ensures (f + inc) % U32 == f + inc < U32
  {}

  /** Every trial divisor up to the root has been tried. */
  lemma StopsAtRoot(n: nat, f: nat, m: nat)
    requires n >= 2 && f >= 2 && NoneBelow(n, f) && !Divides(f, n) && MaxFactor(n, m) && f >= m
    ensures Prime(n)
  {
    hide FloorSqrt, Prime;
    var r := FloorSqrt(n);
    assert !Divides(2, n);
    forall d: nat | 2 <= d < r + 1
      ensures !Divides(d, n)
    {
      if d > f && Divides(d, n) {
        EvenNext(d, m);
        DividesTrans(2, d, n);
      }
    }
    PrimeByRoot(n);
  }

  lemma EvenNext(d: nat, m: nat)
    requires m % 2 == 1 && d == m + 1
    ensures Divides(2, d)
  {}

  /** The next trial divisor would not fit 32 bits: it is greater than every root. */
  lemma StopsAtWord(n: nat, f: nat, w: nat)
    requires 2 <= n < U64 && w < WHEEL_SIZE && NoneBelow(n, f + Inc(w))
    requires f < U32 && 0 < Inc(w) <= 14 && (f + Inc(w)) % U32 < f
    ensures Prime(n)
  {
    hide FloorSqrt, Prime, Inc, Pow2, NoneBelow;
    assert f + Inc(w) >= U32;
    var r := FloorSqrt(n);
    WordSquare();
    if r >= U32 {
      MulMono(U32, r, U32);
      MulMono(U32, r, r);
    }
    FewerBelow(n, f + Inc(w), r + 1);
    PrimeByRoot(n);
  }

  lemma FewerBelow(n: nat, f: nat, g: nat)
    requires NoneBelow(n, f) && g <= f
    ensures NoneBelow(n, g)
  {}

  lemma WordSquare()
    ensures U32 * U32 == U64
  {
    Pow2Word();
    hide Pow2, Shl;
    Pow2Add(32, 32);
    ShlMul(Pow2(32), 32);
  }

  /** The prime factors of a 64-bit number, in order. */
  method Factor(n: nat) returns (factors: seq<nat>)
    requires 1 <= n < U64
    ensures AllPrime(factors) && Sorted(factors) && Product(factors) == n
  {
    hide Product, Prime, Pow2;
    assert Pow(n, 1) == n * Pow(n, 0) == n;
    hide Pow;
    var tab := UnpackWheel();
    var f := new Factorizer(tab);
    ghost var s := f.Factorize(n);
    factors := f.printed;
    assert [] + s == s;
  }
}
