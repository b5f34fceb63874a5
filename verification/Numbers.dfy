/** Powers of two, C's bitwise operators on naturals, and finite sums. */
module Numbers {

  const U32 := 0x1_0000_0000

  function Pow2(n: nat): (p: nat)
    ensures p > 0
  {
    if n == 0 then 1 else 2 * Pow2(n - 1)
  }

  /** C's `v << k`, before truncation to a word. */
  function Shl(v: nat, k: nat): nat {
    if k == 0 then v else 2 * Shl(v, k - 1)
  }

  /** C's `v >> k`. */
  function Shr(v: nat, k: nat): nat {
    if k == 0 then v else Shr(v / 2, k - 1)
  }

  /** The low `k` bits of `v`, as a number. */
  function Low(v: nat, k: nat): (r: nat)
    ensures r < Pow2(k)
    decreases k
  {
    if k == 0 then 0 else v % 2 + 2 * Low(v / 2, k - 1)
  }

  lemma {:induction false} ShlOne(k: nat)
    ensures Shl(1, k) == Pow2(k) && Shl(0, k) == 0
  {
    if k > 0 { ShlOne(k - 1); }
  }

  lemma {:induction false} ShlDouble(v: nat, k: nat)
    ensures Shl(2 * v, k) == 2 * Shl(v, k)
  {
    if k > 0 { ShlDouble(v, k - 1); }
  }

  lemma {:induction false} ShlPlus(u: nat, v: nat, k: nat)
    ensures Shl(u + v, k) == Shl(u, k) + Shl(v, k)
  {
    if k > 0 { ShlPlus(u, v, k - 1); }
  }

  lemma {:induction false} ShlShl(v: nat, a: nat, b: nat)
    ensures Shl(Shl(v, a), b) == Shl(v, a + b)
  {
    if b > 0 { ShlShl(v, a, b - 1); }
  }

  lemma Pow2Add(a: nat, b: nat)
    ensures Shl(Pow2(a), b) == Pow2(a + b)
  {
    ShlOne(a); ShlOne(a + b); ShlShl(1, a, b);
  }

  lemma {:induction false} ShlMono(u: nat, v: nat, k: nat)
    requires u <= v
    ensures Shl(u, k) <= Shl(v, k)
  {
    if k > 0 { ShlMono(u, v, k - 1); }
  }

  lemma {:induction false} ShlMul(v: nat, k: nat)
    ensures Shl(v, k) == v * Pow2(k)
  {
    if k > 0 {
      ShlMul(v, k - 1);
      MulAssoc(v, 2, Pow2(k - 1));
      MulAssoc(2, v, Pow2(k - 1));
    }
  }

  lemma MulAssoc(a: int, b: int, c: int)
    ensures a * (b * c) == (a * b) * c
  {}

  lemma Half(v: nat, s: nat)
    ensures (v + 2 * s) % 2 == v % 2 && (v + 2 * s) / 2 == v / 2 + s
  {}

  /** A number is its low bits and its high bits. */
  lemma {:induction false} LowHigh(v: nat, k: nat)
    ensures v == Low(v, k) + Shl(Shr(v, k), k)
    decreases k
  {
    if k > 0 { LowHigh(v / 2, k - 1); }
  }

  /** The split into low and high bits is the only one. */
  lemma {:induction false} LowHighUnique(r: nat, q: nat, k: nat)
    requires r < Pow2(k)
    ensures Low(r + Shl(q, k), k) == r && Shr(r + Shl(q, k), k) == q
    decreases k
  {
    if k > 0 {
      Half(r, Shl(q, k - 1));
      LowHighUnique(r / 2, q, k - 1);
    }
  }

  lemma {:induction false} HighSmall(v: nat, m: nat, n: nat)
    requires v < Pow2(m + n)
    ensures Shr(v, m) < Pow2(n)
    decreases m
  {
    if m > 0 { HighSmall(v / 2, m - 1, n); }
  }

  /** Shifting and masking by a constant are division and remainder by its power of two. */
  lemma ShrDiv(v: nat, k: nat)
    ensures Shr(v, k) == v / Pow2(k) && Low(v, k) == v % Pow2(k)
  {
    LowHigh(v, k);
    ShlMul(Shr(v, k), k);
    DivMod(v, Pow2(k), Shr(v, k), Low(v, k));
  }

  lemma Pow2Zero()
    ensures Pow2(0) == 1
  {}

  /** The powers of two that the format's field widths need. */
  lemma Pow2Table()
    ensures Pow2(0) == 1 && Pow2(1) == 2 && Pow2(2) == 4 && Pow2(3) == 8 && Pow2(4) == 16 && Pow2(5) == 32
    ensures Pow2(6) == 64 && Pow2(7) == 128 && Pow2(8) == 256 && Pow2(9) == 512 && Pow2(10) == 1024
    ensures Pow2(11) == 2048 && Pow2(12) == 4096 && Pow2(13) == 8192 && Pow2(14) == 16384 && Pow2(15) == 32768
  {}

  lemma Pow2Sixteen()
    ensures Pow2(16) == 0x10000
  {
    assert Pow2(8) == 0x100;
  }

  lemma Pow2Word()
    ensures Pow2(32) == U32
  {
    Pow2Sixteen();
    hide Pow2, Shl;
    Pow2Add(16, 16);
    ShlMul(Pow2(16), 16);
  }

  lemma {:induction false} Pow2Mono(a: nat, b: nat)
    requires a <= b
    ensures Pow2(a) <= Pow2(b)
    decreases b - a
  {
    if a < b {
      Pow2Mono(a + 1, b);
    }
  }

  lemma DivMod(a: int, m: int, q: int, r: int)
    requires m > 0 && a == q * m + r && 0 <= r < m
    ensures a / m == q && a % m == r
  {
    var d := a / m - q;
    assert a == (a / m) * m + a % m;
    assert (a / m) * m == d * m + q * m;
    assert d * m + a % m == r;
    if d >= 1 { MulMono(1, d, m); assert false; }
    if d <= -1 { MulMono(d, -1, m); assert false; }
  }

  lemma MulMono(a: int, b: int, m: int)
    requires a <= b && m >= 0
    ensures a * m <= b * m
  {}

  lemma Distribute(a: int, b: int, c: int)
    ensures (a + b) * c == a * c + b * c
  {}

  /** C's `a | b` on unsigned values. */
  function Or(a: nat, b: nat): nat
    decreases a + b
  {
    if a == 0 then b
    else if b == 0 then a
    else 2 * Or(a / 2, b / 2) + (if a % 2 + b % 2 > 0 then 1 else 0)
  }

  /** C's `a ^ b` on unsigned values. */
  function Xor(a: nat, b: nat): nat
    decreases a + b
  {
    if a == 0 && b == 0 then 0
    else 2 * Xor(a / 2, b / 2) + (a % 2 + b % 2) % 2
  }

  /** Oring in a value above every set bit is addition. */
  lemma {:induction false} OrDisjoint(a: nat, k: nat, c: nat)
    requires a < Pow2(k)
    ensures Or(a, Shl(c, k)) == a + Shl(c, k)
    decreases k
  {
    if k > 0 {
      Half(0, Shl(c, k - 1));
      OrDisjoint(a / 2, k - 1, c);
    }
  }

  /** Sum of a sequence of integers. */
  function Sum(s: seq<int>): int {
    if s == [] then 0 else Sum(s[..|s| - 1]) + s[|s| - 1]
  }

  lemma {:induction false} SumUpdate(s: seq<int>, i: nat, v: int)
    requires i < |s|
    ensures Sum(s[i := v]) == Sum(s) - s[i] + v
  {
    if i == |s| - 1 {
      assert s[i := v][..i] == s[..i];
    } else {
      assert s[i := v][..|s| - 1] == s[..|s| - 1][i := v];
      SumUpdate(s[..|s| - 1], i, v);
    }
  }

  lemma {:induction false} SumZeros(a: seq<int>)
    requires forall i :: 0 <= i < |a| ==> a[i] == 0
    ensures Sum(a) == 0
  {
    if a != [] {
      SumZeros(a[..|a| - 1]);
    }
  }

  /** `n` times `v`. */
  function Repeat(v: nat, n: nat): (r: seq<nat>)
    ensures |r| == n && forall i :: 0 <= i < n ==> r[i] == v
  {
    if n == 0 then [] else Repeat(v, n - 1) + [v]
  }
}
