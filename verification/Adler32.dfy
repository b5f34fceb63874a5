/** The Adler-32 checksum of section 2.2 of RFC 1950, with its reductions put off. */
module Adler32 {
  import opened Wrappers
  import opened Numbers
  import opened Primes
  import opened Bits
  import opened BitWriter
  import opened CodeLengths

  const LZO_BASE: nat := 65521
  const LZO_NMAX: nat := 5552

  datatype Sums = Sums(s1: nat, s2: nat)

  function Reduce(s: Sums): (r: Sums)
    ensures r.s1 < LZO_BASE && r.s2 < LZO_BASE
  {
    Sums(s.s1 % LZO_BASE, s.s2 % LZO_BASE)
  }

  /** The two sums, reduced after every byte. */
  function Fold(seed: Sums, buf: seq<byte>): (r: Sums)
    ensures r.s1 < LZO_BASE && r.s2 < LZO_BASE
  {
    if buf == [] then Reduce(seed) else
    var f, x := Fold(seed, buf[..|buf| - 1]), buf[|buf| - 1];
    var s1 := (f.s1 + x) % LZO_BASE;
    Sums(s1, (f.s2 + s1) % LZO_BASE)
  }

  function Split(adler: nat): Sums {
    Sums(adler % 0x10000, adler / 0x10000 % 0x10000)
  }

  /** The checksum of `buf` that goes on from `adler`; nothing is done to it if there are no bytes. */
  function Checksum(adler: nat, buf: seq<byte>): (r: nat)
    requires adler < U32
    ensures r < U32
  {
    if buf == [] then adler else
    var f := Fold(Split(adler), buf);
    f.s2 * 0x10000 + f.s1
  }

  lemma SplitOf(f: Sums)
    requires f.s1 < 0x10000 && f.s2 < 0x10000
    ensures Split(f.s2 * 0x10000 + f.s1) == f
  {}

  lemma {:induction false} FoldConcat(seed: Sums, a: seq<byte>, b: seq<byte>)
    ensures Fold(Fold(seed, a), b) == Fold(seed, a + b)
  {
    if b == [] {
      assert a + b == a;
      FoldReduced(seed, a);
    } else {
      assert (a + b)[..|a + b| - 1] == a + b[..|b| - 1];
      FoldConcat(seed, a, b[..|b| - 1]);
    }
  }

  lemma FoldReduced(seed: Sums, a: seq<byte>)
    ensures Fold(Fold(seed, a), []) == Fold(seed, a)
  {
    var f := Fold(seed, a);
    assert f.s1 % LZO_BASE == f.s1 && f.s2 % LZO_BASE == f.s2;
  }

  // ---------- the sums as section 2.2 defines them ----------

  function SumOf(buf: seq<byte>): nat {
    if buf == [] then 0 else buf[0] + SumOf(buf[1..])
  }

  /** The sum of the bytes, each as often as there are bytes from it on. */
  function WeightedSum(buf: seq<byte>): nat {
    if buf == [] then 0 else |buf| * buf[0] + WeightedSum(buf[1..])
  }

  lemma {:induction false} SumsSnoc(a: seq<byte>, x: byte)
    ensures SumOf(a + [x]) == SumOf(a) + x && WeightedSum(a + [x]) == WeightedSum(a) + SumOf(a) + x
  {
    if a == [] {
      assert [x] + [] == [x] && [x][1..] == [] && a + [x] == [x];
    } else {
      assert (a + [x])[1..] == a[1..] + [x];
      SumsSnoc(a[1..], x);
      OneMore(|a|, a[0]);
    }
  }

  lemma OneMore(n: nat, x: nat)
    ensures (n + 1) * x == n * x + x
  {}

  /** Both sums in closed form, modulo 65521. */
  lemma {:induction false} ClosedForm(seed: Sums, buf: seq<byte>)
    ensures Fold(seed, buf) == Sums((seed.s1 + SumOf(buf)) % 65521,
                                    (seed.s2 + |buf| * seed.s1 + WeightedSum(buf)) % 65521)
  {
    if buf != [] {
      var n := |buf| - 1;
      var front, x := buf[..n], buf[n];
      assert buf == front + [x];
      ClosedForm(seed, front);
      SumsSnoc(front, x);
      OneMore(n, seed.s1);
      hide Fold, SumOf, WeightedSum;
      FoldSnoc(seed, front, x);
      ModSums(seed.s1 + SumOf(front), seed.s2 + n * seed.s1 + WeightedSum(front), x);
    }
  }

  lemma FoldSnoc(seed: Sums, front: seq<byte>, x: byte)
    ensures var f := Fold(seed, front);
            var s1 := (f.s1 + x) % LZO_BASE;
            Fold(seed, front + [x]) == Sums(s1, (f.s2 + s1) % LZO_BASE)
  {
    hide Fold;
    var all := front + [x];
    assert all[..|front|] == front && all[..|front| + 1] == all && all[|front|] == x;
    FoldNext(seed, all, |front|);
  }

  lemma ModSums(a: nat, b: nat, x: nat)
    ensures var s1 := (a % 65521 + x) % 65521;
            s1 == (a + x) % 65521 && (b % 65521 + s1) % 65521 == (b + (a + x)) % 65521
  {
    ModPlus(a, x);
    ModPlus(b, (a + x) % 65521);
    ModPlus(a + x, b);
  }

  /** The checksum of a buffer from the start, by its definition. */
  lemma ChecksumIs(buf: seq<byte>)
    ensures Checksum(1, buf) == (|buf| + WeightedSum(buf)) % 65521 * 65536 + (1 + SumOf(buf)) % 65521
  {
    assert Split(1) == Sums(1, 0);
    if buf != [] {
      hide Fold, SumOf, WeightedSum;
      ClosedForm(Sums(1, 0), buf);
    }
  }

  /** The modulus is the largest prime below 65536. */
  lemma LargestPrime()
    ensures Prime(LZO_BASE) && LZO_BASE < 0x10000 && forall p :: LZO_BASE < p < 0x10000 ==> !Prime(p)
  {
    assert forall d :: 2 <= d <= 255 ==> LZO_BASE % d != 0;
    SmallDivisors(LZO_BASE, 255);
    forall p | LZO_BASE < p < 0x10000
      ensures !Prime(p)
    {
      SmallFactor(p);
    }
  }

  lemma SmallFactor(p: nat)
    requires LZO_BASE < p < 0x10000
    ensures exists d :: 1 < d < p && p % d == 0
  {
    var d := if p % 2 == 0 then 2 else if p % 3 == 0 then 3 else if p == 65525 then 5 else if p == 65527 then 7
             else if p == 65531 then 19 else 13;
    assert 1 < d < p && p % d == 0;
  }

  /** The checksum of two buffers is that of the second, going on from that of the first. */
  lemma ChecksumConcat(adler: nat, a: seq<byte>, b: seq<byte>)
    requires adler < U32
    ensures Checksum(Checksum(adler, a), b) == Checksum(adler, a + b)
  {
    if a == [] {
      assert a + b == b;
    } else if b == [] {
      assert a + b == a;
    } else {
      var f := Fold(Split(adler), a);
      SplitOf(f);
      hide Split;
      FoldConcat(Split(adler), a, b);
    }
  }

  /** How large the sums can be `m` bytes after a reduction, or after a seed that is not reduced. */
  predicate InBounds(s1: nat, s2: nat, m: nat) {
    m <= LZO_NMAX && s1 <= 65535 + 255 * m && s2 <= 65535 + 65535 * m + 255 * Triangle(m)
  }

  function Triangle(m: nat): nat {
    if m == 0 then 0 else Triangle(m - 1) + m
  }

  lemma {:induction false} TriangleIs(m: nat)
    ensures 2 * Triangle(m) == m * (m + 1)
  {
    if m > 0 { TriangleIs(m - 1); }
  }

  /** One more byte within the bounds cannot overflow 32 bits. */
  lemma NoOverflow(s1: nat, s2: nat, m: nat, x: byte)
    requires InBounds(s1, s2, m) && m < LZO_NMAX
    ensures s1 + x < U32 && s2 + (s1 + x) < U32 && InBounds(s1 + x, s2 + (s1 + x), m + 1)
  {
    hide Triangle;
    TriangleNext(m);
    TriangleIs(m + 1);
    var n := m + 1;
    assert n * (n + 1) <= LZO_NMAX * (LZO_NMAX + 1) by {
      MulMono(n, LZO_NMAX, n + 1);
      MulMono(n + 1, LZO_NMAX + 1, LZO_NMAX);
    }
  }

  lemma TriangleNext(m: nat)
    ensures Triangle(m + 1) == Triangle(m) + m + 1
  {}

  /** Adding a byte before reducing is the same as after. */
  lemma Residues(s1: nat, s2: nat, f: Sums, x: byte)
    requires Reduce(Sums(s1, s2)) == f
    ensures var t1 := (f.s1 + x) % LZO_BASE;
            Reduce(Sums(s1 + x, s2 + (s1 + x))) == Sums(t1, (f.s2 + t1) % LZO_BASE)
  {
    ModPlus(s1, x);
    ModPlus(s2, s1 + x);
    ModPlus(s1 + x, f.s2);
  }

  lemma ModPlus(a: nat, b: nat)
    ensures (a % LZO_BASE + b) % LZO_BASE == (a + b) % LZO_BASE
  {}

  lemma ReduceTwice(s1: nat, s2: nat)
    ensures Reduce(Sums(s1 % LZO_BASE, s2 % LZO_BASE)) == Reduce(Sums(s1, s2))
  {}

  /** The checksum of `buf`; a missing buffer gives the checksum of nothing. */
  method LzoAdler32(adler: nat, buf: Option<seq<byte>>) returns (r: nat)
    requires adler < U32
    ensures r == if buf.None? then 1 else Checksum(adler, buf.value)
  {
    hide Fold, InBounds, Reduce;
    var s1: nat, s2: nat := adler % 0x10000, adler / 0x10000 % 0x10000;
    if buf.None? {
      return 1;
    }
    var data := buf.value;
    ghost var seed := Split(adler);
    var p := 0;
    assert data[..0] == [];
    Begins(s1, s2, seed);
    while p < |data|
      invariant p <= |data| && s1 < 0x10000 && s2 < 0x10000
      invariant Reduce(Sums(s1, s2)) == Fold(seed, data[..p])
      invariant if p == 0 then s1 == seed.s1 && s2 == seed.s2 else s1 < LZO_BASE && s2 < LZO_BASE
    {
      var k := if |data| - p < LZO_NMAX then |data| - p else LZO_NMAX;
      s1, s2, p := AddBytes(data, p, k, s1, s2, seed);
      ReduceTwice(s1, s2);
      s1 := s1 % LZO_BASE;
      s2 := s2 % LZO_BASE;
    }
    assert data[..p] == data;
    if data != [] { AlreadyReduced(s1, s2); }
    Joined(s1, s2);
    r := Or(Shl(s2, 16) % U32, s1);
  }

  /** Adds `k` bytes to the sums without reducing them. */
  method AddBytes(data: seq<byte>, p0: nat, k0: nat, t1: nat, t2: nat, ghost seed: Sums) returns (s1: nat, s2: nat,
                  p: nat)
    requires p0 + k0 <= |data| && 0 < k0 <= LZO_NMAX && t1 < 0x10000 && t2 < 0x10000
    requires Reduce(Sums(t1, t2)) == Fold(seed, data[..p0])
    ensures p == p0 + k0 && Reduce(Sums(s1, s2)) == Fold(seed, data[..p])
  {
    hide Fold, InBounds, Reduce, U;
    s1, s2, p := t1, t2, p0;
    var k := k0;
    Begins(s1, s2, Sums(s1, s2));
    while true
      invariant 0 < k <= k0 && p == p0 + (k0 - k) && InBounds(s1, s2, k0 - k)
      invariant Reduce(Sums(s1, s2)) == Fold(seed, data[..p])
      decreases k
    {
      NoOverflow(s1, s2, k0 - k, data[p]);
      Residues(s1, s2, Fold(seed, data[..p]), data[p]);
      FoldNext(seed, data, p);
      Small(s1 + data[p]);
      Small(s2 + (s1 + data[p]));
      s1 := U(s1 + data[p]);
      p := p + 1;
      s2 := U(s2 + s1);
      k := k - 1;
      if k == 0 {
        break;
      }
    }
  }

  lemma Begins(s1: nat, s2: nat, seed: Sums)
    requires s1 < 0x10000 && s2 < 0x10000 && seed == Sums(s1, s2)
    ensures InBounds(s1, s2, 0) && Reduce(Sums(s1, s2)) == Fold(seed, [])
  {}

  lemma Small(v: nat)
    requires v < U32
    ensures U(v) == v
  {}

  lemma AlreadyReduced(s1: nat, s2: nat)
    requires s1 < LZO_BASE && s2 < LZO_BASE
    ensures Reduce(Sums(s1, s2)) == Sums(s1, s2)
  {}

  lemma FoldNext(seed: Sums, data: seq<byte>, p: nat)
    requires p < |data|
    ensures var f := Fold(seed, data[..p]);
            var s1 := (f.s1 + data[p]) % LZO_BASE;
            Fold(seed, data[..p + 1]) == Sums(s1, (f.s2 + s1) % LZO_BASE)
  {
    assert data[..p + 1][..p] == data[..p];
  }

  lemma Joined(s1: nat, s2: nat)
    requires s1 < 0x10000 && s2 < 0x10000
    ensures Or(Shl(s2, 16) % U32, s1) == s2 * 0x10000 + s1
  {
    Pow2Sixteen();
    hide Or, Shl, Pow2;
    ShlMul(s2, 16);
    OrDisjoint(s1, 16, s2);
    OrSym(Shl(s2, 16), s1);
  }
}
