/** The wheel of trial divisors: it steps over the multiples of 2, 3, 5, 7 and 11, and over nothing else. */
module Wheel {
  import opened Numbers
  import opened WheelTable

  const WHEEL_START: nat := 5
  const WHEEL_SIZE: nat := 5 + 24 * 20
  const ROUND: nat := 2310 // 2 * 3 * 5 * 7 * 11

  /** The increment at place `w` of the wheel. */
  function Inc(w: nat): nat
    requires w < WHEEL_SIZE
  {
    if w < WHEEL_START then [1, 2, 2, 4, 2][w] else PackedWheel((w - WHEEL_START) / 20).Incs()[(w - WHEEL_START) % 20]
  }

  /** The trial divisor at place `w`, on the first round. */
  function Candidate(w: nat): nat
    requires w <= WHEEL_SIZE
  {
    if w == 0 then 2 else Candidate(w - 1) + Inc(w - 1)
  }

  /** The place after `w`: after the last one the wheel goes on where its round starts. */
  function Next(w: nat): (v: nat)
    requires w < WHEEL_SIZE
    ensures v < WHEEL_SIZE
  {
    if w + 1 < WHEEL_SIZE then w + 1 else WHEEL_START
  }

  // ---------- one round ----------

  lemma IncAt(k: nat, i: nat)
    requires k < 24 && i < 20
    ensures Inc(WHEEL_START + 20 * k + i) == PackedWheel(k).Incs()[i]
  {
    hide PackedWheel;
    DivMod(20 * k + i, 20, k, i);
  }

  /** The increments `s` lead from `p` to `z`, and each steps over numbers with small divisors only. */
  predicate Chain(p: nat, s: seq<nat>, z: nat)
    decreases |s|
  {
    if s == [] then p == z else Gap(p, s[0]) && Chain(p + s[0], s[1..], z)
  }

  lemma OneMore(p: nat, d: nat, s: seq<nat>, z: nat)
    requires Gap(p, d) && Chain(p + d, s, z)
    ensures Chain(p, [d] + s, z)
  {
    assert ([d] + s)[1..] == s;
  }

  /** Five gaps in a row. */
  lemma FiveMore(p: nat, a: nat, b: nat, c: nat, d: nat, e: nat, s: seq<nat>, z: nat)
    requires Gap(p, a) && Gap(p + a, b) && Gap(p + a + b, c) && Gap(p + a + b + c, d) && Gap(p + a + b + c + d, e)
    requires Chain(p + a + b + c + d + e, s, z)
    ensures Chain(p, [a, b, c, d, e] + s, z)
  {
    hide Chain, Gap;
    OneMore(p + a + b + c + d, e, s, z);
    OneMore(p + a + b + c, d, [e] + s, z);
    OneMore(p + a + b, c, [d] + ([e] + s), z);
    OneMore(p + a, b, [c] + ([d] + ([e] + s)), z);
    OneMore(p, a, [b] + ([c] + ([d] + ([e] + s))), z);
    assert [a, b, c, d, e] + s == [a] + ([b] + ([c] + ([d] + ([e] + s))));
  }

  lemma HalfChain(p: nat, s: Half, z: nat)
    requires HalfOk(p, s, z)
    ensures Chain(p, s.Incs(), z)
  {
    hide Chain, Gap;
    ChainEnd(z);
    FiveMore(p + s.a + s.b + s.c + s.d + s.e, s.f, s.g, s.h, s.i, s.j, [], z);
    FiveMore(p, s.a, s.b, s.c, s.d, s.e, [s.f, s.g, s.h, s.i, s.j] + [], z);
    assert s.Incs() == [s.a, s.b, s.c, s.d, s.e] + ([s.f, s.g, s.h, s.i, s.j] + []);
  }

  lemma ChainEnd(z: nat)
    ensures Chain(z, [], z)
  {}

  lemma {:induction false} ChainConcat(p: nat, s: seq<nat>, m: nat, t: seq<nat>, z: nat)
    requires Chain(p, s, m) && Chain(m, t, z)
    ensures Chain(p, s + t, z)
    decreases |s|
  {
    hide Gap;
    if s == [] {
      assert s + t == t;
    } else {
      ChainConcat(p + s[0], s[1..], m, t, z);
      assert (s + t)[1..] == s[1..] + t;
    }
  }

  lemma EntryChain(k: nat)
    requires k < 24
    ensures Chain(Start(k), PackedWheel(k).Incs(), Start(k + 1))
  {
    hide HalfOk, Chain, PackedWheel, Start;
    var m := TableOk(k);
    HalfChain(Start(k), PackedWheel(k).lo, m);
    HalfChain(m, PackedWheel(k).hi, Start(k + 1));
    ChainConcat(Start(k), PackedWheel(k).lo.Incs(), m, PackedWheel(k).hi.Incs(), Start(k + 1));
  }

  /** Along a chain in the wheel every increment is a gap. */
  lemma {:induction false} ChainGaps(w: nat, s: seq<nat>, z: nat)
    requires w + |s| <= WHEEL_SIZE && Chain(Candidate(w), s, z)
    requires forall i: nat :: i < |s| ==> IncIs(w + i, s[i])
    ensures Candidate(w + |s|) == z && forall v: nat :: w <= v < w + |s| ==> Gap(Candidate(v), Inc(v))
    decreases |s|
  {
    hide Inc, Gap;
    if s != [] {
      assert IncIs(w + 0, s[0]);
      assert Candidate(w + 1) == Candidate(w) + Inc(w);
      forall i: nat | i < |s| - 1
        ensures IncIs(w + 1 + i, s[1..][i])
      {
        assert IncIs(w + (i + 1), s[i + 1]);
      }
      ChainGaps(w + 1, s[1..], z);
    }
  }

  predicate IncIs(w: nat, d: nat) {
    w < WHEEL_SIZE && Inc(w) == d
  }

  /** Entry `k` of the table, in its place in the wheel. */
  lemma {:induction false} EntryGaps(k: nat)
    requires k <= 24
    ensures Candidate(WHEEL_START + 20 * k) == Start(k)
    ensures forall v: nat :: WHEEL_START <= v < WHEEL_START + 20 * k ==> Gap(Candidate(v), Inc(v))
  {
    hide Inc, Gap, Chain, PackedWheel, Start;
    if k == 0 {
      FirstCandidates();
    } else {
      var w := WHEEL_START + 20 * (k - 1);
      EntryGaps(k - 1);
      EntryChain(k - 1);
      var r := PackedWheel(k - 1).Incs();
      forall i: nat | i < 20
        ensures IncIs(w + i, r[i])
      {
        IncAt(k - 1, i);
      }
      ChainGaps(w, r, Start(k));
    }
  }

  lemma FirstCandidates()
    ensures Candidate(0) == 2 && Candidate(1) == 3 && Candidate(2) == 5 && Candidate(3) == 7 && Candidate(4) == 11
    ensures Candidate(WHEEL_START) == 13 == Start(0) && Start(24) == 13 + ROUND
  {}

  /** Every increment of the wheel proper is a gap, and a round is 2310. */
  lemma WheelGaps(w: nat)
    requires WHEEL_START <= w < WHEEL_SIZE
    ensures Gap(Candidate(w), Inc(w)) && Candidate(WHEEL_SIZE) == Candidate(WHEEL_START) + ROUND
  {
    hide Inc, Gap, Candidate, Start;
    EntryGaps(24);
    FirstCandidates();
  }

  // ---------- all rounds ----------

  /** `f` is at place `w` of the wheel, on some round. */
  ghost predicate OnWheel(f: nat, w: nat) {
    w < WHEEL_SIZE && exists lap: nat :: OnLap(f, w, lap)
  }

  predicate OnLap(f: nat, w: nat, lap: nat)
    requires w < WHEEL_SIZE
  {
    f == Candidate(w) + ROUND * lap && (w < WHEEL_START ==> lap == 0)
  }

  lemma OnWheelStart()
    ensures OnWheel(2, 0)
  {
    assert OnLap(2, 0, 0);
  }

  lemma OnWheelNext(f: nat, w: nat)
    requires OnWheel(f, w)
    ensures OnWheel(f + Inc(w), Next(w))
  {
    hide Inc;
    var lap: nat :| OnLap(f, w, lap);
    if w + 1 < WHEEL_SIZE {
      assert Candidate(w + 1) == Candidate(w) + Inc(w);
      assert OnLap(f + Inc(w), w + 1, lap);
    } else {
      assert Candidate(WHEEL_SIZE) == Candidate(w) + Inc(w);
      WheelGaps(w);
      assert OnLap(f + Inc(w), WHEEL_START, lap + 1);
    }
  }

  /** A number with a divisor `q` among the first five primes that is not greater than `f`. */
  predicate HasSmall(d: nat, f: nat) {
    || (2 <= f && d % 2 == 0) || (3 <= f && d % 3 == 0) || (5 <= f && d % 5 == 0)
    || (7 <= f && d % 7 == 0) || (11 <= f && d % 11 == 0)
  }

  lemma RoundsAlike(x: nat, lap: nat)
    ensures (x + ROUND * lap) % 2 == x % 2 && (x + ROUND * lap) % 3 == x % 3 && (x + ROUND * lap) % 5 == x % 5
    ensures (x + ROUND * lap) % 7 == x % 7 && (x + ROUND * lap) % 11 == x % 11
  {
    Multiple(x, 2, 1155 * lap); Multiple(x, 3, 770 * lap); Multiple(x, 5, 462 * lap);
    Multiple(x, 7, 330 * lap); Multiple(x, 11, 210 * lap);
  }

  lemma Multiple(x: nat, q: nat, m: nat)
    requires q > 0
    ensures (x + q * m) % q == x % q
  {
    Distribute(x / q, m, q);
    DivMod(x + q * m, q, x / q + m, x % q);
  }

  /** On every round, what lies between a trial divisor and the next one has a small divisor. */
  lemma Between(f: nat, w: nat, d: nat)
    requires OnWheel(f, w) && f < d < f + Inc(w)
    ensures HasSmall(d, f)
  {
    hide Inc, Candidate;
    FirstCandidates();
    if w < WHEEL_START {
      BetweenFirst(w, d);
    } else {
      var lap: nat :| OnLap(f, w, lap);
      WheelGaps(w);
      var p := Candidate(w);
      CandidateAtLeast(w);
      GapSmall(p, Inc(w), d - ROUND * lap);
      RoundsAlike(d - ROUND * lap, lap);
    }
  }

  lemma BetweenFirst(w: nat, d: nat)
    requires w < WHEEL_START && Candidate(w) < d < Candidate(w) + Inc(w)
    ensures HasSmall(d, Candidate(w))
  {}

  lemma {:induction false} CandidateAtLeast(w: nat)
    requires WHEEL_START <= w <= WHEEL_SIZE
    ensures Candidate(w) >= 13
  {
    hide Inc;
    if w == WHEEL_START { FirstCandidates(); } else { CandidateAtLeast(w - 1); }
  }

  lemma GapSmall(p: nat, inc: nat, x: nat)
    requires Gap(p, inc) && p < x < p + inc && p >= 13
    ensures HasSmall(x, 13)
  {
    hide Small, HasSmall;
    var d := x - p;
    if d % 2 == 1 {
      OddSum(p, d);
    } else {
      assert d == 2 || d == 4 || d == 6 || d == 8 || d == 10 || d == 12;
      assert Small(x);
    }
    SmallHas(x);
  }

  lemma OddSum(p: nat, d: nat)
    requires p % 2 == 1 && d % 2 == 1
    ensures (p + d) % 2 == 0
  {}

  lemma SmallHas(x: nat)
    ensures Small(x) || x % 2 == 0 ==> HasSmall(x, 13)
  {}

  // ---------- the sequence of trial divisors ----------

  /** The place and the value of trial divisor `n`, counted over all rounds. */
  function Place(n: nat): (w: nat)
    ensures w < WHEEL_SIZE
  {
    if n == 0 then 0 else Next(Place(n - 1))
  }

  function Divisor(n: nat): nat {
    if n == 0 then 2 else Divisor(n - 1) + Inc(Place(n - 1))
  }

  lemma {:induction false} DivisorOnWheel(n: nat)
    ensures OnWheel(Divisor(n), Place(n))
  {
    hide Inc;
    if n == 0 {
      OnWheelStart();
    } else {
      DivisorOnWheel(n - 1);
      OnWheelNext(Divisor(n - 1), Place(n - 1));
    }
  }

  lemma IncPositive(w: nat)
    requires w < WHEEL_SIZE
    ensures 0 < Inc(w) <= 14
  {
    if w >= WHEEL_START {
      hide Inc, Candidate;
      WheelGaps(w);
    }
  }

  /** The trial divisors run over every number from 2 on without a proper divisor among 2, 3, 5, 7 and 11. */
  lemma {:induction false} NoneSkipped(x: nat, n: nat) returns (k: nat)
    requires x >= 2 && Divisor(n) <= x && !HasSmall(x, x - 1)
    ensures Divisor(k) == x
    decreases x - Divisor(n)
  {
    hide Inc, HasSmall, OnWheel;
    IncPositive(Place(n));
    assert Divisor(n + 1) == Divisor(n) + Inc(Place(n));
    if Divisor(n) == x {
      k := n;
    } else {
      if x < Divisor(n + 1) {
        DivisorOnWheel(n);
        Between(Divisor(n), Place(n), x);
        SmallMore(x, Divisor(n), x - 1);
      }
      k := NoneSkipped(x, n + 1);
    }
  }

  lemma SmallMore(d: nat, f: nat, g: nat)
    requires HasSmall(d, f) && f <= g
    ensures HasSmall(d, g)
  {}
}
