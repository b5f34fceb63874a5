/** Canonical Huffman codes, section 3.2.2 of RFC 1951. */
module Canonical {
  import opened Numbers
  import opened Bits

  const MAX_BITS := 15

  predicate LensOk(lens: seq<nat>) {
    forall i :: 0 <= i < |lens| ==> lens[i] <= MAX_BITS
  }

  /** How many symbols have a code of `b` bits. */
  function Count(lens: seq<nat>, b: nat): nat {
    if lens == [] then 0
    else Count(lens[..|lens| - 1], b) + if lens[|lens| - 1] == b then 1 else 0
  }

  /** The smallest code of `b` bits. */
  function FirstCode(lens: seq<nat>, b: nat): nat {
    if b <= 1 then 0 else 2 * (FirstCode(lens, b - 1) + Count(lens, b - 1))
  }

  /** Symbols with codes of the same length take consecutive values. */
  function CodeOf(lens: seq<nat>, i: nat): nat
    requires i < |lens|
  {
    FirstCode(lens, lens[i]) + Count(lens[..i], lens[i])
  }

  /** The code of symbol `i`; codes go out most significant bit first. */
  function Code(lens: seq<nat>, i: nat): (c: Bits)
    requires i < |lens|
    ensures |c| == lens[i]
  {
    Msb(CodeOf(lens, i), lens[i])
  }

  /** The Kraft sum, in units of 2^-15. */
  function Kraft(lens: seq<nat>): nat
    requires LensOk(lens)
  {
    if lens == [] then 0
    else Kraft(lens[..|lens| - 1]) + Share(lens[|lens| - 1])
  }

  function Share(l: nat): nat
    requires l <= MAX_BITS
  {
    if l == 0 then 0 else Pow2(MAX_BITS - l)
  }

  const WHOLE := Pow2(MAX_BITS)

  /** The share of the code space taken by codes shorter than `b` bits. */
  function Below(lens: seq<nat>, b: nat): nat
    requires b <= MAX_BITS + 1
  {
    if b <= 1 then 0 else Below(lens, b - 1) + Shl(Count(lens, b - 1), MAX_BITS - (b - 1))
  }

  lemma {:induction false} FirstCodeBelow(lens: seq<nat>, b: nat)
    requires b <= MAX_BITS
    ensures Shl(FirstCode(lens, b), MAX_BITS - b) == Below(lens, b)
    decreases b
  {
    if b <= 1 {
      ShlOne(MAX_BITS - b);
    } else {
      FirstCodeBelow(lens, b - 1);
      var f, c := FirstCode(lens, b - 1), Count(lens, b - 1);
      ShlDouble(f + c, MAX_BITS - b);
      ShlPlus(f, c, MAX_BITS - b + 1);
    }
  }

  lemma {:induction false} BelowSnoc(lens: seq<nat>, b: nat)
    requires lens != [] && LensOk(lens) && b <= MAX_BITS + 1
    ensures var l := lens[|lens| - 1];
            Below(lens, b) == Below(lens[..|lens| - 1], b) + if l < b then Share(l) else 0
  {
    if b > 1 {
      BelowSnoc(lens, b - 1);
      var l, c := lens[|lens| - 1], Count(lens[..|lens| - 1], b - 1);
      if l == b - 1 {
        ShlPlus(c, 1, MAX_BITS - l);
        ShlOne(MAX_BITS - l);
      }
    }
  }

  lemma {:induction false} BelowAll(lens: seq<nat>)
    requires LensOk(lens)
    ensures Below(lens, MAX_BITS + 1) == Kraft(lens)
  {
    if lens == [] {
      BelowNothing(MAX_BITS + 1);
    } else {
      BelowAll(lens[..|lens| - 1]);
      BelowSnoc(lens, MAX_BITS + 1);
    }
  }

  lemma {:induction false} BelowNothing(b: nat)
    requires b <= MAX_BITS + 1
    ensures Below([], b) == 0
  {
    if b > 1 {
      BelowNothing(b - 1);
      ShlOne(MAX_BITS - (b - 1));
    }
  }

  lemma {:induction false} BelowMono(lens: seq<nat>, a: nat, b: nat)
    requires a <= b <= MAX_BITS + 1
    ensures Below(lens, a) <= Below(lens, b)
  {
    if a < b { BelowMono(lens, a, b - 1); }
  }

  lemma {:induction false} CountPrefix(lens: seq<nat>, i: nat, b: nat)
    requires i <= |lens|
    ensures Count(lens[..i], b) <= Count(lens, b)
    decreases |lens|
  {
    if i < |lens| {
      assert lens[..|lens| - 1][..i] == lens[..i];
      CountPrefix(lens[..|lens| - 1], i, b);
    } else {
      assert lens[..i] == lens;
    }
  }

  /** A symbol's slice of the code space: where it starts, and that it ends before longer codes start. */
  lemma Slice(lens: seq<nat>, i: nat)
    requires LensOk(lens) && i < |lens| && lens[i] > 0
    ensures Below(lens, lens[i]) <= Shl(CodeOf(lens, i), MAX_BITS - lens[i])
    ensures Shl(CodeOf(lens, i) + 1, MAX_BITS - lens[i]) <= Below(lens, lens[i] + 1)
  {
    var l := lens[i];
    var f, r := FirstCode(lens, l), Count(lens[..i], l);
    assert lens[..i + 1][..i] == lens[..i];
    assert Count(lens[..i + 1], l) == r + 1;
    CountPrefix(lens, i + 1, l);
    FirstCodeBelow(lens, l);
    ShlMono(r + 1, Count(lens, l), MAX_BITS - l);
    ShlPlus(f, r, MAX_BITS - l);
    ShlPlus(f, r + 1, MAX_BITS - l);
  }

  lemma {:induction false} ShlCancel(u: nat, v: nat, k: nat)
    requires Shl(u, k) <= Shl(v, k)
    ensures u <= v
  {
    if k > 0 { ShlCancel(u, v, k - 1); }
  }

  /** In a code space that is not over-subscribed every code fits its length. */
  lemma CodeFits(lens: seq<nat>, i: nat)
    requires LensOk(lens) && Kraft(lens) <= WHOLE && i < |lens| && lens[i] > 0
    ensures CodeOf(lens, i) < Pow2(lens[i])
  {
    var l := lens[i];
    Slice(lens, i);
    BelowMono(lens, l + 1, MAX_BITS + 1);
    BelowAll(lens);
    Pow2Add(l, MAX_BITS - l);
    hide Pow2, Kraft, CodeOf;
    ShlCancel(CodeOf(lens, i) + 1, Pow2(l), MAX_BITS - l);
  }

  lemma {:induction false} MsbPrefix(v: nat, n: nat, m: nat)
    requires m <= n
    ensures Msb(v, n)[..m] == Msb(Shr(v, n - m), m)
    decreases n
  {
    if m < n {
      MsbPrefix(v / 2, n - 1, m);
      assert Msb(v, n)[..m] == Msb(v / 2, n - 1)[..m];
    } else {
      assert Msb(v, n)[..m] == Msb(v, n);
    }
  }

  lemma {:induction false} MsbInjective(u: nat, v: nat, n: nat)
    requires u < Pow2(n) && v < Pow2(n) && Msb(u, n) == Msb(v, n)
    ensures u == v
  {
    if n > 0 {
      var a, b := Msb(u / 2, n - 1), Msb(v / 2, n - 1);
      assert a == (a + [u % 2])[..n - 1] == (b + [v % 2])[..n - 1] == b;
      assert u % 2 == (a + [u % 2])[n - 1] == (b + [v % 2])[n - 1] == v % 2;
      MsbInjective(u / 2, v / 2, n - 1);
    }
  }

  lemma {:induction false} CountStrict(lens: seq<nat>, i: nat, j: nat)
    requires i < j < |lens|
    ensures Count(lens[..i], lens[i]) < Count(lens[..j], lens[i])
    decreases j
  {
    assert lens[..j][..j - 1] == lens[..j - 1];
    if i < j - 1 { CountStrict(lens, i, j - 1); }
  }

  lemma SameLength(lens: seq<nat>, i: nat, j: nat)
    requires i < |lens| && j < |lens| && lens[i] == lens[j] && i != j
    ensures CodeOf(lens, i) != CodeOf(lens, j)
  {
    if i < j { CountStrict(lens, i, j); } else { CountStrict(lens, j, i); }
  }

  lemma ShrZero(v: nat)
    ensures Shr(v, 0) == v
  {}

  /** No code is a prefix of another. */
  lemma PrefixFree(lens: seq<nat>, i: nat, j: nat)
    requires LensOk(lens) && Kraft(lens) <= WHOLE
    requires i < |lens| && j < |lens| && 0 < lens[i] <= lens[j] && i != j
    ensures Code(lens, j)[..lens[i]] != Code(lens, i)
  {
    hide Msb, Pow2, Kraft, CodeOf, Below, Shl, Shr, Count;
    var li, lj := lens[i], lens[j];
    var ci, cj := CodeOf(lens, i), CodeOf(lens, j);
    CodeFits(lens, i);
    CodeFits(lens, j);
    MsbPrefix(cj, lj, li);
    if Code(lens, j)[..li] == Code(lens, i) {
      HighSmall(cj, lj - li, li);
      MsbInjective(Shr(cj, lj - li), ci, li);
      if li == lj {
        assert Shr(cj, 0) == cj by { ShrZero(cj); }
        SameLength(lens, i, j);
      } else {
        SliceInside(cj, ci, lj - li, MAX_BITS - lj);
        Slice(lens, i);
        Slice(lens, j);
        BelowMono(lens, li + 1, lj);
      }
    }
  }

  lemma SliceInside(v: nat, u: nat, d: nat, k: nat)
    requires Shr(v, d) == u
    ensures Shl(v, k) < Shl(u + 1, d + k)
  {
    LowHigh(v, d);
    ShlPlus(u, 1, d);
    ShlOne(d);
    if Shl(u + 1, d + k) <= Shl(v, k) {
      ShlShl(u + 1, d, k);
      ShlCancel(Shl(u + 1, d), v, k);
    }
  }

  /** At any place in a bit string at most one symbol's code begins. */
  lemma UniqueSymbol(lens: seq<nat>, s: Bits, pos: nat, i: nat, j: nat)
    requires LensOk(lens) && Kraft(lens) <= WHOLE
    requires i < |lens| && j < |lens| && lens[i] > 0 && lens[j] > 0
    requires At(s, pos, Code(lens, i)) && At(s, pos, Code(lens, j))
    ensures i == j
  {
    hide Kraft, Msb, CodeOf;
    if i != j {
      var a, b := if lens[i] <= lens[j] then i else j, if lens[i] <= lens[j] then j else i;
      assert s[pos..pos + lens[b]][..lens[a]] == s[pos..pos + lens[a]];
      PrefixFree(lens, a, b);
    }
  }
}
