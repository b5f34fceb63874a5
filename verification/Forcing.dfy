/** The two codes every tree must have, and why forcing them costs nothing. */
module Forcing {
  import opened Wrappers
  import opened Numbers
  import opened Canonical
  import opened CodeLengths
  import opened Merging
  import opened Forest
  import opened TreeShape
  import opened Optimality

  /** The symbols below `k` that occur. */
  function Symbols(f: seq<nat>, k: nat): (S: set<nat>)
    requires k <= |f|
    ensures forall x: nat :: x in S <==> x < k && f[x] > 0
  {
    set x: nat | x < k && f[x] > 0
  }

  lemma SymbolsNext(f: seq<nat>, k: nat)
    requires k < |f|
    ensures Symbols(f, k + 1) == if f[k] > 0 then Symbols(f, k) + {k} else Symbols(f, k)
  {}

  /** The frequencies after the symbols `fs` have been given frequency 1. */
  function ForcedFreq(w: seq<nat>, fs: seq<nat>): (r: seq<nat>)
    requires forall i :: 0 <= i < |fs| ==> fs[i] < |w|
    ensures |r| == |w|
  {
    if fs == [] then w else ForcedFreq(w, fs[..|fs| - 1])[fs[|fs| - 1] := 1]
  }

  /** Static code bits of the forced symbols. */
  function ForcedStatic(d: Desc, fs: seq<nat>): nat
    requires d.staticLens.Some? ==> forall i :: 0 <= i < |fs| ==> fs[i] < |d.staticLens.value|
  {
    if fs == [] || d.staticLens.None? then 0
    else ForcedStatic(d, fs[..|fs| - 1]) + d.staticLens.value[fs[|fs| - 1]]
  }

  /** `fs` are at most two symbols below 3 that do not occur. */
  predicate ForcedOk(d: Desc, w: seq<nat>, fs: seq<nat>) {
    && d.Ok() && d.elems <= |w| && |fs| <= 2
    && (forall i :: 0 <= i < |fs| ==> fs[i] < 3 && w[fs[i]] == 0)
    && (forall i, j :: 0 <= i < j < |fs| ==> fs[i] != fs[j])
  }

  lemma {:induction false} ForcedAt(w: seq<nat>, fs: seq<nat>, x: nat)
    requires (forall i :: 0 <= i < |fs| ==> fs[i] < |w|) && x < |w|
    ensures ForcedFreq(w, fs)[x] == if x in fs then 1 else w[x]
  {
    if fs != [] {
      ForcedAt(w, fs[..|fs| - 1], x);
      assert fs == fs[..|fs| - 1] + [fs[|fs| - 1]];
    }
  }

  lemma {:induction false} CostWeight(d: Desc, w: seq<nat>, l: seq<nat>, i: nat, v: nat)
    requires i < |w| && |l| <= |w| && |l| <= d.extraBase + |d.extraBits|
    ensures i < |l| ==>
              Cost(d, w[i := v], l) + Term(w[i], l[i], d.Extra(i)) == Cost(d, w, l) + Term(v, l[i], d.Extra(i))
    ensures i >= |l| ==> Cost(d, w[i := v], l) == Cost(d, w, l)
  {
    hide Term;
    if l != [] { CostWeight(d, w, l[..|l| - 1], i, v); }
  }

  lemma {:induction false} StaticWeight(d: Desc, w: seq<nat>, l: seq<nat>, i: nat, v: nat)
    requires i < |w| && |l| <= |w| && |l| <= d.extraBase + |d.extraBits|
    requires d.staticLens.Some? && |l| <= |d.staticLens.value| && w[i] == 0
    ensures i < |l| && l[i] > 0 ==>
              StaticCost(d, w[i := v], l) == StaticCost(d, w, l) + v * (d.staticLens.value[i] + d.Extra(i))
    ensures i >= |l| || l[i] == 0 ==> StaticCost(d, w[i := v], l) == StaticCost(d, w, l)
  {
    if l != [] {
      StaticWeight(d, w, l[..|l| - 1], i, v);
      if i == |l| - 1 { assert w[i := v][i] == v; }
    }
  }

  /** A forced symbol adds exactly its one code bit to the dynamic cost. */
  lemma {:induction false} ForcedCost(d: Desc, w: seq<nat>, fs: seq<nat>, l: seq<nat>)
    requires ForcedOk(d, w, fs) && |l| <= d.elems && forall i :: 0 <= i < |fs| ==> fs[i] < |l| && l[fs[i]] == 1
    ensures Cost(d, ForcedFreq(w, fs), l) == Cost(d, w, l) + |fs|
    ensures StaticCost(d, ForcedFreq(w, fs), l) == StaticCost(d, w, l) + ForcedStatic(d, fs)
  {
    hide Cost, StaticCost;
    if fs != [] {
      var n := |fs| - 1;
      var front, x := fs[..n], fs[n];
      ForcedCost(d, w, front, l);
      ForcedAt(w, front, x);
      var v := ForcedFreq(w, front);
      assert v[x] == 0;
      CostWeight(d, v, l, x, 1);
      if d.staticLens.Some? {
        StaticWeight(d, v, l, x, 1);
      } else {
        NoStatic(d, v[x := 1], l);
        NoStatic(d, w, l);
      }
    }
  }

  /** A complete code for two symbols gives each of them one bit. */
  lemma TwoCodes(S: set<nat>, lens: seq<nat>, L: nat, a: nat, b: nat)
    requires Coded(S, lens, L) && L <= MAX_BITS && S == {a, b} && a != b && a < |lens| && b < |lens|
    ensures lens[a] == 1 && lens[b] == 1
  {
    hide SumSet, Kraft, Pow2;
    LeafSums(S, lens, lens, 1);
    var f := Shares(lens);
    SumSetRemove(S, f, a);
    assert S - {a} == {b};
    SumSetSingle(b, f);
    var x, y := Pow2(MAX_BITS - lens[a]), Pow2(MAX_BITS - lens[b]);
    assert x + y == WHOLE;
    Pow2Mono(MAX_BITS - lens[a], MAX_BITS - 1);
    Pow2Mono(MAX_BITS - lens[b], MAX_BITS - 1);
    HalfOnly(lens[a]);
    HalfOnly(lens[b]);
  }

  lemma HalfOnly(l: nat)
    requires 1 <= l <= MAX_BITS
    ensures Pow2(MAX_BITS - l) == Pow2(MAX_BITS - 1) ==> l == 1
    ensures 2 * Pow2(MAX_BITS - 1) == WHOLE
  {
    if l > 1 {
      Pow2Mono(MAX_BITS - l, MAX_BITS - 2);
      assert Pow2(MAX_BITS - 1) == 2 * Pow2(MAX_BITS - 2);
    }
  }

  lemma {:induction false} ForcedSum(S: set<nat>, w: seq<nat>, fs: seq<nat>, T: set<nat>)
    requires forall i :: 0 <= i < |fs| ==> fs[i] < |w| && fs[i] !in S && w[fs[i]] == 0
    requires (forall i, j :: 0 <= i < j < |fs| ==> fs[i] != fs[j]) && T == S + (set x | x in fs)
    ensures SumSet(T, ForcedFreq(w, fs)) == SumSet(S, w) + |fs|
  {
    if fs == [] {
      assert T == S;
    } else {
      var n := |fs| - 1;
      var front, x := fs[..n], fs[n];
      var U := S + (set y | y in front);
      assert fs == front + [x];
      assert x !in U && T == U + {x};
      ForcedSum(S, w, front, U);
      var v := ForcedFreq(w, front);
      SumSetAdd(U, v[x := 1], x);
      SumSetFrame(U, v, v[x := 1]);
    }
  }

  /** A code for the forced symbols and the others is a code for the others, and forcing has cost nothing. */
  lemma ForcedResult(d: Desc, w0: seq<nat>, fs: seq<nat>, S0: set<nat>, S: set<nat>, w: seq<nat>, lens: seq<nat>)
    requires ForcedSet(d, w0, S0, S, fs) && d.elems <= |w| && |S| >= 2
    requires 0 < |lens| <= d.elems && (forall a :: a in S ==> a < |lens|) && Coded(S, lens, d.maxLength)
    requires w[..d.elems] == ForcedFreq(w0, fs)[..d.elems]
    ensures GoodTree(d, w0, lens)
    ensures Cost(d, w, lens) == Cost(d, w0, lens) + |fs|
    ensures StaticCost(d, w, lens) == StaticCost(d, w0, lens) + ForcedStatic(d, fs)
    ensures forall x :: 0 <= x < |lens| ==> (x in S <==> w[x] > 0)
    ensures fs == [] ==> forall i :: 0 <= i < |lens| ==> w0[i] == w[i]
  {
    hide Cost, StaticCost, Kraft;
    var v := ForcedFreq(w0, fs);
    forall i | 0 <= i < d.elems
      ensures w[i] == v[i]
    {
      assert w[..d.elems][i] == v[..d.elems][i];
    }
    forall i | 0 <= i < |fs|
      ensures fs[i] < |lens| && lens[fs[i]] == 1
    {
      assert fs[i] in S;
      var other := OtherSymbol(S, fs[i]);
      TwoCodes(S, lens, d.maxLength, fs[i], other);
    }
    CostPrefix(d, w, v, lens);
    ForcedCost(d, w0, fs, lens);
    forall x | 0 <= x < |lens|
      ensures x in S <==> w[x] > 0
    {
      ForcedAt(w0, fs, x);
    }
  }

  /** `S` are the symbols `S0` that occur, and the forced ones. */
  ghost predicate ForcedSet(d: Desc, w0: seq<nat>, S0: set<nat>, S: set<nat>, fs: seq<nat>) {
    && ForcedOk(d, w0, fs) && S0 == Symbols(w0, d.elems)
    && (forall x :: x in S <==> x in S0 || x in fs)
    && |S| == |S0| + |fs| && (fs != [] ==> |S| <= 2)
  }

  lemma ForcedSetStep(d: Desc, w0: seq<nat>, S0: set<nat>, S: set<nat>, fs: seq<nat>, x: nat)
    requires ForcedSet(d, w0, S0, S, fs) && |S| < 2 && x < 3 && x !in S
    ensures ForcedSet(d, w0, S0, S + {x}, fs + [x])
  {
    hide Symbols;
    assert w0[x] == 0 by { SymbolsMissing(w0, d.elems, S0, x); }
    assert x !in fs;
  }

  lemma SymbolsMissing(w: seq<nat>, k: nat, S: set<nat>, x: nat)
    requires 3 <= k <= |w| && x < 3 && S == Symbols(w, k) && x !in S
    ensures w[x] == 0
  {}

  /** The forced frequencies sum up to at most two more. */
  lemma ForcedTotal(d: Desc, w0: seq<nat>, S0: set<nat>, S: set<nat>, fs: seq<nat>)
    requires ForcedSet(d, w0, S0, S, fs)
    ensures SumSet(S, ForcedFreq(w0, fs)) == SumSet(S0, w0) + |fs|
    ensures 0 <= SumSet(S0, w0)
  {
    hide SumSet, ForcedFreq;
    assert S == S0 + (set x | x in fs);
    ForcedSum(S0, w0, fs, S);
    SumSetNonneg(S0, w0);
  }

  lemma OtherSymbol(S: set<nat>, a: nat) returns (b: nat)
    requires |S| == 2 && a in S
    ensures a != b && S == {a, b}
  {
    var rest := S - {a};
    assert |rest| == 1;
    b :| b in rest;
    var none := rest - {b};
    assert |none| == 0;
    assert rest == {b};
    assert S == {a} + rest;
  }

  lemma NothingForced(w: seq<nat>, d: Desc)
    ensures ForcedFreq(w, []) == w && ForcedStatic(d, []) == 0
  {}

  lemma ForcedPlain(d: Desc, w0: seq<nat>, S0: set<nat>, S: set<nat>, fs: seq<nat>)
    requires ForcedSet(d, w0, S0, S, fs)
    ensures d.Ok() && d.elems <= |w0| && (|S0| >= 2 ==> fs == [])
    ensures d.staticLens.Some? ==> forall i :: 0 <= i < |fs| ==> fs[i] < |d.staticLens.value|
  {}

  lemma ForcedPositive(d: Desc, w0: seq<nat>, S0: set<nat>, S: set<nat>, fs: seq<nat>)
    requires ForcedSet(d, w0, S0, S, fs)
    ensures forall a :: a in S ==> a < d.elems <= |w0| && ForcedFreq(w0, fs)[a] > 0
  {
    forall a | a in S
      ensures a < d.elems && ForcedFreq(w0, fs)[a] > 0
    {
      assert a in S0 || a in fs;
      ForcedAt(w0, fs, a);
    }
  }
}
