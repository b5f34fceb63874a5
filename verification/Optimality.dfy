/** Huffman's theorem: merging lightest roots gives the cheapest of all prefix codes. */
module Optimality {
  import opened Numbers
  import opened Bits
  import opened CodeLengths
  import opened Merging
  import opened Forest
  import opened TreeShape

  // ---------- Kraft's inequality ----------

  predicate IsPrefix(a: Bits, b: Bits) {
    |a| <= |b| && b[..|a|] == a
  }

  /** No code in the list begins with another one. */
  predicate PrefixFreeList(cs: seq<Bits>) {
    forall i, j :: 0 <= i < |cs| && 0 <= j < |cs| && i != j ==> !IsPrefix(cs[i], cs[j])
  }

  predicate AllShort(cs: seq<Bits>, M: nat) {
    forall i :: 0 <= i < |cs| ==> |cs[i]| <= M
  }

  function Space(cs: seq<Bits>, M: nat): nat
    requires AllShort(cs, M)
  {
    if cs == [] then 0 else Space(cs[..|cs| - 1], M) + Pow2(M - |cs[|cs| - 1]|)
  }

  /** The codes that begin with `b`, without it. */
  function Tails(cs: seq<Bits>, b: bit): (r: seq<Bits>)
    ensures |r| <= |cs|
  {
    if cs == [] then [] else
    var c, rest := cs[|cs| - 1], Tails(cs[..|cs| - 1], b);
    if c != [] && c[0] == b then rest + [c[1..]] else rest
  }

  /** Every tail stems from some code of the list. */
  lemma {:induction false} TailFrom(cs: seq<Bits>, b: bit, i: nat) returns (k: nat)
    requires i < |Tails(cs, b)|
    ensures k < |cs| && cs[k] == [b] + Tails(cs, b)[i]
    decreases |cs|
  {
    var c, front := cs[|cs| - 1], cs[..|cs| - 1];
    if c != [] && c[0] == b && i == |Tails(front, b)| {
      k := |cs| - 1;
    } else {
      k := TailFrom(front, b, i);
    }
  }

  lemma {:induction false} TailsFree(cs: seq<Bits>, b: bit)
    requires PrefixFreeList(cs)
    ensures PrefixFreeList(Tails(cs, b))
  {
    if cs != [] {
      var c, front := cs[|cs| - 1], cs[..|cs| - 1];
      assert PrefixFreeList(front);
      TailsFree(front, b);
      var ts := Tails(front, b);
      if c != [] && c[0] == b {
        forall i | 0 <= i < |ts|
          ensures !IsPrefix(ts[i], c[1..]) && !IsPrefix(c[1..], ts[i])
        {
          var k := TailFrom(front, b, i);
          assert cs[k] == [b] + ts[i] && c == [b] + c[1..];
          PrefixCons(b, ts[i], c[1..]);
          PrefixCons(b, c[1..], ts[i]);
        }
      }
    }
  }

  lemma PrefixCons(b: bit, x: Bits, y: Bits)
    ensures IsPrefix(x, y) ==> IsPrefix([b] + x, [b] + y)
  {
    if IsPrefix(x, y) {
      assert ([b] + y)[..|[b] + x|] == [b] + y[..|x|];
    }
  }

  lemma {:induction false} TailsShort(cs: seq<Bits>, b: bit, M: nat)
    requires M > 0 && AllShort(cs, M)
    ensures AllShort(Tails(cs, b), M - 1)
  {
    if cs != [] { TailsShort(cs[..|cs| - 1], b, M); }
  }

  lemma SpaceSnoc(cs: seq<Bits>, c: Bits, M: nat)
    requires AllShort(cs, M) && |c| <= M
    ensures Space(cs + [c], M) == Space(cs, M) + Pow2(M - |c|)
  {
    assert (cs + [c])[..|cs|] == cs;
  }

  lemma TailsSnoc(cs: seq<Bits>, c: Bits, b: bit)
    ensures Tails(cs + [c], b) == if c != [] && c[0] == b then Tails(cs, b) + [c[1..]] else Tails(cs, b)
  {
    assert (cs + [c])[..|cs|] == cs;
  }

  lemma SpaceNone(M: nat)
    ensures Space([], M) == 0 && Tails([], 0) == [] && Tails([], 1) == []
  {}

  lemma {:induction false} SpaceSplit(cs: seq<Bits>, M: nat)
    requires M > 0 && AllShort(cs, M) && [] !in cs
    requires AllShort(Tails(cs, 0), M - 1) && AllShort(Tails(cs, 1), M - 1)
    ensures Space(cs, M) == Space(Tails(cs, 0), M - 1) + Space(Tails(cs, 1), M - 1)
  {
    hide Pow2, Space, Tails;
    if cs == [] {
      SpaceNone(M);
      SpaceNone(M - 1);
    } else {
      var c, front := cs[|cs| - 1], cs[..|cs| - 1];
      assert cs == front + [c] && c in cs && c != [];
      TailsShort(front, 0, M);
      TailsShort(front, 1, M);
      SpaceSplit(front, M);
      SpaceSnoc(front, c, M);
      TailsSnoc(front, c, 0);
      TailsSnoc(front, c, 1);
      SpaceSnoc(Tails(front, c[0]), c[1..], M - 1);
    }
  }

  /** The empty code begins every other one. */
  lemma EmptyAlone(cs: seq<Bits>, i: nat)
    requires PrefixFreeList(cs) && i < |cs| && cs[i] == []
    ensures |cs| == 1
  {
    if |cs| > 1 {
      var j := if i == 0 then 1 else 0;
      EmptyPrefix(cs[j]);
    }
  }

  lemma EmptyPrefix(c: Bits)
    ensures IsPrefix([], c)
  {}

  lemma SpaceOne(cs: seq<Bits>, M: nat)
    requires |cs| == 1 && cs[0] == []
    ensures Space(cs, M) == Pow2(M)
  {
    assert cs[..0] == [];
  }

  /** Kraft's inequality: a prefix code does not over-fill the code space. */
  lemma {:induction false} KraftInequality(cs: seq<Bits>, M: nat)
    requires PrefixFreeList(cs) && AllShort(cs, M)
    ensures Space(cs, M) <= Pow2(M)
    decreases M
  {
    hide PrefixFreeList, Tails;
    if |cs| == 0 {
    } else if i: nat :| i < |cs| && cs[i] == [] {
      EmptyAlone(cs, i);
      SpaceOne(cs, M);
    } else {
      assert 0 < |cs[0]| <= M;
      TailsShort(cs, 0, M);
      TailsShort(cs, 1, M);
      SpaceSplit(cs, M);
      TailsFree(cs, 0);
      TailsFree(cs, 1);
      hide Space;
      KraftInequality(Tails(cs, 0), M - 1);
      KraftInequality(Tails(cs, 1), M - 1);
    }
  }

  // ---------- lengths on a set of roots ----------

  /** Each root's share of the code space, in units of 2^-M. */
  function SharesIn(k: seq<nat>, M: nat): (r: seq<int>)
    ensures |r| == |k| && forall i :: 0 <= i < |k| ==> r[i] == if k[i] <= M then Pow2(M - k[i]) else 0
  {
    seq(|k|, i requires 0 <= i < |k| => if k[i] <= M then Pow2(M - k[i]) else 0)
  }

  function Weighted(w: seq<nat>, k: seq<nat>): (r: seq<int>)
    requires |w| == |k|
    ensures |r| == |k| && forall i :: 0 <= i < |k| ==> r[i] == w[i] * k[i]
  {
    seq(|k|, i requires 0 <= i < |k| => w[i] * k[i])
  }

  /** Lengths for the roots `A` that fit into the code space. */
  predicate Fits(A: set<nat>, k: seq<nat>, M: nat) {
    (forall a :: a in A ==> a < |k| && k[a] <= M) && SumSet(A, SharesIn(k, M)) <= Pow2(M)
  }

  lemma {:induction false} SumSetUpdate(A: set<nat>, f: seq<int>, i: nat, v: int)
    requires i in A && i < |f|
    ensures SumSet(A, f[i := v]) == SumSet(A, f) - f[i] + v
  {
    var n := |f| - 1;
    if i == n {
      assert f[i := v][..n] == f[..n];
    } else {
      assert f[i := v][..n] == f[..n][i := v];
      SumSetUpdate(A, f[..n], i, v);
    }
  }

  /** Giving the lighter of two roots the longer length costs nothing. */
  lemma Exchange(A: set<nat>, w: seq<nat>, k: seq<nat>, M: nat, p: nat, q: nat)
    requires Fits(A, k, M) && |w| == |k| && p in A && q in A && w[p] <= w[q] && k[p] <= k[q]
    ensures var k' := k[p := k[q]][q := k[p]];
            && Fits(A, k', M) && SumSet(A, Weighted(w, k')) <= SumSet(A, Weighted(w, k))
            && (SumSet(A, Weighted(w, k')) == SumSet(A, Weighted(w, k)) ==> w[p] == w[q] || k[p] == k[q])
  {
    hide SumSet, Pow2;
    var k' := k[p := k[q]][q := k[p]];
    if p != q {
      var f, g := SharesIn(k, M), Weighted(w, k);
      assert SharesIn(k', M) == f[p := f[q]][q := f[p]];
      SumSetUpdate(A, f, p, f[q]);
      SumSetUpdate(A, f[p := f[q]], q, f[p]);
      assert Weighted(w, k') == g[p := w[p] * k[q]][q := w[q] * k[p]];
      SumSetUpdate(A, g, p, w[p] * k[q]);
      SumSetUpdate(A, g[p := w[p] * k[q]], q, w[q] * k[p]);
      Crossed(w[p], w[q], k[p], k[q]);
    } else {
      assert k' == k;
    }
  }

  lemma Crossed(a: int, b: int, x: int, y: int)
    requires a <= b && x <= y
    ensures a * y + b * x <= a * x + b * y
    ensures a * y + b * x == a * x + b * y ==> a == b || x == y
  {
    assert (b - a) * (y - x) >= 0;
    assert (b - a) * (y - x) == b * y - b * x - a * y + a * x;
  }

  /** With the lengths `k` for the roots and the trees of heights `H` below them, no leaf is as deep as `Z`. */
  predicate Within(A: set<nat>, k: seq<nat>, H: seq<nat>, Z: nat) {
    forall a :: a in A ==> a < |k| && a < |H| && k[a] + H[a] < Z
  }

  /** Of the roots as light as `n`, none has a lower tree. */
  predicate Lowest(A: set<nat>, w: seq<nat>, H: seq<nat>, n: nat) {
    n < |w| && n < |H| && forall a :: a in A && a < |w| && a < |H| && w[a] == w[n] ==> H[n] <= H[a]
  }

  /** Among equally light roots, `n` and then `m` have lowest trees. */
  predicate Tied(A: set<nat>, w: seq<nat>, H: seq<nat>, n: nat, m: nat) {
    Lowest(A, w, H, n) && Lowest(A - {n}, w, H, m)
  }

  /** An exchange that does not make the lengths cheaper does not make the tree higher. */
  lemma ExchangeDepth(A: set<nat>, w: seq<nat>, k: seq<nat>, H: seq<nat>, Z: nat, p: nat, q: nat)
    requires |w| == |k| && p in A && q in A && p < |k| && q < |k| && k[p] <= k[q] && (w[p] == w[q] || k[p] == k[q])
    requires Lowest(A, w, H, p) && Within(A, k, H, Z)
    ensures Within(A, k[p := k[q]][q := k[p]], H, Z)
  {}

  lemma {:induction false} SomeLongest(A: set<nat>, k: seq<nat>) returns (p: nat)
    requires A != {} && forall a :: a in A ==> a < |k|
    ensures p in A && forall a :: a in A ==> k[a] <= k[p]
    decreases |A|
  {
    p :| p in A;
    if A != {p} {
      var B := A - {p};
      assert B != {} by { assert A == B + {p}; }
      var q := SomeLongest(B, k);
      assert forall a :: a in A ==> a == p || a in B;
      if k[q] > k[p] { p := q; }
    }
  }

  /** The two lightest roots can be given the two longest lengths. */
  lemma LightestLongest(A: set<nat>, w: seq<nat>, k: seq<nat>, M: nat, n: nat, m: nat, H: seq<nat>, Z: nat)
    returns (k': seq<nat>)
    requires Fits(A, k, M) && |w| == |k| && n in A && m in A && n != m
    requires Least(A, w, n) && Least(A - {n}, w, m)
    ensures |k'| == |k| && Fits(A, k', M) && SumSet(A, Weighted(w, k')) <= SumSet(A, Weighted(w, k))
    ensures (forall a :: a in A ==> k'[a] <= k'[n]) && forall a :: a in A - {n} ==> k'[a] <= k'[m]
    ensures SumSet(A, Weighted(w, k')) == SumSet(A, Weighted(w, k)) && Within(A, k, H, Z) && Tied(A, w, H, n, m) ==>
              Within(A, k', H, Z)
  {
    hide SumSet, Pow2, Within, Lowest;
    var p := SomeLongest(A, k);
    Exchange(A, w, k, M, n, p);
    var k1 := k[n := k[p]][p := k[n]];
    assert forall a :: a in A ==> k1[a] <= k1[n];
    var B := A - {n};
    assert m in B;
    var q := SomeLongest(B, k1);
    Exchange(A, w, k1, M, m, q);
    k' := k1[m := k1[q]][q := k1[m]];
    if SumSet(A, Weighted(w, k')) == SumSet(A, Weighted(w, k)) && Within(A, k, H, Z)
       && Lowest(A, w, H, n) && Lowest(B, w, H, m) {
      ExchangeDepth(A, w, k, H, Z, n, p);
      WithinPart(A, k1, H, Z, n);
      ExchangeDepth(B, w, k1, H, Z, m, q);
      WithinWhole(A, k1, k', H, Z, n);
    }
  }

  lemma WithinPart(A: set<nat>, k: seq<nat>, H: seq<nat>, Z: nat, n: nat)
    requires Within(A, k, H, Z)
    ensures Within(A - {n}, k, H, Z)
  {}

  lemma WithinWhole(A: set<nat>, k: seq<nat>, k': seq<nat>, H: seq<nat>, Z: nat, n: nat)
    requires Within(A, k, H, Z) && Within(A - {n}, k', H, Z) && n < |k| == |k'| && k[n] == k'[n]
    ensures Within(A, k', H, Z)
  {}

  lemma {:induction false} ScaleSum(B: set<nat>, k: seq<nat>, d: nat, M: nat)
    requires d <= M && forall a :: a in B && a < |k| ==> k[a] <= d
    ensures SumSet(B, SharesIn(k, d)) >= 0
    ensures SumSet(B, SharesIn(k, M)) == Shl(SumSet(B, SharesIn(k, d)), M - d)
  {
    if k == [] {
      ShlOne(M - d);
    } else {
      var n := |k| - 1;
      var f, g := SharesIn(k, d), SharesIn(k, M);
      assert f[..n] == SharesIn(k[..n], d) && g[..n] == SharesIn(k[..n], M);
      ScaleSum(B, k[..n], d, M);
      if n in B {
        ShlPlus(SumSet(B, f[..n]), f[n], M - d);
        Pow2Add(d - k[n], M - d);
      }
    }
  }

  /** A single longest length can be cut down to the next longest one. */
  lemma CutDown(A: set<nat>, k: seq<nat>, M: nat, n: nat, d: nat)
    requires Fits(A, k, M) && n in A && d <= k[n] && forall a :: a in A - {n} ==> k[a] <= d
    ensures Fits(A, k[n := d], M)
  {
    hide Pow2, Shl;
    var f, B := SharesIn(k, M), A - {n};
    assert SharesIn(k[n := d], M) == f[n := Pow2(M - d)];
    SumSetUpdate(A, f, n, Pow2(M - d));
    SumSetRemove(A, f, n);
    ScaleSum(B, k, d, M);
    var s := SumSet(B, SharesIn(k, d));
    Pow2Add(d, M - d);
    if s + 1 > Pow2(d) {
      ShlMono(Pow2(d), s, M - d);
      assert false;
    }
    ShlMono(s + 1, Pow2(d), M - d);
    ShlPlus(s, 1, M - d);
    ShlOne(M - d);
  }

  /**
   * Lengths for the roots before a merge give lengths for those after it that are cheaper by the new
   * node's weight.
   */
  lemma MergeStep(A: set<nat>, w: seq<nat>, k: seq<nat>, M: nat, n: nat, m: nat, node: nat, H: seq<nat>, Z: nat)
    returns (r: seq<nat>)
    requires Fits(A, k, M) && |w| == |k| && n in A && m in A && n != m && node !in A && node < |w|
    requires Least(A, w, n) && Least(A - {n}, w, m) && w[node] == w[n] + w[m]
    ensures |r| == |w| && Fits(A - {n, m} + {node}, r, M)
    ensures SumSet(A - {n, m} + {node}, Weighted(w, r)) + w[node] <= SumSet(A, Weighted(w, k))
    ensures SumSet(A - {n, m} + {node}, Weighted(w, r)) + w[node] == SumSet(A, Weighted(w, k)) ==>
              Within(A, k, H, Z) && Tied(A, w, H, n, m) && Higher(H, n, m, node) ==>
                Within(A - {n, m} + {node}, r, H, Z)
  {
    hide SumSet, Pow2, Least, Within, Lowest;
    var k1 := LightestLongest(A, w, k, M, n, m, H, Z);
    var d := k1[m];
    CutDown(A, k1, M, n, d);
    var k2 := k1[n := d];
    CheaperAt(A, w, k1, n, d);
    TwoAtTop(A, k2, M, n, m);
    r := k2[node := d - 1];
    SiblingsMerge(A, w, k2, M, n, m, node, d, r);
    if Within(A, k1, H, Z) && Higher(H, n, m, node) { SiblingsWithin(A, k1, H, Z, n, m, node, r); }
  }

  function Larger(a: nat, b: nat): nat {
    if a >= b then a else b
  }

  /** The tree of `node` is one higher than the higher one of `n` and `m`. */
  predicate Higher(H: seq<nat>, n: nat, m: nat, node: nat) {
    n < |H| && m < |H| && node < |H| && H[node] == 1 + Larger(H[n], H[m])
  }

  lemma SiblingsWithin(A: set<nat>, k: seq<nat>, H: seq<nat>, Z: nat, n: nat, m: nat, node: nat, r: seq<nat>)
    requires Within(A, k, H, Z) && n in A && m in A && n < |k| && m < |k| && node < |k| && node !in A
    requires Higher(H, n, m, node) && 1 <= k[m] <= k[n] && r == k[n := k[m]][node := k[m] - 1]
    ensures Within(A - {n, m} + {node}, r, H, Z)
  {}

  lemma CheaperAt(A: set<nat>, w: seq<nat>, k: seq<nat>, n: nat, d: nat)
    requires |w| == |k| && n in A && n < |k| && d <= k[n]
    ensures SumSet(A, Weighted(w, k[n := d])) <= SumSet(A, Weighted(w, k))
  {
    var g := Weighted(w, k);
    assert Weighted(w, k[n := d]) == g[n := w[n] * d];
    SumSetUpdate(A, g, n, w[n] * d);
    MulMono(d, k[n], w[n]);
  }

  /** Two roots cannot both have length zero. */
  lemma TwoAtTop(A: set<nat>, k: seq<nat>, M: nat, n: nat, m: nat)
    requires Fits(A, k, M) && n in A && m in A && n != m && k[n] == k[m]
    ensures k[n] >= 1
  {
    var f := SharesIn(k, M);
    SumSetRemove(A, f, n);
    SumSetRemove(A - {n}, f, m);
    SharesNonneg(A - {n} - {m}, k, M);
  }

  lemma {:induction false} SharesNonneg(B: set<nat>, k: seq<nat>, M: nat)
    ensures SumSet(B, SharesIn(k, M)) >= 0
  {
    if k != [] {
      assert SharesIn(k, M)[..|k| - 1] == SharesIn(k[..|k| - 1], M);
      SharesNonneg(B, k[..|k| - 1], M);
    }
  }

  lemma SiblingsMerge(A: set<nat>, w: seq<nat>, k: seq<nat>, M: nat, n: nat, m: nat, node: nat, d: nat, r: seq<nat>)
    requires Fits(A, k, M) && |w| == |k| && n in A && m in A && n != m && node !in A && node < |w|
    requires k[n] == k[m] == d >= 1 && w[node] == w[n] + w[m] && r == k[node := d - 1]
    ensures Fits(A - {n, m} + {node}, r, M)
    ensures SumSet(A - {n, m} + {node}, Weighted(w, r)) + w[node] == SumSet(A, Weighted(w, k))
  {
    hide SumSet;
    var f, g := SharesIn(r, M), Weighted(w, r);
    SumSetSplit(A, f, node, n, m);
    SumSetSplit(A, g, node, n, m);
    SumSetFrame(A, SharesIn(k, M), f);
    SumSetFrame(A, Weighted(w, k), g);
    assert Pow2(M - (d - 1)) == 2 * Pow2(M - d);
    Distribute(w[n], w[m], d);
    assert (w[n] + w[m]) * d == w[node] * (d - 1) + w[node];
  }

  // ---------- the cheapest code ----------

  /** The weights of all nodes made by the merges from the `j`-th on. */
  function MadeWeight(ms: seq<Merge>, w: seq<nat>, j: nat): nat
    requires j <= |ms| && forall i :: 0 <= i < |ms| ==> ms[i].node < |w|
    decreases |ms| - j
  {
    if j == |ms| then 0 else w[ms[j].node] + MadeWeight(ms, w, j + 1)
  }

  lemma {:induction false} GreedyAt(S: set<nat>, w: seq<nat>, ms: seq<Merge>, j: nat)
    requires Greedy(S, w, ms) && j < |ms|
    ensures Lightest(Active(S, ms[..j]), w, ms[j])
    decreases |ms|
  {
    if j < |ms| - 1 {
      assert ms[..|ms| - 1][..j] == ms[..j];
      GreedyAt(S, w, ms[..|ms| - 1], j);
    }
  }

  lemma WeightedNonneg(A: set<nat>, w: seq<nat>, k: seq<nat>)
    requires |w| == |k|
    ensures SumSet(A, Weighted(w, k)) >= 0
  {
    var z: seq<int> := seq(|w|, _ => 0);
    assert forall i :: 0 <= i < |w| ==> 0 <= Weighted(w, k)[i];
    SumSetMono(A, z, Weighted(w, k));
    AllZero(A, z);
  }

  lemma {:induction false} AllZero(A: set<nat>, z: seq<int>)
    requires forall i :: 0 <= i < |z| ==> z[i] == 0
    ensures SumSet(A, z) == 0
  {
    if z != [] { AllZero(A, z[..|z| - 1]); }
  }

  /** Lengths that fit cost at least the weights of the nodes still to be made. */
  lemma {:induction false} LowerBound(S: set<nat>, base: nat, w: seq<nat>, ms: seq<Merge>, k: seq<nat>, M: nat,
                                      j: nat)
    requires Finished(S, base, w, ms) && Greedy(S, w, ms) && base + |ms| <= |w| == |k| && j <= |ms|
    requires Fits(Active(S, ms[..j]), k, M) && forall i :: 0 <= i < |ms| ==> ms[i].node < |w|
    ensures SumSet(Active(S, ms[..j]), Weighted(w, k)) >= MadeWeight(ms, w, j)
    decreases |ms| - j
  {
    hide SumSet, Active, MergesOk, Greedy, Fits;
    var A := Active(S, ms[..j]);
    if j == |ms| {
      WeightedNonneg(A, w, k);
    } else {
      var x := ms[j];
      MergeAt(S, base, w, ms, j);
      GreedyAt(S, w, ms, j);
      MergesPrefix(S, base, w, ms, j);
      ActiveBelow(S, base, w, ms[..j]);
      var r := MergeStep(A, w, k, M, x.n, x.m, x.node, w, 0);
      LowerBound(S, base, w, ms, r, M, j + 1);
    }
  }

  /** The tree's own lengths cost exactly that much. */
  lemma {:induction false} TreeCost(S: set<nat>, base: nat, w: seq<nat>, ms: seq<Merge>, D: seq<nat>, L: nat, j: nat)
    requires Finished(S, base, w, ms) && LengthsOf(ms, D, L) && |D| == |w| && j <= |ms|
    requires Excess(ms, D, L, j) == 0 && L > 0
    ensures SumSet(Active(S, ms[..j]), Weighted(w, D)) == MadeWeight(ms, w, j)
    decreases |ms| - j
  {
    hide SumSet, Active, MergesOk;
    var f := Weighted(w, D);
    if j == |ms| {
      assert ms[..j] == ms;
      SumSetSingle(ms[|ms| - 1].node, f);
    } else {
      TreeCost(S, base, w, ms, D, L, j + 1);
      MergeAt(S, base, w, ms, j);
      var x := ms[j];
      SumSetSplit(Active(S, ms[..j]), f, x.node, x.n, x.m);
      var l := D[x.node];
      assert D[x.n] == D[x.m] == l + 1;
      Distribute(w[x.n], w[x.m], l + 1);
      assert w[x.node] * (l + 1) == w[x.node] * l + w[x.node];
    }
  }

  /** No lengths that fit the code space are cheaper than those of a greedily built tree. */
  lemma GreedyIsOptimal(S: set<nat>, base: nat, w: seq<nat>, ms: seq<Merge>, D: seq<nat>, L: nat, k: seq<nat>, M: nat)
    requires Finished(S, base, w, ms) && Greedy(S, w, ms) && base + |ms| <= |w| == |k| == |D| && L > 0
    requires LengthsOf(ms, D, L) && Excess(ms, D, L, 0) == 0
    requires Fits(S, k, M)
    ensures SumSet(S, Weighted(w, D)) <= SumSet(S, Weighted(w, k))
  {
    assert ms[..0] == [];
    TreeCost(S, base, w, ms, D, L, 0);
    LowerBound(S, base, w, ms, k, M, 0);
  }

  // ---------- in terms of codes ----------

  /** Among the symbols that occur, no code begins with another one. */
  predicate PrefixCode(codes: seq<Bits>, w: seq<nat>) {
    && |codes| <= |w|
    && forall x, y :: 0 <= x < |codes| && 0 <= y < |codes| && x != y && w[x] > 0 && w[y] > 0
             ==> !IsPrefix(codes[x], codes[y])
  }

  /** Bits spent on a block when its symbols have these codes. */
  function CodeCost(d: Desc, w: seq<nat>, codes: seq<Bits>): nat
    requires |codes| <= |w| && |codes| <= d.extraBase + |d.extraBits|
  {
    if codes == [] then 0 else
    var n := |codes| - 1;
    CodeCost(d, w, codes[..n]) + w[n] * (|codes[n]| + d.Extra(n))
  }

  /** No prefix code for the symbols that occur makes the block shorter. */
  ghost predicate Optimal(d: Desc, w: seq<nat>, lens: seq<nat>)
    requires |lens| <= |w| && |lens| <= d.extraBase + |d.extraBits|
  {
    forall codes: seq<Bits> :: |codes| == |lens| && PrefixCode(codes, w) ==> Cost(d, w, lens) <= CodeCost(d, w, codes)
  }

  function UsedCodes(codes: seq<Bits>, w: seq<nat>): seq<Bits>
    requires |codes| <= |w|
  {
    if codes == [] then [] else
    var n := |codes| - 1;
    UsedCodes(codes[..n], w) + if w[n] > 0 then [codes[n]] else []
  }

  lemma {:induction false} UsedFrom(codes: seq<Bits>, w: seq<nat>, i: nat) returns (x: nat)
    requires |codes| <= |w| && i < |UsedCodes(codes, w)|
    ensures x < |codes| && w[x] > 0 && UsedCodes(codes, w)[i] == codes[x]
  {
    var n := |codes| - 1;
    if i < |UsedCodes(codes[..n], w)| { x := UsedFrom(codes[..n], w, i); } else { x := n; }
  }

  lemma {:induction false} UsedFree(codes: seq<Bits>, w: seq<nat>)
    requires PrefixCode(codes, w)
    ensures PrefixFreeList(UsedCodes(codes, w))
  {
    if codes != [] {
      var n := |codes| - 1;
      var us := UsedCodes(codes[..n], w);
      UsedFree(codes[..n], w);
      if w[n] > 0 {
        forall i | 0 <= i < |us|
          ensures !IsPrefix(us[i], codes[n]) && !IsPrefix(codes[n], us[i])
        {
          var x := UsedFrom(codes[..n], w, i);
        }
      }
    }
  }

  /** The lengths of the codes, as far as they matter. */
  predicate LengthsFrom(codes: seq<Bits>, k: seq<nat>, M: nat) {
    |codes| <= |k| && forall x :: 0 <= x < |codes| ==> k[x] == |codes[x]| <= M
  }

  lemma UsedShort(codes: seq<Bits>, w: seq<nat>, M: nat)
    requires |codes| <= |w| && forall x :: 0 <= x < |codes| ==> |codes[x]| <= M
    ensures AllShort(UsedCodes(codes, w), M)
  {
    forall i | 0 <= i < |UsedCodes(codes, w)|
      ensures |UsedCodes(codes, w)[i]| <= M
    {
      var x := UsedFrom(codes, w, i);
    }
  }

  lemma UsedNext(codes: seq<Bits>, w: seq<nat>, j: nat, M: nat)
    requires 0 < j <= |codes| <= |w| && forall x :: 0 <= x < |codes| ==> |codes[x]| <= M
    ensures AllShort(UsedCodes(codes[..j], w), M) && AllShort(UsedCodes(codes[..j - 1], w), M)
    ensures Space(UsedCodes(codes[..j], w), M)
         == Space(UsedCodes(codes[..j - 1], w), M) + if w[j - 1] > 0 then Pow2(M - |codes[j - 1]|) else 0
  {
    hide Pow2, Space;
    UsedShort(codes[..j], w, M);
    UsedShort(codes[..j - 1], w, M);
    assert codes[..j][..j - 1] == codes[..j - 1];
    if w[j - 1] > 0 {
      SpaceSnoc(UsedCodes(codes[..j - 1], w), codes[j - 1], M);
    } else {
      assert UsedCodes(codes[..j], w) == UsedCodes(codes[..j - 1], w);
    }
  }

  lemma {:induction false} UsedSpace(S: set<nat>, codes: seq<Bits>, w: seq<nat>, k: seq<nat>, M: nat, j: nat)
    requires LengthsFrom(codes, k, M) && |codes| <= |w| && j <= |k|
    requires (forall a :: a in S ==> a < |codes|) && forall x :: 0 <= x < |codes| ==> (x in S <==> w[x] > 0)
    requires AllShort(UsedCodes(codes[..if j <= |codes| then j else |codes|], w), M)
    ensures SumSet(S, SharesIn(k, M)[..j]) == Space(UsedCodes(codes[..if j <= |codes| then j else |codes|], w), M)
  {
    hide Pow2, UsedCodes;
    if j > 0 {
      var i := if j - 1 <= |codes| then j - 1 else |codes|;
      UsedShort(codes[..i], w, M);
      UsedSpace(S, codes, w, k, M, j - 1);
      assert SharesIn(k, M)[..j][..j - 1] == SharesIn(k, M)[..j - 1];
      if j <= |codes| { UsedNext(codes, w, j, M); }
    } else {
      NoUsed(codes[..0], w, M);
    }
  }

  lemma NoUsed(codes: seq<Bits>, w: seq<nat>, M: nat)
    requires codes == []
    ensures UsedCodes(codes, w) == [] && Space([], M) == 0
  {}

  /** Extra bits of the symbols in `S` below `j`. */
  function ExtraCost(d: Desc, w: seq<nat>, S: set<nat>, j: nat): nat
    requires j <= |w| && j <= d.extraBase + |d.extraBits|
  {
    if j == 0 then 0 else ExtraCost(d, w, S, j - 1) + if j - 1 in S then w[j - 1] * d.Extra(j - 1) else 0
  }

  lemma TermSplit(f: nat, l: nat, x: nat)
    ensures Term(f, l, x) == if l == 0 then 0 else f * l + f * x
  {
    Distribute(l, x, f);
  }

  lemma {:induction false} CostIsSum(S: set<nat>, d: Desc, w: seq<nat>, D: seq<nat>, lv: seq<nat>, j: nat)
    requires LengthsIn(S, D, lv) && |D| == |w| && j <= |w| && |lv| <= d.extraBase + |d.extraBits|
    ensures var i := if j <= |lv| then j else |lv|;
            Cost(d, w, lv[..i]) == SumSet(S, Weighted(w, D)[..j]) + ExtraCost(d, w, S, i)
  {
    hide Term;
    if j > 0 {
      CostIsSum(S, d, w, D, lv, j - 1);
      assert Weighted(w, D)[..j][..j - 1] == Weighted(w, D)[..j - 1];
      if j <= |lv| {
        assert lv[..j][..j - 1] == lv[..j - 1];
        TermSplit(w[j - 1], lv[j - 1], d.Extra(j - 1));
      }
    }
  }

  lemma {:induction false} CodeCostIsSum(S: set<nat>, d: Desc, w: seq<nat>, k: seq<nat>, codes: seq<Bits>, M: nat,
                                         j: nat)
    requires LengthsFrom(codes, k, M) && |k| == |w| && j <= |w| && |codes| <= d.extraBase + |d.extraBits|
    requires (forall a :: a in S ==> a < |codes|) && forall x :: 0 <= x < |codes| ==> (x in S <==> w[x] > 0)
    ensures var i := if j <= |codes| then j else |codes|;
            CodeCost(d, w, codes[..i]) == SumSet(S, Weighted(w, k)[..j]) + ExtraCost(d, w, S, i)
  {
    hide SumSet, CodeCost, ExtraCost, Desc.Extra;
    if j == 0 {
      NoCosts(S, d, w);
      assert Weighted(w, k)[..0] == [] && codes[..0] == [];
    } else {
      CodeCostIsSum(S, d, w, k, codes, M, j - 1);
      SumSetNext(S, Weighted(w, k), j - 1);
      if j <= |codes| { CodeCostNext(S, d, w, codes, j - 1); }
    }
  }

  lemma NoCosts(S: set<nat>, d: Desc, w: seq<nat>)
    ensures SumSet(S, []) == 0 && CodeCost(d, w, []) == 0 && ExtraCost(d, w, S, 0) == 0
  {}

  lemma SumSetNext(S: set<nat>, f: seq<int>, j: nat)
    requires j < |f|
    ensures SumSet(S, f[..j + 1]) == SumSet(S, f[..j]) + if j in S then f[j] else 0
  {
    assert f[..j + 1][..j] == f[..j];
  }

  lemma CodeCostNext(S: set<nat>, d: Desc, w: seq<nat>, codes: seq<Bits>, j: nat)
    requires j < |codes| <= |w| && |codes| <= d.extraBase + |d.extraBits| && (j in S <==> w[j] > 0)
    ensures CodeCost(d, w, codes[..j + 1]) - ExtraCost(d, w, S, j + 1)
         == CodeCost(d, w, codes[..j]) - ExtraCost(d, w, S, j) + if j in S then w[j] * |codes[j]| else 0
  {
    hide Desc.Extra, CodeCost, ExtraCost;
    CodeCostLast(d, w, codes, j);
    ExtraCostLast(S, d, w, j);
    var f, l, x := w[j], |codes[j]|, d.Extra(j);
    Spent(f, l, x);
  }

  lemma CodeCostLast(d: Desc, w: seq<nat>, codes: seq<Bits>, j: nat)
    requires j < |codes| <= |w| && |codes| <= d.extraBase + |d.extraBits|
    ensures CodeCost(d, w, codes[..j + 1]) == CodeCost(d, w, codes[..j]) + w[j] * (|codes[j]| + d.Extra(j))
  {
    hide Desc.Extra;
    assert codes[..j + 1][..j] == codes[..j];
  }

  lemma ExtraCostLast(S: set<nat>, d: Desc, w: seq<nat>, j: nat)
    requires j < |w| && j < d.extraBase + |d.extraBits|
    ensures ExtraCost(d, w, S, j + 1) == ExtraCost(d, w, S, j) + if j in S then w[j] * d.Extra(j) else 0
  {
    hide Desc.Extra;
  }

  lemma Spent(f: nat, l: nat, x: nat)
    ensures f * (l + x) == f * l + f * x && (f == 0 ==> f * (l + x) == 0)
  {
    Distribute(l, x, f);
  }

  function MaxLen(codes: seq<Bits>): (M: nat)
    ensures forall x :: 0 <= x < |codes| ==> |codes[x]| <= M
  {
    if codes == [] then 0 else
    var M := MaxLen(codes[..|codes| - 1]);
    if |codes[|codes| - 1]| > M then |codes[|codes| - 1]| else M
  }

  /** The lengths of a prefix code fit into the code space. */
  lemma CodesFit(S: set<nat>, w: seq<nat>, codes: seq<Bits>, k: seq<nat>, M: nat)
    requires LengthsFrom(codes, k, M) && |k| == |w| && PrefixCode(codes, w)
    requires (forall a :: a in S ==> a < |codes|) && forall x :: 0 <= x < |codes| ==> (x in S <==> w[x] > 0)
    ensures Fits(S, k, M)
  {
    hide SumSet, Pow2, Space, UsedCodes;
    UsedFree(codes, w);
    UsedShort(codes, w, M);
    assert codes[..|codes|] == codes;
    UsedSpace(S, codes, w, k, M, |w|);
    assert SharesIn(k, M)[..|w|] == SharesIn(k, M);
    KraftInequality(UsedCodes(codes, w), M);
  }

  /** Huffman's theorem for the lengths a construction computes when none is cut off. */
  lemma HuffmanOptimal(S: set<nat>, base: nat, w: seq<nat>, ms: seq<Merge>, D: seq<nat>, L: nat, d: Desc,
                       lens: seq<nat>, codes: seq<Bits>)
    requires Finished(S, base, w, ms) && Greedy(S, w, ms) && base + |ms| <= |w| == |D| && 0 < L
    requires LengthsOf(ms, D, L) && Excess(ms, D, L, 0) == 0
    requires LengthsIn(S, D, lens) && |lens| <= d.extraBase + |d.extraBits|
    requires forall x :: 0 <= x < |lens| ==> (x in S <==> w[x] > 0)
    requires |codes| == |lens| && PrefixCode(codes, w)
    ensures Cost(d, w, lens) <= CodeCost(d, w, codes)
  {
    hide Finished, Greedy, LengthsOf, Excess, SumSet, Cost, CodeCost, ExtraCost, Pow2, Space, UsedCodes;
    var M := MaxLen(codes);
    var k := seq(|w|, i requires 0 <= i < |w| => if i < |codes| then |codes[i]| else 0);
    CodesFit(S, w, codes, k, M);
    assert codes[..|codes|] == codes && lens[..|lens|] == lens;
    assert Weighted(w, k)[..|w|] == Weighted(w, k) && Weighted(w, D)[..|w|] == Weighted(w, D);
    GreedyIsOptimal(S, base, w, ms, D, L, k, M);
    CostIsSum(S, d, w, D, lens, |w|);
    CodeCostIsSum(S, d, w, k, codes, M, |w|);
  }

  lemma {:induction false} CostPrefix(d: Desc, w: seq<nat>, v: seq<nat>, l: seq<nat>)
    requires |l| <= |w| && |l| <= |v| && |l| <= d.extraBase + |d.extraBits|
    requires d.staticLens.Some? ==> |l| <= |d.staticLens.value|
    requires forall i :: 0 <= i < |l| ==> w[i] == v[i]
    ensures Cost(d, w, l) == Cost(d, v, l) && StaticCost(d, w, l) == StaticCost(d, v, l)
  {
    hide Term;
    if l != [] { CostPrefix(d, w, v, l[..|l| - 1]); }
  }

  lemma {:induction false} CodeCostPrefix(d: Desc, w: seq<nat>, v: seq<nat>, codes: seq<Bits>)
    requires |codes| <= |w| && |codes| <= |v| && |codes| <= d.extraBase + |d.extraBits|
    requires forall i :: 0 <= i < |codes| ==> w[i] == v[i]
    ensures CodeCost(d, w, codes) == CodeCost(d, v, codes)
  {
    if codes != [] { CodeCostPrefix(d, w, v, codes[..|codes| - 1]); }
  }

  /** Lengths of an uncut tree are optimal for the frequencies it was built from. */
  lemma TreeOptimal(S: set<nat>, w: seq<nat>, ms: seq<Merge>, D: seq<nat>, d: Desc, lens: seq<nat>, w0: seq<nat>)
    requires d.Ok() && Finished(S, d.elems, w, ms) && Greedy(S, w, ms)
    requires d.elems + |ms| <= |w| == |D| && d.elems <= |w0|
    requires LengthsOf(ms, D, d.maxLength) && Excess(ms, D, d.maxLength, 0) == 0
    requires LengthsIn(S, D, lens) && |lens| <= d.elems
    requires (forall i :: 0 <= i < |lens| ==> w0[i] == w[i]) && forall x :: 0 <= x < |lens| ==> (x in S <==> w[x] > 0)
    ensures Optimal(d, w0, lens)
  {
    hide Finished, Greedy, LengthsOf, Excess, Cost, CodeCost, LengthsIn;
    forall codes: seq<Bits> | |codes| == |lens| && PrefixCode(codes, w0)
      ensures Cost(d, w0, lens) <= CodeCost(d, w0, codes)
    {
      HuffmanOptimal(S, d.elems, w, ms, D, d.maxLength, d, lens, codes);
      CostPrefix(d, w0, w, lens);
      CodeCostPrefix(d, w0, w, codes);
    }
  }
}
