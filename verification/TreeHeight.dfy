/** How deep a greedily merged tree can be: its weight is at least a Fibonacci number. */
module TreeHeight {
  import opened Numbers
  import opened Merging
  import opened TreeShape
  import opened Optimality
  import opened Shallowest
  import opened Forest

  function Fib(n: nat): nat {
    if n < 2 then n else Fib(n - 1) + Fib(n - 2)
  }

  /** No root that is left after a merge is lighter than the heavier child of that merge. */
  lemma {:induction false} RootsHeavier(S: set<nat>, base: nat, w: seq<nat>, ms: seq<Merge>, i: nat, k: nat)
    requires MergesOk(S, base, w, ms) && (forall a :: a in S ==> a < base <= |w|) && Greedy(S, w, ms) && i < k <= |ms|
    ensures ms[i].m < |w| && forall a :: a in Active(S, ms[..k]) ==> a < |w| && w[ms[i].m] <= w[a]
    decreases k
  {
    hide MergesOk, Active, Greedy;
    MergeAt(S, base, w, ms, k - 1);
    GreedyAt(S, w, ms, k - 1);
    MergesPrefix(S, base, w, ms, k - 1);
    ActiveBelow(S, base, w, ms[..k - 1]);
    MergesPrefix(S, base, w, ms, k);
    ActiveBelow(S, base, w, ms[..k]);
    var x := ms[k - 1];
    if k - 1 > i { RootsHeavier(S, base, w, ms, i, k - 1); }
    forall a | a in Active(S, ms[..k])
      ensures a < |w| && w[ms[i].m] <= w[a]
    {
      if a != x.node { assert a in Active(S, ms[..k - 1]); }
    }
  }

  /** Every root weighs something. */
  lemma {:induction false} RootsPositive(S: set<nat>, base: nat, w: seq<nat>, ms: seq<Merge>, k: nat)
    requires MergesOk(S, base, w, ms) && (forall a :: a in S ==> a < base <= |w| && w[a] > 0) && k <= |ms|
    ensures forall a :: a in Active(S, ms[..k]) ==> a < |w| && w[a] > 0
  {
    hide MergesOk, Active;
    if k == 0 {
      NoMerges(S);
      assert ms[..0] == [];
    } else {
      RootsPositive(S, base, w, ms, k - 1);
      MergeAt(S, base, w, ms, k - 1);
    }
  }

  /** The merge that takes the node made by merge `i`, unless that is the last one. */
  lemma {:induction false} FatherOf(S: set<nat>, base: nat, w: seq<nat>, ms: seq<Merge>, i: nat, j: nat)
    returns (k: nat)
    requires Finished(S, base, w, ms) && i < |ms| - 1 && i < j <= |ms| && ms[i].node in Active(S, ms[..j])
    ensures j <= k < |ms| && (ms[i].node == ms[k].n || ms[i].node == ms[k].m)
    decreases |ms| - j
  {
    hide MergesOk, Active;
    assert ms[..|ms|] == ms;
    MergeAt(S, base, w, ms, i);
    MergeAt(S, base, w, ms, |ms| - 1);
    if ms[i].node == ms[j].n || ms[i].node == ms[j].m {
      k := j;
    } else {
      MergeAt(S, base, w, ms, j);
      k := FatherOf(S, base, w, ms, i, j + 1);
    }
  }

  /** A merge `k` of the node that merge `i` made: it weighs at least that node and its heavier child. */
  lemma Heavier(S: set<nat>, base: nat, w: seq<nat>, ms: seq<Merge>, i: nat, k: nat)
    requires MergesOk(S, base, w, ms) && (forall a :: a in S ==> a < base <= |w|) && Greedy(S, w, ms)
    requires i < k < |ms| && (ms[i].node == ms[k].n || ms[i].node == ms[k].m)
    ensures ms[i].m < |w| && ms[i].node < |w| && ms[k].m < |w| && ms[k].node < |w|
    ensures w[ms[i].node] + w[ms[i].m] <= w[ms[k].node] && w[ms[i].node] <= w[ms[k].m] && w[ms[i].m] <= w[ms[i].node]
  {
    hide MergesOk, Active, Greedy;
    MergeAt(S, base, w, ms, i);
    MergeAt(S, base, w, ms, k);
    RootsHeavier(S, base, w, ms, i, k);
    GreedyAt(S, w, ms, k);
  }

  /** The root weighs at least as much as a Fibonacci tree of the depth at which a node stands. */
  lemma {:induction false} DeepIsHeavy(S: set<nat>, base: nat, w: seq<nat>, ms: seq<Merge>, len: seq<nat>, L: nat,
                                       j: nat)
    requires Finished(S, base, w, ms) && (forall a :: a in S ==> a < base <= |w|) && Greedy(S, w, ms)
    requires LengthsOf(ms, len, L) && j < |ms|
    ensures ms[|ms| - 1].node < |w| && ms[j].node < |w| && ms[j].m < |w|
    ensures var l := len[ms[j].node];
            l <= L && w[ms[|ms| - 1].node] >= Fib(l + 1) * w[ms[j].node] + Fib(l) * w[ms[j].m]
    decreases |ms| - j
  {
    hide MergesOk, Active, Greedy, Fib;
    MergeAt(S, base, w, ms, j);
    MergeAt(S, base, w, ms, |ms| - 1);
    if j == |ms| - 1 {
      FibStart();
    } else {
      var k := FatherOf(S, base, w, ms, j, j + 1);
      DeepIsHeavy(S, base, w, ms, len, L, k);
      Heavier(S, base, w, ms, j, k);
      FibStep(w[ms[|ms| - 1].node], w[ms[k].node], w[ms[k].m], w[ms[j].node], w[ms[j].m], len[ms[k].node], L);
    }
  }

  lemma FibStart()
    ensures Fib(1) == 1 && Fib(0) == 0
  {}

  /** From a father of weight `p` to its child of weight `x`, whose own heavier child has weight `y`. */
  lemma FibStep(r: nat, p: nat, m: nat, x: nat, y: nat, l: nat, L: nat)
    requires r >= Fib(l + 1) * p + Fib(l) * m && p >= x + y && m >= x >= y && l <= L
    ensures var d := Deeper(l, L);
            d <= L && r >= Fib(d + 1) * x + Fib(d) * y
  {
    hide Fib;
    FibNext(l);
    var a, b := Fib(l + 1), Fib(l);
    Spent(r, a, b, p, m, x, y);
  }

  lemma FibNext(l: nat)
    ensures Fib(l + 2) == Fib(l + 1) + Fib(l)
  {}

  lemma Spent(r: nat, a: nat, b: nat, p: nat, m: nat, x: nat, y: nat)
    requires r >= a * p + b * m && p >= x + y && m >= x >= y
    ensures r >= (a + b) * x + a * y && r >= a * x + b * y
  {
    MulMono(x + y, p, a);
    MulMono(x, m, b);
    MulMono(y, x, b);
    Distribute(x, y, a);
    Distribute(a, b, x);
    MulMono(0, y, a);
  }

  /** Weights below a Fibonacci number leave nothing to cut off. */
  lemma LightIsShallow(S: set<nat>, base: nat, w: seq<nat>, ms: seq<Merge>, len: seq<nat>, L: nat)
    requires Finished(S, base, w, ms) && (forall a :: a in S ==> a < base <= |w| && w[a] > 0) && Greedy(S, w, ms)
    requires LengthsOf(ms, len, L) && SumSet(S, w) < Fib(L + 3)
    ensures Excess(ms, len, L, 0) == 0
  {
    hide MergesOk, Active, Greedy, Fib, SumSet;
    RootWeight(S, base, w, ms);
    forall j: nat | j < |ms|
      ensures len[ms[j].node] < L
    {
      DeepIsHeavy(S, base, w, ms, len, L, j);
      MergeAt(S, base, w, ms, j);
      RootsPositive(S, base, w, ms, j);
      FibThree(L, w[ms[j].node], w[ms[j].m]);
    }
    NoneDeep(ms, len, L, 0);
  }

  lemma FibThree(L: nat, x: nat, y: nat)
    requires x >= 2 && y >= 1
    ensures Fib(L + 1) * x + Fib(L) * y >= Fib(L + 3)
  {
    assert Fib(L + 3) == Fib(L + 2) + Fib(L + 1) == 2 * Fib(L + 1) + Fib(L);
    hide Fib;
    MulMono(2, x, Fib(L + 1));
    MulMono(1, y, Fib(L));
  }

  lemma {:induction false} NoneDeep(ms: seq<Merge>, len: seq<nat>, L: nat, j: nat)
    requires j <= |ms| && (forall i :: 0 <= i < |ms| ==> ms[i].node < |len|)
    requires forall i: nat :: i < |ms| ==> len[ms[i].node] < L
    ensures Excess(ms, len, L, j) == 0
    decreases |ms| - j
  {
    if j < |ms| { NoneDeep(ms, len, L, j + 1); }
  }

  /** The root weighs as much as all leaves. */
  lemma RootWeight(S: set<nat>, base: nat, w: seq<nat>, ms: seq<Merge>)
    requires Finished(S, base, w, ms) && forall a :: a in S ==> a < base
    ensures ms[|ms| - 1].node < |w| && w[ms[|ms| - 1].node] == SumSet(S, w)
  {
    hide MergesOk, Active, SumSet;
    MergeAt(S, base, w, ms, |ms| - 1);
    SameWeight(S, base, w, ms, |ms|);
    assert ms[..|ms|] == ms;
    SumSetSingle(ms[|ms| - 1].node, w);
  }

  lemma {:induction false} SameWeight(S: set<nat>, base: nat, w: seq<nat>, ms: seq<Merge>, k: nat)
    requires MergesOk(S, base, w, ms) && (forall a :: a in S ==> a < base) && k <= |ms|
    ensures SumSet(Active(S, ms[..k]), w) == SumSet(S, w)
  {
    hide MergesOk, Active, SumSet;
    if k == 0 {
      NoMerges(S);
      assert ms[..0] == [];
    } else {
      SameWeight(S, base, w, ms, k - 1);
      MergeAt(S, base, w, ms, k - 1);
      var x := ms[k - 1];
      SumSetSplit(Active(S, ms[..k - 1]), w, x.node, x.n, x.m);
    }
  }

  // ---------- weights and heights while the tree grows ----------

  lemma FibSmall()
    ensures Fib(2) == 1 && Fib(3) == 2
  {}

  /** The node of a merge weighs as much as a Fibonacci tree of its height, its heavier child as one a step lower. */
  lemma {:induction false} NodeIsHeavy(S: set<nat>, base: nat, w: seq<nat>, ms: seq<Merge>, H: seq<nat>, j: nat)
    requires MergesOk(S, base, w, ms) && (forall a :: a in S ==> a < base <= |w| && w[a] > 0) && Greedy(S, w, ms)
    requires Tall(S, w, ms, H) && LeafHeights(S, H) && j < |ms|
    ensures ms[j].node < |w| && ms[j].node < |H| && ms[j].m < |w|
    ensures w[ms[j].node] >= Fib(H[ms[j].node] + 2) && w[ms[j].m] >= Fib(H[ms[j].node] + 1)
    decreases j
  {
    hide MergesOk, Active, Greedy, Tall, Tied, Fib, LeafHeights, Higher;
    var x := ms[j];
    MergeAt(S, base, w, ms, j);
    GreedyAt(S, w, ms, j);
    TallAt(S, w, ms, H, j);
    HigherIs(H, x.n, x.m, x.node);
    RootsPositive(S, base, w, ms, j);
    var c := if H[x.n] >= H[x.m] then x.n else x.m;
    var o := if H[x.n] >= H[x.m] then x.m else x.n;
    FibNext(H[c] + 1);
    if c in S {
      HeightIs(S, H, c);
      FibSmall();
    } else {
      var i := MadeBy(S, base, w, ms, j, c);
      NodeIsHeavy(S, base, w, ms, H, i);
      RootsHeavier(S, base, w, ms, i, j);
    }
  }

  lemma HigherIs(H: seq<nat>, n: nat, m: nat, node: nat)
    requires Higher(H, n, m, node)
    ensures n < |H| && m < |H| && node < |H| && H[node] == 1 + Larger(H[n], H[m])
  {}

  lemma HeightIs(S: set<nat>, H: seq<nat>, a: nat)
    requires LeafHeights(S, H) && a in S
    ensures a < |H| && H[a] == 0
  {}

  /** A root that is no leaf was made by an earlier merge. */
  lemma MadeBy(S: set<nat>, base: nat, w: seq<nat>, ms: seq<Merge>, j: nat, a: nat) returns (i: nat)
    requires MergesOk(S, base, w, ms) && (forall b :: b in S ==> b < base) && j <= |ms|
    requires a in Active(S, ms[..j]) && a !in S
    ensures i < j && ms[i].node == a
  {
    hide Active;
    MergesPrefix(S, base, w, ms, j);
    ActiveBelow(S, base, w, ms[..j]);
    PairsLeaves(S, base, w, ms[..j]);
    i := a - base;
    MergeAt(S, base, w, ms, i);
  }

  lemma {:induction false} FibMono(a: nat, b: nat)
    requires a <= b
    ensures Fib(a) <= Fib(b)
  {
    if a < b { FibMono(a, b - 1); }
  }

  lemma FibBig()
    ensures Fib(25) == 75025
  {
    assert Fib(6) == 8 && Fib(7) == 13;
    assert Fib(8) == 21 && Fib(9) == 34;
    assert Fib(10) == 55 && Fib(11) == 89;
    assert Fib(12) == 144 && Fib(13) == 233;
    assert Fib(14) == 377 && Fib(15) == 610;
    assert Fib(16) == 987 && Fib(17) == 1597;
    assert Fib(18) == 2584 && Fib(19) == 4181;
    assert Fib(20) == 6765 && Fib(21) == 10946;
    assert Fib(22) == 17711 && Fib(23) == 28657;
  }

  /** Weights of 16 bits keep the trees so low that their heights fit into a byte. */
  lemma LowTrees(S: set<nat>, base: nat, w: seq<nat>, ms: seq<Merge>, H: seq<nat>, a: nat)
    requires MergesOk(S, base, w, ms) && (forall b :: b in S ==> b < base <= |w| && w[b] > 0) && Greedy(S, w, ms)
    requires Tall(S, w, ms, H) && LeafHeights(S, H) && a in Active(S, ms) && a < |w| && w[a] < 0x10000
    ensures a < |H| && H[a] < 23
  {
    hide MergesOk, Active, Greedy, Tall, LeafHeights, Fib;
    if a in S {
      HeightIs(S, H, a);
    } else {
      assert ms[..|ms|] == ms;
      var i := MadeBy(S, base, w, ms, |ms|, a);
      NodeIsHeavy(S, base, w, ms, H, i);
      FibBig();
      if H[a] >= 23 { FibMono(25, H[a] + 2); }
    }
  }

  /** Heights and weights of a tree that has been built up to the merges `ms`. */
  predicate Risen(S: set<nat>, base: nat, w: seq<nat>, ms: seq<Merge>, H: seq<nat>) {
    Tall(S, w, ms, H) && LeafHeights(S, H) && forall a :: a in S ==> a < base <= |w| && w[a] > 0
  }

  /** What is written for nodes not made yet does not matter. */
  lemma {:induction false} TallFrame(S: set<nat>, base: nat, w: seq<nat>, v: seq<nat>, ms: seq<Merge>, H: seq<nat>,
                                     G: seq<nat>)
    requires MergesOk(S, base, w, ms) && Tall(S, w, ms, H) && (forall a :: a in S ==> a < base)
    requires |w| == |v| && |H| == |G| && base + |ms| <= |w|
    requires forall i :: 0 <= i < base + |ms| ==> w[i] == v[i] && (i < |H| ==> H[i] == G[i])
    ensures Tall(S, v, ms, G)
  {
    hide Active;
    if ms != [] {
      var front := ms[..|ms| - 1];
      TallFrame(S, base, w, v, front, H, G);
      ActiveBelow(S, base, w, front);
    }
  }

  /** One more merge of two lightest roots with lowest trees, whose height fits into a byte. */
  lemma RisenStep(S: set<nat>, base: nat, w: seq<nat>, ms: seq<Merge>, H: seq<nat>, n: nat, m: nat)
    requires MergesOk(S, base, w, ms) && Greedy(S, w, ms) && Risen(S, base, w, ms, H) && base + |ms| < |w|
    requires base + |ms| < |H| && n in Active(S, ms) && m in Active(S, ms) && n < base + |ms| && m < base + |ms|
    requires w[n] < 0x10000 && w[m] < 0x10000 && Tied(Active(S, ms), w, H, n, m) && forall a :: a in S ==> a < base
    ensures var node, h := base + |ms|, 1 + Larger(H[n], H[m]);
            && h < 256
            && Risen(S, base, w[node := w[n] + w[m]], ms + [Merge(n, m, node)], H[node := h])
  {
    hide MergesOk, Active, Greedy, Fib;
    LowTrees(S, base, w, ms, H, n);
    LowTrees(S, base, w, ms, H, m);
    var node, h := base + |ms|, 1 + Larger(H[n], H[m]);
    var v, G, x := w[node := w[n] + w[m]], H[node := h], Merge(n, m, node);
    TallFrame(S, base, w, v, ms, H, G);
    ActiveBelow(S, base, w, ms);
    assert (ms + [x])[..|ms|] == ms;
  }

  /** The heights after a merge of a tree under construction. */
  lemma GrowHeights(S: set<nat>, base: nat, w: seq<nat>, ms: seq<Merge>, D: seq<nat>, z: nat, T: nat, H: seq<nat>,
                    n: nat, m: nat)
    requires Grown(S, base, w, ms, D, z, T) && Risen(S, base, w, ms, H) && T < 0x10000
    requires base + |ms| < |w| && base + |ms| < |H|
    requires var A := Active(S, ms);
             n in A && m in A - {n} && Least(A, w, n) && Least(A - {n}, w, m) && Tied(A, w, H, n, m)
    ensures n < |w| && m < |w| && n < |H| && m < |H|
    ensures var node, h := base + |ms|, 1 + Larger(H[n], H[m]);
            && h % 256 == h
            && Risen(S, base, w[node := w[n] + w[m]], ms + [Merge(n, m, node)], H[node := h])
  {
    hide MergesOk, Greedy, Active, SumSet, Pairs, Fathers, Least, Tied, Risen;
    GrowStep(S, base, w, ms, D, z, T, n, m);
    RisenStep(S, base, w, ms, H, n, m);
  }
}
