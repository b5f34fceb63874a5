/** The forest of a tree under construction. */
module Forest {
  import opened HeapOrder
  import opened Merging
  import opened TreeShape

  /** No node in `A` has a smaller frequency than `n`. */
  predicate Least(A: set<nat>, f: seq<nat>, n: nat) {
    n < |f| && forall a :: a in A ==> a < |f| && f[n] <= f[a]
  }

  /**
   * Merging from the leaves `S` has gone as far as `ms`: the merges took lightest roots, every child
   * names its father, symbols below `z` without a leaf have length zero, and the roots weigh `T`.
   */
  predicate Grown(S: set<nat>, base: nat, w: seq<nat>, ms: seq<Merge>, D: seq<nat>, z: nat, T: nat) {
    && |w| == |D| && z <= base <= |w| && (forall a :: a in S ==> a < z)
    && MergesOk(S, base, w, ms) && Greedy(S, w, ms)
    && base + |ms| <= |w|
    && (forall i :: 0 <= i < |Pairs(ms)| ==> Pairs(ms)[i] < |D| && D[Pairs(ms)[i]] == Fathers(ms)[i])
    && (forall x :: 0 <= x < base && x !in S ==> D[x] == 0)
    && SumSet(Active(S, ms), w) == T
  }

  lemma GrownStart(S: set<nat>, base: nat, w: seq<nat>, D: seq<nat>, z: nat)
    requires |w| == |D| && z <= base <= |w| && (forall a :: a in S ==> a < z)
    requires forall x :: 0 <= x < base && x !in S ==> D[x] == 0
    ensures SumSet(S, w) >= 0 && Grown(S, base, w, [], D, z, SumSet(S, w))
  {
    SumSetNonneg(S, w);
  }

  lemma {:induction false} SumSetNonneg(S: set<nat>, f: seq<nat>)
    ensures SumSet(S, f) >= 0
  {
    if f != [] { SumSetNonneg(S, f[..|f| - 1]); }
  }

  /** The weights of nodes not made yet do not matter. */
  lemma {:induction false} MergesFrame(S: set<nat>, base: nat, w: seq<nat>, w': seq<nat>, ms: seq<Merge>)
    requires MergesOk(S, base, w, ms) && Greedy(S, w, ms) && (forall a :: a in S ==> a < base)
    requires |w| == |w'| && base + |ms| <= |w| && forall i :: 0 <= i < base + |ms| ==> w[i] == w'[i]
    ensures MergesOk(S, base, w', ms) && Greedy(S, w', ms)
  {
    if ms != [] {
      MergesFrame(S, base, w, w', ms[..|ms| - 1]);
      ActiveBelow(S, base, w, ms[..|ms| - 1]);
    }
  }

  /** Two different roots weigh at most as much as all roots together. */
  lemma TwoRoots(A: set<nat>, w: seq<nat>, n: nat, m: nat)
    requires n in A && m in A && n != m && n < |w| && m < |w|
    ensures w[n] + w[m] <= SumSet(A, w)
  {
    SumSetRemove(A, w, n);
    SumSetRemove(A - {n}, w, m);
    SumSetNonneg(A - {n} - {m}, w);
  }

  lemma MergesSnoc(S: set<nat>, base: nat, w: seq<nat>, ms: seq<Merge>, x: Merge)
    requires MergesOk(S, base, w, ms) && Greedy(S, w, ms)
    requires x.n in Active(S, ms) && x.m in Active(S, ms) && x.n != x.m && Lightest(Active(S, ms), w, x)
    requires x.node == base + |ms| < |w| && x.n < x.node && x.m < x.node && w[x.node] == w[x.n] + w[x.m]
    ensures MergesOk(S, base, w, ms + [x]) && Greedy(S, w, ms + [x])
    ensures Active(S, ms + [x]) == Active(S, ms) - {x.n, x.m} + {x.node}
    ensures Pairs(ms + [x]) == [x.m, x.n] + Pairs(ms) && Fathers(ms + [x]) == [x.node, x.node] + Fathers(ms)
  {
    assert (ms + [x])[..|ms|] == ms;
  }

  /** One more merge of two lightest roots. */
  lemma GrowStep(S: set<nat>, base: nat, w: seq<nat>, ms: seq<Merge>, D: seq<nat>, z: nat, T: nat, n: nat, m: nat)
    requires Grown(S, base, w, ms, D, z, T) && base + |ms| < |w|
    requires var A := Active(S, ms); n in A && m in A - {n} && Least(A, w, n) && Least(A - {n}, w, m)
    ensures n < base + |ms| && m < base + |ms| && w[n] + w[m] <= T
    ensures var x := Merge(n, m, base + |ms|);
            && Grown(S, base, w[x.node := w[n] + w[m]], ms + [x], D[n := x.node][m := x.node], z, T)
            && Active(S, ms + [x]) == Active(S, ms) - {n, m} + {x.node}
            && Pairs(ms + [x]) == [m, n] + Pairs(ms)
  {
    hide MergesOk, Greedy, SumSet, Pairs, Fathers, Active;
    var A, node := Active(S, ms), base + |ms|;
    var x, v := Merge(n, m, node), w[node := w[n] + w[m]];
    var D' := D[n := node][m := node];
    ActiveBelow(S, base, w, ms);
    TwoRoots(A, w, n, m);
    MergesFrame(S, base, w, v, ms);
    MergesSnoc(S, base, v, ms, x);
    SumSetFrame(A, w, v);
    SumSetSplit(A, v, node, n, m);
    PairsShape(S, base, w, ms);
    PairsLeaves(S, base, w, ms);
    forall i | 0 <= i < |Pairs(ms + [x])|
      ensures Pairs(ms + [x])[i] < |D'| && D'[Pairs(ms + [x])[i]] == Fathers(ms + [x])[i]
    {
      if i >= 2 {
        assert Pairs(ms)[i - 2] in Pairs(ms);
        assert Pairs(ms + [x])[i] == Pairs(ms)[i - 2] && Fathers(ms + [x])[i] == Fathers(ms)[i - 2];
      }
    }
  }

  /** With one root left the tree is finished. */
  lemma GrownFinished(S: set<nat>, base: nat, w: seq<nat>, ms: seq<Merge>, D: seq<nat>, z: nat, T: nat, r: nat)
    requires Grown(S, base, w, ms, D, z, T) && ms != [] && Active(S, ms) == {r}
    ensures r == ms[|ms| - 1].node
    ensures Built(S, base, w, ms, [r] + Pairs(ms), D, z)
  {
    MergeAt(S, base, w, ms, |ms| - 1);
    assert ms[..|ms|] == ms;
  }

  /** The heap only looks at its own places and nodes. */
  lemma HeapFrame(h: seq<nat>, h': seq<nat>, len: nat, f: seq<nat>, d: seq<nat>, f': seq<nat>, d': seq<nat>,
                  A: set<nat>)
    requires Nodes(h, len, f, d) && Ordered(h, len, 1, f, d) && multiset(h[1..len + 1]) == multiset(A)
    requires |h'| == |h| && |f'| == |f| && |d'| == |d| && forall i :: 0 <= i <= len ==> h'[i] == h[i]
    requires forall a :: a in A && a < |f| && a < |d| ==> f'[a] == f[a] && d'[a] == d[a]
    ensures Nodes(h', len, f', d') && Ordered(h', len, 1, f', d') && multiset(h'[1..len + 1]) == multiset(A)
  {
    assert h'[1..len + 1] == h[1..len + 1];
    forall i | 1 <= i <= len
      ensures h[i] in A
    {
      assert h[1..len + 1][i - 1] == h[i];
      assert h[i] in multiset(h[1..len + 1]);
    }
    forall i | 2 <= i <= len && 1 <= i / 2
      ensures Smaller(f', d', h'[i / 2], h'[i])
    {
      assert Smaller(f, d, h[i / 2], h[i]);
      assert h[i / 2] in A && h[i] in A;
    }
  }
}
