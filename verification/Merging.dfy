/** The merges that build a Huffman tree, and what they fix about the code lengths. */
module Merging {
  import opened Numbers
  import opened Canonical

  // ---------- sums over sets of nodes ----------

  /** The sum of `f` over the nodes in `S`. */
  function SumSet(S: set<nat>, f: seq<int>): int {
    if f == [] then 0
    else SumSet(S, f[..|f| - 1]) + if |f| - 1 in S then f[|f| - 1] else 0
  }

  lemma {:induction false} SumSetAdd(S: set<nat>, f: seq<int>, i: nat)
    requires i !in S && i < |f|
    ensures SumSet(S + {i}, f) == SumSet(S, f) + f[i]
  {
    if i == |f| - 1 {
      SumSetSame(S, S + {i}, f[..i]);
    } else {
      SumSetAdd(S, f[..|f| - 1], i);
    }
  }

  lemma {:induction false} SumSetSame(S: set<nat>, T: set<nat>, f: seq<int>)
    requires forall i :: 0 <= i < |f| ==> (i in S <==> i in T)
    ensures SumSet(S, f) == SumSet(T, f)
  {
    if f != [] { SumSetSame(S, T, f[..|f| - 1]); }
  }

  lemma SumSetRemove(S: set<nat>, f: seq<int>, i: nat)
    requires i in S && i < |f|
    ensures SumSet(S - {i}, f) == SumSet(S, f) - f[i]
  {
    SumSetAdd(S - {i}, f, i);
    assert S - {i} + {i} == S;
  }

  lemma {:induction false} SumSetEmpty(f: seq<int>)
    ensures SumSet({}, f) == 0
  {
    if f != [] { SumSetEmpty(f[..|f| - 1]); }
  }

  lemma SumSetSingle(i: nat, f: seq<int>)
    requires i < |f|
    ensures SumSet({i}, f) == f[i]
  {
    SumSetEmpty(f);
    SumSetAdd({}, f, i);
    assert {} + {i} == {i};
  }

  /** Replacing a node by two others. */
  lemma SumSetSplit(S: set<nat>, f: seq<int>, node: nat, n: nat, m: nat)
    requires n in S && m in S && n != m && node !in S - {n, m}
    requires n < |f| && m < |f| && node < |f|
    ensures SumSet(S - {n, m} + {node}, f) == SumSet(S, f) - f[n] - f[m] + f[node]
  {
    SumSetRemove(S, f, n);
    SumSetRemove(S - {n}, f, m);
    assert S - {n} - {m} == S - {n, m};
    SumSetAdd(S - {n, m}, f, node);
  }

  lemma {:induction false} SumSetMono(S: set<nat>, f: seq<int>, g: seq<int>)
    requires |f| == |g| && forall i :: 0 <= i < |f| && i in S ==> f[i] <= g[i]
    ensures SumSet(S, f) <= SumSet(S, g)
  {
    if f != [] { SumSetMono(S, f[..|f| - 1], g[..|g| - 1]); }
  }

  lemma {:induction false} SumSetFrame(S: set<nat>, f: seq<int>, g: seq<int>)
    requires |f| == |g| && forall i :: 0 <= i < |f| && i in S ==> f[i] == g[i]
    ensures SumSet(S, f) == SumSet(S, g)
  {
    if f != [] { SumSetFrame(S, f[..|f| - 1], g[..|g| - 1]); }
  }

  // ---------- merges ----------

  /** The trees rooted at `n` and `m` become the children of `node`. */
  datatype Merge = Merge(n: nat, m: nat, node: nat)

  /** The roots left after merging, from the leaves `S`. */
  function Active(S: set<nat>, ms: seq<Merge>): set<nat> {
    if ms == [] then S else
    var x := ms[|ms| - 1];
    Active(S, ms[..|ms| - 1]) - {x.n, x.m} + {x.node}
  }

  /** Each merge takes two roots and makes the next internal node, whose weight is their sum. */
  predicate MergesOk(S: set<nat>, base: nat, w: seq<nat>, ms: seq<Merge>) {
    ms == [] ||
    var x, front := ms[|ms| - 1], ms[..|ms| - 1];
    && MergesOk(S, base, w, front)
    && x.n in Active(S, front) && x.m in Active(S, front) && x.n != x.m
    && x.node == base + |front| && x.node < |w| && x.n < x.node && x.m < x.node
    && w[x.node] == w[x.n] + w[x.m]
  }

  /** No root is lighter than the two that are merged. */
  predicate Lightest(A: set<nat>, w: seq<nat>, x: Merge) {
    && x.n < |w| && x.m < |w|
    && (forall a :: a in A && a < |w| ==> w[x.n] <= w[a])
    && (forall a :: a in A && a < |w| && a != x.n ==> w[x.m] <= w[a])
  }

  /** Every merge takes two lightest roots. */
  predicate Greedy(S: set<nat>, w: seq<nat>, ms: seq<Merge>) {
    ms == [] ||
    (Greedy(S, w, ms[..|ms| - 1]) && Lightest(Active(S, ms[..|ms| - 1]), w, ms[|ms| - 1]))
  }

  lemma {:induction false} ActiveBelow(S: set<nat>, base: nat, w: seq<nat>, ms: seq<Merge>)
    requires MergesOk(S, base, w, ms) && forall a :: a in S ==> a < base
    ensures forall a :: a in Active(S, ms) ==> a < base + |ms|
  {
    if ms != [] { ActiveBelow(S, base, w, ms[..|ms| - 1]); }
  }

  lemma {:induction false} MergesPrefix(S: set<nat>, base: nat, w: seq<nat>, ms: seq<Merge>, j: nat)
    requires MergesOk(S, base, w, ms) && j <= |ms|
    ensures MergesOk(S, base, w, ms[..j])
    decreases |ms|
  {
    if j < |ms| {
      assert ms[..|ms| - 1][..j] == ms[..j];
      MergesPrefix(S, base, w, ms[..|ms| - 1], j);
    } else {
      assert ms[..j] == ms;
    }
  }

  /** The `j`-th merge, seen from the roots before it. */
  lemma MergeAt(S: set<nat>, base: nat, w: seq<nat>, ms: seq<Merge>, j: nat)
    requires MergesOk(S, base, w, ms) && j < |ms| && forall a :: a in S ==> a < base
    ensures var x, A := ms[j], Active(S, ms[..j]);
            && x.n in A && x.m in A && x.n != x.m && x.node !in A
            && x.node == base + j && x.node < |w| && x.n < x.node && x.m < x.node
            && w[x.node] == w[x.n] + w[x.m]
            && Active(S, ms[..j + 1]) == A - {x.n, x.m} + {x.node}
  {
    MergesPrefix(S, base, w, ms, j + 1);
    MergesPrefix(S, base, w, ms, j);
    ActiveBelow(S, base, w, ms[..j]);
    assert ms[..j + 1][..j] == ms[..j];
  }

  // ---------- code lengths from merges ----------

  /** The length below a node of length `l`, cut off at `L`. */
  function Deeper(l: nat, L: nat): nat {
    if l + 1 > L then L else l + 1
  }

  /** `len` gives the last node length zero and every child one more than its father, cut off at `L`. */
  predicate LengthsOf(ms: seq<Merge>, len: seq<nat>, L: nat) {
    && ms != []
    && (forall j :: 0 <= j < |ms| ==> ms[j].n < |len| && ms[j].m < |len| && ms[j].node < |len|)
    && len[ms[|ms| - 1].node] == 0
    && (forall j :: 0 <= j < |ms| ==>
          len[ms[j].n] == Deeper(len[ms[j].node], L) && len[ms[j].m] == Deeper(len[ms[j].node], L))
  }

  /** How many of the merges from the `j`-th on happen at the cut-off. */
  function Excess(ms: seq<Merge>, len: seq<nat>, L: nat, j: nat): nat
    requires j <= |ms| && forall i :: 0 <= i < |ms| ==> ms[i].node < |len|
    decreases |ms| - j
  {
    if j == |ms| then 0 else Excess(ms, len, L, j + 1) + if len[ms[j].node] >= L then 1 else 0
  }

  /** Each node's share of the code space, in units of 2^-15. */
  function Shares(len: seq<nat>): (r: seq<int>)
    ensures |r| == |len|
    ensures forall i :: 0 <= i < |len| ==> r[i] == if len[i] <= MAX_BITS then Pow2(MAX_BITS - len[i]) else 0
  {
    seq(|len|, i requires 0 <= i < |len| => if len[i] <= MAX_BITS then Pow2(MAX_BITS - len[i]) else 0)
  }

  lemma DeeperShare(l: nat, L: nat)
    requires l <= L <= MAX_BITS
    ensures 2 * Pow2(MAX_BITS - Deeper(l, L)) == Pow2(MAX_BITS - l) + if l >= L then Pow2(MAX_BITS - L) else 0
  {
    if l < L {
      assert Pow2(MAX_BITS - l) == 2 * Pow2(MAX_BITS - (l + 1));
    }
  }

  lemma {:induction false} NodesShort(S: set<nat>, base: nat, w: seq<nat>, ms: seq<Merge>, len: seq<nat>, L: nat,
                                      j: nat)
    requires MergesOk(S, base, w, ms) && (forall a :: a in S ==> a < base) && ms != []
    requires Active(S, ms) == {ms[|ms| - 1].node}
    requires LengthsOf(ms, len, L) && j <= |ms|
    ensures forall a :: a in Active(S, ms[..j]) ==> a < |len| && len[a] <= L
    decreases |ms| - j
  {
    if j == |ms| {
      assert ms[..j] == ms;
    } else {
      NodesShort(S, base, w, ms, len, L, j + 1);
      MergeAt(S, base, w, ms, j);
      var x := ms[j];
      forall a | a in Active(S, ms[..j])
        ensures a < |len| && len[a] <= L
      {
        if a != x.n && a != x.m { assert a in Active(S, ms[..j + 1]); }
      }
    }
  }

  /** Cutting off at `L` over-subscribes the code space by one unit of 2^-L per merge below the cut. */
  lemma {:induction false} KraftFrontier(S: set<nat>, base: nat, w: seq<nat>, ms: seq<Merge>, len: seq<nat>, L: nat,
                                         j: nat)
    requires MergesOk(S, base, w, ms) && (forall a :: a in S ==> a < base) && ms != []
    requires Active(S, ms) == {ms[|ms| - 1].node}
    requires LengthsOf(ms, len, L) && j <= |ms| && L <= MAX_BITS
    ensures SumSet(Active(S, ms[..j]), Shares(len)) == WHOLE + Shl(Excess(ms, len, L, j), MAX_BITS - L)
    decreases |ms| - j
  {
    hide SumSet, Active, MergesOk, Pow2, Shl;
    var f := Shares(len);
    if j == |ms| {
      assert ms[..j] == ms;
      SumSetSingle(ms[|ms| - 1].node, f);
      ShlOne(MAX_BITS - L);
    } else {
      KraftFrontier(S, base, w, ms, len, L, j + 1);
      NodesShort(S, base, w, ms, len, L, j + 1);
      MergeAt(S, base, w, ms, j);
      var x := ms[j];
      SumSetSplit(Active(S, ms[..j]), f, x.node, x.n, x.m);
      DeeperShare(len[x.node], L);
      ShlPlus(Excess(ms, len, L, j + 1), 1, MAX_BITS - L);
      ShlOne(MAX_BITS - L);
    }
  }

  /** Marks the nodes at the cut-off. */
  function Deepest(len: seq<nat>, L: nat): (r: seq<int>)
    ensures |r| == |len|
    ensures forall i :: 0 <= i < |len| ==> r[i] == if len[i] == L then 1 else 0
  {
    seq(|len|, i requires 0 <= i < |len| => if len[i] == L then 1 else 0)
  }

  lemma {:induction false} DeepestNonneg(A: set<nat>, len: seq<nat>, L: nat, k: nat)
    requires k <= |len|
    ensures SumSet(A, Deepest(len, L)[..k]) >= 0
    ensures forall a :: a in A && a < k && len[a] == L ==> SumSet(A, Deepest(len, L)[..k]) >= 1
  {
    if k > 0 {
      assert Deepest(len, L)[..k][..k - 1] == Deepest(len, L)[..k - 1];
      DeepestNonneg(A, len, L, k - 1);
    }
  }

  /** No node stands at the cut-off, or two more than units over-subscribed. */
  lemma {:induction false} DeepestFrontier(S: set<nat>, base: nat, w: seq<nat>, ms: seq<Merge>, len: seq<nat>,
                                           L: nat, j: nat)
    requires MergesOk(S, base, w, ms) && (forall a :: a in S ==> a < base) && ms != []
    requires Active(S, ms) == {ms[|ms| - 1].node}
    requires LengthsOf(ms, len, L) && j <= |ms| && L > 0
    ensures SumSet(Active(S, ms[..j]), Deepest(len, L)) == 0 == Excess(ms, len, L, j)
         || SumSet(Active(S, ms[..j]), Deepest(len, L)) >= Excess(ms, len, L, j) + 2
    decreases |ms| - j
  {
    hide SumSet, Active, MergesOk;
    var f := Deepest(len, L);
    if j == |ms| {
      assert ms[..j] == ms;
      SumSetSingle(ms[|ms| - 1].node, f);
    } else {
      DeepestFrontier(S, base, w, ms, len, L, j + 1);
      NodesShort(S, base, w, ms, len, L, j + 1);
      MergeAt(S, base, w, ms, j);
      var x := ms[j];
      DeepestNonneg(Active(S, ms[..j + 1]), len, L, |len|);
      assert f[..|len|] == f;
      SumSetSplit(Active(S, ms[..j]), f, x.node, x.n, x.m);
    }
  }
}
