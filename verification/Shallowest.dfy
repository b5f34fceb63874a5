/**
 * Merging lowest trees first among equally light ones: of all cheapest codes the tree has the least
 * longest length, so that whatever a tree too deep is cut down to costs more.
 */
module Shallowest {
  import opened Numbers
  import opened Bits
  import opened Canonical
  import opened CodeLengths
  import opened Merging
  import opened TreeShape
  import opened Optimality

  /** The heights of all nodes; every merge takes lowest trees among the lightest ones. */
  predicate Tall(S: set<nat>, w: seq<nat>, ms: seq<Merge>, H: seq<nat>) {
    ms == [] ||
    var x, front := ms[|ms| - 1], ms[..|ms| - 1];
    Tall(S, w, front, H) && Higher(H, x.n, x.m, x.node) && Tied(Active(S, front), w, H, x.n, x.m)
  }

  predicate LeafHeights(S: set<nat>, H: seq<nat>) {
    forall a :: a in S ==> a < |H| && H[a] == 0
  }

  lemma {:induction false} TallAt(S: set<nat>, w: seq<nat>, ms: seq<Merge>, H: seq<nat>, j: nat)
    requires Tall(S, w, ms, H) && j < |ms|
    ensures var x := ms[j];
            Higher(H, x.n, x.m, x.node) && Tied(Active(S, ms[..j]), w, H, x.n, x.m)
    decreases |ms|
  {
    hide Higher, Tied;
    if j < |ms| - 1 {
      assert ms[..|ms| - 1][..j] == ms[..j];
      TallAt(S, w, ms[..|ms| - 1], H, j);
    }
  }

  /** Lengths as cheap as the tree's make some leaf as deep as the tree is high. */
  lemma {:induction false} DeepEnough(S: set<nat>, base: nat, w: seq<nat>, ms: seq<Merge>, H: seq<nat>, k: seq<nat>,
                                      M: nat, j: nat, Z: nat)
    requires Finished(S, base, w, ms) && Greedy(S, w, ms) && Tall(S, w, ms, H)
    requires base + |ms| <= |w| == |k| && j <= |ms| && forall i :: 0 <= i < |ms| ==> ms[i].node < |w|
    requires Fits(Active(S, ms[..j]), k, M) && Within(Active(S, ms[..j]), k, H, Z)
    requires SumSet(Active(S, ms[..j]), Weighted(w, k)) <= MadeWeight(ms, w, j)
    ensures ms[|ms| - 1].node < |H| && H[ms[|ms| - 1].node] < Z
    decreases |ms| - j
  {
    hide SumSet, Active, MergesOk, Greedy, Fits, Tall, Tied, Higher, Within;
    var A := Active(S, ms[..j]);
    if j == |ms| {
      assert ms[..j] == ms;
      WithinAt(A, k, H, Z, ms[|ms| - 1].node);
    } else {
      var x := ms[j];
      MergeAt(S, base, w, ms, j);
      GreedyAt(S, w, ms, j);
      TallAt(S, w, ms, H, j);
      MergesPrefix(S, base, w, ms, j);
      ActiveBelow(S, base, w, ms[..j]);
      var r := MergeStep(A, w, k, M, x.n, x.m, x.node, H, Z);
      LowerBound(S, base, w, ms, r, M, j + 1);
      DeepEnough(S, base, w, ms, H, r, M, j + 1, Z);
    }
  }

  lemma WithinAt(A: set<nat>, k: seq<nat>, H: seq<nat>, Z: nat, a: nat)
    requires Within(A, k, H, Z) && a in A
    ensures a < |H| && H[a] < Z
  {}

  // ---------- the height of a tree that is cut off ----------

  /** A node at depth `D[a]` or below, with a tree of height `H[a]`. */
  lemma {:induction false} HeightAtRoot(S: set<nat>, base: nat, w: seq<nat>, ms: seq<Merge>, D: seq<nat>, L: nat,
                                        H: seq<nat>, j: nat)
    requires Finished(S, base, w, ms) && LengthsOf(ms, D, L) && Tall(S, w, ms, H) && j <= |ms|
    requires ms[|ms| - 1].node < |H|
    ensures forall a :: a in Active(S, ms[..j]) ==> a < |D| && a < |H| && D[a] + H[a] <= H[ms[|ms| - 1].node]
    decreases |ms| - j
  {
    hide MergesOk, Tall, Tied;
    if j == |ms| {
      assert ms[..j] == ms;
    } else {
      HeightAtRoot(S, base, w, ms, D, L, H, j + 1);
      MergeAt(S, base, w, ms, j);
      TallAt(S, w, ms, H, j);
      var x := ms[j];
      forall a | a in Active(S, ms[..j])
        ensures a < |D| && a < |H| && D[a] + H[a] <= H[ms[|ms| - 1].node]
      {
        assert x.node in Active(S, ms[..j + 1]);
        if a != x.n && a != x.m { assert a in Active(S, ms[..j + 1]); }
      }
    }
  }

  /** A tree is cut off only if it is higher than the cut. */
  lemma {:induction false} CutIsHigh(S: set<nat>, base: nat, w: seq<nat>, ms: seq<Merge>, D: seq<nat>, L: nat,
                                     H: seq<nat>, j: nat)
    requires Finished(S, base, w, ms) && LengthsOf(ms, D, L) && Tall(S, w, ms, H) && j <= |ms|
    requires ms[|ms| - 1].node < |H| && Excess(ms, D, L, j) > 0
    ensures H[ms[|ms| - 1].node] > L
    decreases |ms| - j
  {
    hide MergesOk, Tall, Tied, Active;
    var x := ms[j];
    if D[x.node] >= L {
      MergeAt(S, base, w, ms, j);
      TallAt(S, w, ms, H, j);
      HeightAtRoot(S, base, w, ms, D, L, H, j + 1);
    } else {
      CutIsHigh(S, base, w, ms, D, L, H, j + 1);
    }
  }

  // ---------- the codes along the paths of the tree ----------

  /** The paths from the last merge's node to the roots before merge `j`. */
  function Paths(ms: seq<Merge>, size: nat, j: nat): (P: seq<Bits>)
    requires j <= |ms| && forall i :: 0 <= i < |ms| ==> ms[i].n < size && ms[i].m < size && ms[i].node < size
    ensures |P| == size
    decreases |ms| - j
  {
    if j == |ms| then seq(size, _ => []) else
    var P, x := Paths(ms, size, j + 1), ms[j];
    P[x.n := P[x.node] + [0]][x.m := P[x.node] + [1]]
  }

  predicate FreeOn(A: set<nat>, P: seq<Bits>) {
    forall a, b :: a in A && b in A && a != b && a < |P| && b < |P| ==> !IsPrefix(P[a], P[b])
  }

  /** Splitting a node into two keeps the codes free of prefixes. */
  lemma SplitFree(A: set<nat>, P: seq<Bits>, n: nat, m: nat, node: nat)
    requires n in A && m in A && n != m && node !in A && n < |P| && m < |P| && node < |P|
    requires FreeOn(A - {n, m} + {node}, P)
    ensures FreeOn(A, P[n := P[node] + [0]][m := P[node] + [1]])
  {
    var c, Q, B := P[node], P[n := P[node] + [0]][m := P[node] + [1]], A - {n, m} + {node};
    forall a, b | a in A && b in A && a != b && a < |P| && b < |P|
      ensures !IsPrefix(Q[a], Q[b])
    {
      if a !in {n, m} && b !in {n, m} {
        assert a in B && b in B;
      } else if a in {n, m} && b in {n, m} {
        assert Q[a][|c|] != Q[b][|c|];
      } else if a in {n, m} {
        assert b in B && node in B && node != b;
        LongerPrefix(c, Q[a], Q[b]);
      } else {
        assert a in B && node in B && node != a;
        PrefixOfLonger(c, Q[b], Q[a]);
      }
    }
  }

  lemma LongerPrefix(c: Bits, l: Bits, s: Bits)
    requires IsPrefix(c, l)
    ensures IsPrefix(l, s) ==> IsPrefix(c, s)
  {
    if IsPrefix(l, s) { assert s[..|c|] == s[..|l|][..|c|]; }
  }

  lemma PrefixOfLonger(c: Bits, l: Bits, s: Bits)
    requires |l| == |c| + 1 && l[..|c|] == c
    ensures IsPrefix(s, l) ==> IsPrefix(s, c) || IsPrefix(c, s)
  {
    if IsPrefix(s, l) && |s| <= |c| { assert c[..|s|] == l[..|s|]; }
  }

  lemma {:induction false} PathsFree(S: set<nat>, base: nat, w: seq<nat>, ms: seq<Merge>, j: nat)
    requires Finished(S, base, w, ms) && j <= |ms|
    requires forall i :: 0 <= i < |ms| ==> ms[i].n < |w| && ms[i].m < |w| && ms[i].node < |w|
    ensures FreeOn(Active(S, ms[..j]), Paths(ms, |w|, j))
    decreases |ms| - j
  {
    hide MergesOk, Active, FreeOn;
    if j == |ms| {
      assert ms[..j] == ms;
      OneFree(ms[j - 1].node, Paths(ms, |w|, j));
    } else {
      PathsFree(S, base, w, ms, j + 1);
      MergeAt(S, base, w, ms, j);
      var x := ms[j];
      SplitFree(Active(S, ms[..j]), Paths(ms, |w|, j + 1), x.n, x.m, x.node);
    }
  }

  lemma OneFree(a: nat, P: seq<Bits>)
    ensures FreeOn({a}, P)
  {}

  function Lengths(P: seq<Bits>): (k: seq<nat>)
    ensures |k| == |P| && forall i :: 0 <= i < |P| ==> k[i] == |P[i]|
  {
    seq(|P|, i requires 0 <= i < |P| => |P[i]|)
  }

  /** The weighted lengths of the paths before merge `j`. */
  function PathCosts(ms: seq<Merge>, w: seq<nat>, j: nat): (f: seq<int>)
    requires j <= |ms| && forall i :: 0 <= i < |ms| ==> ms[i].n < |w| && ms[i].m < |w| && ms[i].node < |w|
    ensures |f| == |w|
  {
    Weighted(w, Lengths(Paths(ms, |w|, j)))
  }

  lemma PathsStep(ms: seq<Merge>, w: seq<nat>, j: nat)
    requires j < |ms| && forall i :: 0 <= i < |ms| ==> ms[i].n < |w| && ms[i].m < |w| && ms[i].node < |w|
    requires var x := ms[j]; x.n < x.node && x.m < x.node && x.n != x.m && w[x.node] == w[x.n] + w[x.m]
    ensures var f, g, x := PathCosts(ms, w, j), PathCosts(ms, w, j + 1), ms[j];
            && f[x.n] + f[x.m] == g[x.node] + w[x.node]
            && forall a :: 0 <= a < |w| && a != x.n && a != x.m ==> f[a] == g[a]
  {
    var x, l := ms[j], |Paths(ms, |w|, j + 1)[ms[j].node]|;
    OneDeeper(w[x.n], w[x.m], l);
  }

  lemma {:induction false} PathCostsAre(S: set<nat>, base: nat, w: seq<nat>, ms: seq<Merge>, j: nat)
    requires Finished(S, base, w, ms) && j <= |ms|
    requires forall i :: 0 <= i < |ms| ==> ms[i].n < |w| && ms[i].m < |w| && ms[i].node < |w|
    ensures SumSet(Active(S, ms[..j]), PathCosts(ms, w, j)) == MadeWeight(ms, w, j)
    decreases |ms| - j
  {
    hide SumSet, Active, MergesOk, PathCosts;
    var f := PathCosts(ms, w, j);
    if j == |ms| {
      assert ms[..j] == ms;
      SumSetSingle(ms[j - 1].node, f);
      NoPath(ms, w, j, ms[j - 1].node);
    } else {
      PathCostsAre(S, base, w, ms, j + 1);
      MergeAt(S, base, w, ms, j);
      var x, A := ms[j], Active(S, ms[..j]);
      SumSetSplit(A, f, x.node, x.n, x.m);
      PathsStep(ms, w, j);
      SumSetFrame(A - {x.n, x.m} + {x.node}, f, PathCosts(ms, w, j + 1));
    }
  }

  lemma NoPath(ms: seq<Merge>, w: seq<nat>, j: nat, a: nat)
    requires j == |ms| && forall i :: 0 <= i < |ms| ==> ms[i].n < |w| && ms[i].m < |w| && ms[i].node < |w|
    requires a < |w|
    ensures PathCosts(ms, w, j)[a] == 0
  {}

  /** The paths cost exactly the weights of the nodes on them. */
  lemma PathsCost(S: set<nat>, base: nat, w: seq<nat>, ms: seq<Merge>, j: nat)
    requires Finished(S, base, w, ms) && j <= |ms|
    requires forall i :: 0 <= i < |ms| ==> ms[i].n < |w| && ms[i].m < |w| && ms[i].node < |w|
    ensures SumSet(Active(S, ms[..j]), Weighted(w, Lengths(Paths(ms, |w|, j)))) == MadeWeight(ms, w, j)
  {
    hide SumSet, Active, MergesOk;
    PathCostsAre(S, base, w, ms, j);
  }

  lemma OneDeeper(a: nat, b: nat, l: nat)
    ensures a * (l + 1) + b * (l + 1) == (a + b) * l + (a + b)
  {
    Distribute(a, b, l + 1);
    Distribute(l, 1, a + b);
  }

  // ---------- lengths below the height ----------

  /** Lengths that are all shorter than the tree is high cost more than some prefix code. */
  lemma ShortCostsMore(S: set<nat>, base: nat, w: seq<nat>, ms: seq<Merge>, H: seq<nat>, d: Desc, lens: seq<nat>,
                       L: nat) returns (codes: seq<Bits>)
    requires Finished(S, base, w, ms) && Greedy(S, w, ms) && Tall(S, w, ms, H) && LeafHeights(S, H)
    requires base + |ms| <= |w| && ms[|ms| - 1].node < |H| && H[ms[|ms| - 1].node] > L
    requires |lens| <= base && |lens| <= d.extraBase + |d.extraBits| && Coded(S, lens, L)
    requires (forall a :: a in S ==> a < |lens|) && forall x :: 0 <= x < |lens| ==> (x in S <==> w[x] > 0)
    ensures |codes| == |lens| && PrefixCode(codes, w) && CodeCost(d, w, codes) < Cost(d, w, lens)
  {
    hide *;
    MergesInside(S, base, w, ms);
    var P := Paths(ms, |w|, 0);
    assert ms[..0] == [];
    NoMerges(S);
    PathsFree(S, base, w, ms, 0);
    PathsCost(S, base, w, ms, 0);
    codes := P[..|lens|];
    LengthsCostMore(S, base, w, ms, H, lens, L);
    CostsCompare(S, d, w, Padded(lens, |w|), lens, P, codes);
    PathsArePrefix(S, w, P, codes);
  }

  lemma MergesInside(S: set<nat>, base: nat, w: seq<nat>, ms: seq<Merge>)
    requires Finished(S, base, w, ms)
    ensures forall i :: 0 <= i < |ms| ==> ms[i].n < |w| && ms[i].m < |w| && ms[i].node < |w|
  {
    hide MergesOk, Active;
    forall i | 0 <= i < |ms|
      ensures ms[i].n < |w| && ms[i].m < |w| && ms[i].node < |w|
    {
      MergeAt(S, base, w, ms, i);
    }
  }

  lemma PathsArePrefix(S: set<nat>, w: seq<nat>, P: seq<Bits>, codes: seq<Bits>)
    requires FreeOn(S, P) && |codes| <= |P| == |w| && codes == P[..|codes|]
    requires forall x :: 0 <= x < |codes| ==> (x in S <==> w[x] > 0)
    ensures PrefixCode(codes, w)
  {
    hide IsPrefix;
  }

  function Padded(lens: seq<nat>, n: nat): (k: seq<nat>)
    ensures |k| == n && forall i :: 0 <= i < n ==> k[i] == if i < |lens| then lens[i] else 0
  {
    seq(n, i requires 0 <= i < n => if i < |lens| then lens[i] else 0)
  }

  lemma LengthsCostMore(S: set<nat>, base: nat, w: seq<nat>, ms: seq<Merge>, H: seq<nat>, lens: seq<nat>, L: nat)
    requires Finished(S, base, w, ms) && Greedy(S, w, ms) && Tall(S, w, ms, H) && LeafHeights(S, H)
    requires base + |ms| <= |w| && ms[|ms| - 1].node < |H| && H[ms[|ms| - 1].node] > L
    requires |lens| <= base && Coded(S, lens, L) && forall a :: a in S ==> a < |lens|
    requires forall i :: 0 <= i < |ms| ==> ms[i].node < |w|
    ensures LengthsIn(S, Padded(lens, |w|), lens)
    ensures SumSet(S, Weighted(w, Padded(lens, |w|))) > MadeWeight(ms, w, 0)
  {
    hide Finished, Greedy, Tall, SumSet, MadeWeight, Kraft, Pow2;
    var k := Padded(lens, |w|);
    PaddedIn(S, lens, |w|, L);
    SumIsKraft(S, k, lens, Shares(k), |k|);
    assert lens[..|lens|] == lens && Shares(k)[..|k|] == Shares(k) == SharesIn(k, MAX_BITS);
    assert ms[..0] == [];
    NoMerges(S);
    if SumSet(S, Weighted(w, k)) <= MadeWeight(ms, w, 0) {
      DeepEnough(S, base, w, ms, H, k, MAX_BITS, 0, L + 1);
    }
  }

  lemma PaddedIn(S: set<nat>, lens: seq<nat>, n: nat, L: nat)
    requires |lens| <= n && Coded(S, lens, L) && forall a :: a in S ==> a < |lens|
    ensures LengthsIn(S, Padded(lens, n), lens)
  {
    hide Kraft;
  }

  lemma CostsCompare(S: set<nat>, d: Desc, w: seq<nat>, k: seq<nat>, lens: seq<nat>, P: seq<Bits>, codes: seq<Bits>)
    requires LengthsIn(S, k, lens) && |k| == |w| == |P| && |codes| == |lens| <= |w| && codes == P[..|lens|]
    requires |lens| <= d.extraBase + |d.extraBits| && forall x :: 0 <= x < |lens| ==> (x in S <==> w[x] > 0)
    requires SumSet(S, Weighted(w, Lengths(P))) < SumSet(S, Weighted(w, k))
    ensures CodeCost(d, w, codes) < Cost(d, w, lens)
  {
    hide SumSet, Cost, CodeCost, ExtraCost;
    var K := Lengths(P);
    assert codes[..|codes|] == codes && lens[..|lens|] == lens;
    assert Weighted(w, k)[..|w|] == Weighted(w, k) && Weighted(w, K)[..|w|] == Weighted(w, K);
    CostIsSum(S, d, w, k, lens, |w|);
    CodeCostIsSum(S, d, w, K, codes, MaxLen(codes), |w|);
  }

  // ---------- the tree's own codes ----------

  /** No path is longer than the height leaves room for. */
  lemma {:induction false} PathsLow(S: set<nat>, base: nat, w: seq<nat>, ms: seq<Merge>, H: seq<nat>, j: nat)
    requires Finished(S, base, w, ms) && Tall(S, w, ms, H) && j <= |ms| && ms[|ms| - 1].node < |H|
    requires forall i :: 0 <= i < |ms| ==> ms[i].n < |w| && ms[i].m < |w| && ms[i].node < |w|
    ensures var P := Paths(ms, |w|, j);
            forall a :: a in Active(S, ms[..j]) ==>
              a < |P| && a < |H| && |P[a]| + H[a] <= H[ms[|ms| - 1].node]
    decreases |ms| - j
  {
    hide MergesOk, Tall, Tied;
    if j == |ms| {
      assert ms[..j] == ms;
    } else {
      PathsLow(S, base, w, ms, H, j + 1);
      MergeAt(S, base, w, ms, j);
      TallAt(S, w, ms, H, j);
      var x, P := ms[j], Paths(ms, |w|, j);
      forall a | a in Active(S, ms[..j])
        ensures a < |P| && a < |H| && |P[a]| + H[a] <= H[ms[|ms| - 1].node]
      {
        assert x.node in Active(S, ms[..j + 1]);
        if a != x.n && a != x.m { assert a in Active(S, ms[..j + 1]); }
      }
    }
  }

  /**
   * The codes along the paths are a prefix code as cheap as any, and none is longer than the tree is
   * high; in every other prefix code as cheap some code is as long as that.
   */
  lemma LeastWorstCase(S: set<nat>, base: nat, w: seq<nat>, ms: seq<Merge>, H: seq<nat>, d: Desc, codes: seq<Bits>)
    returns (own: seq<Bits>)
    requires Finished(S, base, w, ms) && Greedy(S, w, ms) && Tall(S, w, ms, H) && LeafHeights(S, H)
    requires base + |ms| <= |w| && ms[|ms| - 1].node < |H|
    requires |codes| <= base && |codes| <= d.extraBase + |d.extraBits| && PrefixCode(codes, w)
    requires (forall a :: a in S ==> a < |codes|) && forall x :: 0 <= x < |codes| ==> (x in S <==> w[x] > 0)
    ensures |own| == |codes| && PrefixCode(own, w) && CodeCost(d, w, own) <= CodeCost(d, w, codes)
    ensures forall x :: x in S ==> |own[x]| <= H[ms[|ms| - 1].node]
    ensures CodeCost(d, w, own) == CodeCost(d, w, codes) ==> exists x :: x in S && |codes[x]| >= H[ms[|ms| - 1].node]
  {
    hide *;
    MergesInside(S, base, w, ms);
    var P := Paths(ms, |w|, 0);
    own := P[..|codes|];
    assert ms[..0] == [];
    NoMerges(S);
    PathsFree(S, base, w, ms, 0);
    PathsArePrefix(S, w, P, own);
    PathsLow(S, base, w, ms, H, 0);
    SomeMerge(S, base, w, ms);
    var k := Padded(Lengths(codes), |w|);
    CodeSums(S, base, w, ms, d, codes, k, P, own);
    var h := H[ms[|ms| - 1].node];
    if CodeCost(d, w, own) == CodeCost(d, w, codes) && forall x :: x in S ==> |codes[x]| < h {
      LowerThanRoot(S, codes, k, H, h);
      DeepEnough(S, base, w, ms, H, k, MaxLen(codes), 0, h);
    }
  }

  lemma SomeMerge(S: set<nat>, base: nat, w: seq<nat>, ms: seq<Merge>)
    requires Finished(S, base, w, ms)
    ensures ms != []
  {}

  lemma LowerThanRoot(S: set<nat>, codes: seq<Bits>, k: seq<nat>, H: seq<nat>, h: nat)
    requires LeafHeights(S, H) && |codes| <= |k| && k == Padded(Lengths(codes), |k|)
    requires forall x :: x in S ==> x < |codes| && |codes[x]| < h
    ensures Within(S, k, H, h)
  {}

  lemma CodeSums(S: set<nat>, base: nat, w: seq<nat>, ms: seq<Merge>, d: Desc, codes: seq<Bits>, k: seq<nat>,
                 P: seq<Bits>, own: seq<Bits>)
    requires Finished(S, base, w, ms) && Greedy(S, w, ms) && base + |ms| <= |w| == |P| == |k|
    requires |codes| <= base && |codes| <= d.extraBase + |d.extraBits| && PrefixCode(codes, w)
    requires (forall a :: a in S ==> a < |codes|) && forall x :: 0 <= x < |codes| ==> (x in S <==> w[x] > 0)
    requires k == Padded(Lengths(codes), |w|) && own == P[..|codes|]
    requires forall i :: 0 <= i < |ms| ==> ms[i].n < |w| && ms[i].m < |w| && ms[i].node < |w|
    requires P == Paths(ms, |w|, 0)
    ensures Fits(S, k, MaxLen(codes)) && CodeCost(d, w, own) <= CodeCost(d, w, codes)
    ensures CodeCost(d, w, own) == CodeCost(d, w, codes) ==> SumSet(S, Weighted(w, k)) <= MadeWeight(ms, w, 0)
  {
    hide Finished, Greedy, SumSet, MadeWeight, CodeCost, ExtraCost, Fits, PrefixCode, Paths;
    var M, K := MaxLen(codes), Lengths(P);
    assert ms[..0] == [];
    NoMerges(S);
    CodesFit(S, w, codes, k, M);
    LowerBound(S, base, w, ms, k, M, 0);
    PathsCost(S, base, w, ms, 0);
    assert codes[..|codes|] == codes && own[..|own|] == own;
    assert Weighted(w, k)[..|w|] == Weighted(w, k) && Weighted(w, K)[..|w|] == Weighted(w, K);
    CodeCostIsSum(S, d, w, k, codes, M, |w|);
    CodeCostIsSum(S, d, w, K, own, MaxLen(own), |w|);
  }
}
