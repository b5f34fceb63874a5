/** The code lengths that come from a Huffman tree, and when no other prefix code beats them. */
module HuffmanTrees {
  import opened Numbers
  import opened Bits
  import opened Canonical
  import opened CodeLengths
  import opened Merging
  import opened Reassigning
  import opened TreeShape
  import opened Forcing
  import opened Optimality
  import opened TreeHeight
  import opened Shallowest

  /**
   * A finished construction: its leaves, the weights of all nodes, the merges in the order in which
   * they were made, the depths cut off at the longest length allowed, the symbols forced in, and the
   * heights of all nodes.
   */
  datatype Tree =
    Tree(leaves: set<nat>, w: seq<nat>, ms: seq<Merge>, depths: seq<nat>, forced: seq<nat>, heights: seq<nat>)

  /** The depths of the leaves below `n`; zero for the other symbols. */
  function Depths(S: set<nat>, D: seq<nat>, n: nat): (r: seq<nat>)
    requires n <= |D|
    ensures |r| == n && forall x :: 0 <= x < n ==> r[x] == if x in S then D[x] else 0
  {
    seq(n, x requires 0 <= x < n => if x in S then D[x] else 0)
  }

  /**
   * The lengths are the depths when none was cut off. Otherwise as many leaves as merges below the
   * cut have been moved, and the new lengths are handed out with the longest for the lightest leaves.
   */
  predicate CutAt(S: set<nat>, ms: seq<Merge>, D: seq<nat>, L: nat, lens: seq<nat>) {
    && ms != [] && 1 <= L <= MAX_BITS && |lens| <= |D| && LengthsOf(ms, D, L)
    && (Excess(ms, D, L, 0) == 0 ==> lens == Depths(S, D, |lens|))
    && (Excess(ms, D, L, 0) > 0 ==>
          && Counts(lens) == Repaired(Counts(Depths(S, D, |lens|)), L, Excess(ms, D, L, 0))
          && Falling([ms[|ms| - 1].node] + Pairs(ms), lens, 0, 0))
  }

  /** `lens` are the lengths of the tree `t`, built greedily for the frequencies `f`. */
  ghost predicate HuffmanFor(d: Desc, f: seq<nat>, lens: seq<nat>, t: Tree) {
    && d.Ok() && d.elems <= |f| && d.elems <= |t.w| == |t.depths|
    && ForcedSet(d, f, Symbols(f, d.elems), t.leaves, t.forced)
    && t.w[..d.elems] == ForcedFreq(f, t.forced)[..d.elems] && d.elems + |t.ms| <= |t.w|
    && Finished(t.leaves, d.elems, t.w, t.ms) && Greedy(t.leaves, t.w, t.ms)
    && Risen(t.leaves, d.elems, t.w, t.ms, t.heights)
    && 0 < |lens| <= d.elems && |lens| - 1 in t.leaves && (forall a :: a in t.leaves ==> a < |lens|)
    && Coded(t.leaves, lens, d.maxLength) && CutAt(t.leaves, t.ms, t.depths, d.maxLength, lens)
  }

  /** `lens` are the lengths of some Huffman tree for the frequencies `f`. */
  ghost predicate HuffmanLengths(d: Desc, f: seq<nat>, lens: seq<nat>) {
    exists t :: HuffmanFor(d, f, lens, t)
  }

  /** How far the deepest merge lies below the cut. */
  function CutOff(d: Desc, t: Tree): nat
    requires t.ms != [] && LengthsOf(t.ms, t.depths, d.maxLength)
  {
    Excess(t.ms, t.depths, d.maxLength, 0)
  }

  // ---------- when nothing is cut off ----------

  /** An uncut tree gives the cheapest of all prefix codes. */
  lemma UncutIsOptimal(d: Desc, f: seq<nat>, lens: seq<nat>, t: Tree)
    requires HuffmanFor(d, f, lens, t) && CutOff(d, t) == 0 && |Symbols(f, d.elems)| >= 2
    ensures |lens| <= d.extraBase + |d.extraBits| && Optimal(d, f, lens)
  {
    hide Finished, Greedy, Risen, LengthsOf, Excess, Optimal, ForcedFreq, ForcedSet, Coded, Cost, StaticCost, Symbols;
    var S0 := Symbols(f, d.elems);
    ForcedPlain(d, f, S0, t.leaves, t.forced);
    NothingForced(f, d);
    DepthsAre(t.leaves, t.depths, lens, d.elems, t.w, t.ms, d.maxLength);
    WeightsKept(d, f, lens, t);
    ForcedResult(d, f, t.forced, S0, t.leaves, t.w, lens);
    TreeOptimal(t.leaves, t.w, t.ms, t.depths, d, lens, f);
  }

  /** The depths of the leaves are positive and not beyond the cut. */
  lemma DepthsAre(S: set<nat>, D: seq<nat>, lens: seq<nat>, base: nat, w: seq<nat>, ms: seq<Merge>, L: nat)
    requires Finished(S, base, w, ms) && LengthsOf(ms, D, L) && 1 <= L <= MAX_BITS && |lens| <= |D|
    requires forall a :: a in S ==> a < |lens|
    ensures LengthsIn(S, D, Depths(S, D, |lens|))
  {
    hide MergesOk, Active, LengthsOf;
    LengthsShort(S, base, w, ms, D, L);
    LeavesDeep(S, base, w, ms, D, L);
  }

  lemma {:induction false} NodesDeep(S: set<nat>, base: nat, w: seq<nat>, ms: seq<Merge>, D: seq<nat>, L: nat, j: nat)
    requires Finished(S, base, w, ms) && LengthsOf(ms, D, L) && L > 0 && j <= |ms|
    ensures forall a :: a in Active(S, ms[..j]) ==> a == ms[|ms| - 1].node || (a < |D| && D[a] > 0)
    decreases |ms| - j
  {
    hide MergesOk;
    if j == |ms| {
      assert ms[..j] == ms;
    } else {
      NodesDeep(S, base, w, ms, D, L, j + 1);
      MergeAt(S, base, w, ms, j);
      var x := ms[j];
      forall a | a in Active(S, ms[..j])
        ensures a == ms[|ms| - 1].node || (a < |D| && D[a] > 0)
      {
        if a != x.n && a != x.m { assert a in Active(S, ms[..j + 1]); }
      }
    }
  }

  lemma LeavesDeep(S: set<nat>, base: nat, w: seq<nat>, ms: seq<Merge>, D: seq<nat>, L: nat)
    requires Finished(S, base, w, ms) && LengthsOf(ms, D, L) && L > 0
    ensures forall a :: a in S ==> a < |D| && D[a] > 0
  {
    hide MergesOk, Active, LengthsOf;
    NodesDeep(S, base, w, ms, D, L, 0);
    assert ms[..0] == [];
    NoMerges(S);
    MergeAt(S, base, w, ms, |ms| - 1);
  }

  /** A leaf at the cut always stays there. */
  lemma {:induction false} RepairedTop(c: seq<nat>, L: nat, e: nat)
    requires |c| == MAX_BITS + 1 && 1 <= L <= MAX_BITS
    ensures |Repaired(c, L, e)| == |c| && Repaired(c, L, e)[L] + e >= c[L]
    decreases e
  {
    hide MoveLeaf;
    if e > 0 {
      var b := UsedUpTo(c, L - 1);
      if b > 0 && c[L] > 0 {
        MoveLeafTop(c, b, L);
        RepairedTop(MoveLeaf(c, b, L), L, e - 1);
      }
    }
  }

  /** When lengths have been cut off, some length is the longest one allowed. */
  lemma CutShows(d: Desc, f: seq<nat>, lens: seq<nat>, t: Tree)
    requires HuffmanFor(d, f, lens, t) && CutOff(d, t) > 0
    ensures exists x :: 0 <= x < |lens| && lens[x] == d.maxLength
  {
    hide Finished, Greedy, Risen, LengthsOf, Excess, ForcedFreq, ForcedSet, Coded, Repaired, Count, Pow2;
    hide Oversubscribed;
    hide Falling;
    var L, lv := d.maxLength, Depths(t.leaves, t.depths, |lens|);
    DepthsAre(t.leaves, t.depths, lens, d.elems, t.w, t.ms, L);
    PassCounts(t.leaves, d.elems, t.w, t.ms, t.depths, lv, Counts(lv), L);
    RepairedTop(Counts(lv), L, CutOff(d, t));
    assert Counts(lens)[L] > 0;
    CountFound(lens, L);
  }

  lemma {:induction false} CountFound(lens: seq<nat>, b: nat)
    requires Count(lens, b) > 0
    ensures exists x :: 0 <= x < |lens| && lens[x] == b
  {
    if lens[|lens| - 1] != b { CountFound(lens[..|lens| - 1], b); }
  }

  /** Lengths below the longest one allowed are optimal. */
  lemma ShortIsOptimal(d: Desc, f: seq<nat>, lens: seq<nat>, t: Tree)
    requires HuffmanFor(d, f, lens, t) && |Symbols(f, d.elems)| >= 2
    requires forall x :: 0 <= x < |lens| ==> lens[x] < d.maxLength
    ensures |lens| <= d.extraBase + |d.extraBits| && Optimal(d, f, lens)
  {
    hide Finished, Greedy, Risen, LengthsOf, Excess, ForcedFreq, ForcedSet, Coded, Optimal;
    if CutOff(d, t) > 0 { CutShows(d, f, lens, t); }
    UncutIsOptimal(d, f, lens, t);
  }

  /** The weights of the leaves are the frequencies. */
  lemma WeightsKept(d: Desc, f: seq<nat>, lens: seq<nat>, t: Tree)
    requires HuffmanFor(d, f, lens, t) && |Symbols(f, d.elems)| >= 2
    ensures t.leaves == Symbols(f, d.elems) && forall i :: 0 <= i < d.elems ==> f[i] == t.w[i]
  {
    hide Finished, Greedy, Risen, Coded, CutAt, Symbols;
    NothingForced(f, d);
    ForcedPlain(d, f, Symbols(f, d.elems), t.leaves, t.forced);
    forall i | 0 <= i < d.elems
      ensures f[i] == t.w[i]
    {
      assert t.w[..d.elems][i] == f[..d.elems][i];
    }
    assert forall x :: x in t.leaves <==> x in Symbols(f, d.elems);
  }

  lemma {:induction false} SumSetBelow(S: set<nat>, f: seq<nat>, g: seq<nat>, n: nat)
    requires n <= |f| && n <= |g| && (forall a :: a in S ==> a < n) && forall i :: 0 <= i < n ==> f[i] == g[i]
    ensures SumSet(S, f) == SumSet(S, g)
    decreases |f| + |g|
  {
    if |f| > n {
      SumSetBelow(S, f[..|f| - 1], g, n);
    } else if |g| > n {
      SumSetBelow(S, f, g[..|g| - 1], n);
    } else {
      assert f == g;
    }
  }

  /** Frequencies whose sum is below a Fibonacci number are coded optimally. */
  lemma FewIsOptimal(d: Desc, f: seq<nat>, lens: seq<nat>, t: Tree)
    requires HuffmanFor(d, f, lens, t) && |Symbols(f, d.elems)| >= 2
    requires SumSet(Symbols(f, d.elems), f) < Fib(d.maxLength + 3)
    ensures |lens| <= d.extraBase + |d.extraBits| && Optimal(d, f, lens)
  {
    hide Finished, Greedy, Risen, LengthsOf, Excess, ForcedFreq, ForcedSet, Coded, Optimal, SumSet, Fib;
    WeightsKept(d, f, lens, t);
    var S := Symbols(f, d.elems);
    SumSetBelow(S, f, t.w, d.elems);
    LightIsShallow(S, d.elems, t.w, t.ms, t.depths, d.maxLength);
    UncutIsOptimal(d, f, lens, t);
  }

  lemma HuffmanIs(d: Desc, f: seq<nat>, lens: seq<nat>, t: Tree)
    requires HuffmanFor(d, f, lens, t)
    ensures t.ms != [] && LengthsOf(t.ms, t.depths, d.maxLength)
  {
    hide Finished, Greedy, Risen, ForcedSet, ForcedFreq, Coded, LengthsOf, Excess;
  }

  /** What a caller can check to know that the lengths are optimal. */
  lemma OptimalWhen(d: Desc, f: seq<nat>, lens: seq<nat>, t: Tree)
    requires HuffmanFor(d, f, lens, t)
    ensures |lens| <= |f| && |lens| <= d.extraBase + |d.extraBits|
    ensures |Symbols(f, d.elems)| >= 2 && (forall x :: 0 <= x < |lens| ==> lens[x] < d.maxLength) ==>
              Optimal(d, f, lens)
    ensures |Symbols(f, d.elems)| >= 2 && SumSet(Symbols(f, d.elems), f) < Fib(d.maxLength + 3) ==>
              Optimal(d, f, lens)
  {
    hide Optimal, SumSet, Fib, Finished, Greedy, Coded, CutAt, ForcedSet, ForcedFreq;
    var many := |Symbols(f, d.elems)| >= 2;
    if many && forall x :: 0 <= x < |lens| ==> lens[x] < d.maxLength {
      ShortIsOptimal(d, f, lens, t);
    }
    if many && SumSet(Symbols(f, d.elems), f) < Fib(d.maxLength + 3) {
      FewIsOptimal(d, f, lens, t);
    }
  }

  // ---------- what a construction leaves behind ----------

  lemma DepthsStand(S: set<nat>, D: seq<nat>, n: nat)
    requires n <= |D| && LengthsIn(S, D, D[..n])
    ensures D[..n] == Depths(S, D, n)
  {}

  lemma NothingCut(S: set<nat>, ms: seq<Merge>, D: seq<nat>, L: nat, n: nat)
    requires ms != [] && 1 <= L <= MAX_BITS && n <= |D| && LengthsOf(ms, D, L) && Excess(ms, D, L, 0) == 0
    requires D[..n] == Depths(S, D, n)
    ensures CutAt(S, ms, D, L, D[..n])
  {}

  lemma CutRepaired(S: set<nat>, ms: seq<Merge>, D: seq<nat>, L: nat, lens: seq<nat>, o: seq<nat>)
    requires ms != [] && 1 <= L <= MAX_BITS && |lens| <= |D| && LengthsOf(ms, D, L) && Excess(ms, D, L, 0) > 0
    requires Counts(lens) == Repaired(Counts(Depths(S, D, |lens|)), L, Excess(ms, D, L, 0))
    requires o == [ms[|ms| - 1].node] + Pairs(ms) && Falling(o, lens, 0, 0)
    ensures CutAt(S, ms, D, L, lens)
  {
    hide Excess, Falling, Repaired, LengthsOf, Pairs, Depths, Counts;
  }

  lemma IsHuffman(d: Desc, f: seq<nat>, lens: seq<nat>, t: Tree)
    requires d.Ok() && d.elems <= |f| && d.elems <= |t.w| == |t.depths|
    requires ForcedSet(d, f, Symbols(f, d.elems), t.leaves, t.forced)
    requires t.w[..d.elems] == ForcedFreq(f, t.forced)[..d.elems] && d.elems + |t.ms| <= |t.w|
    requires Finished(t.leaves, d.elems, t.w, t.ms) && Greedy(t.leaves, t.w, t.ms)
    requires Risen(t.leaves, d.elems, t.w, t.ms, t.heights)
    requires 0 < |lens| <= d.elems && |lens| - 1 in t.leaves && forall a :: a in t.leaves ==> a < |lens|
    requires Coded(t.leaves, lens, d.maxLength) && CutAt(t.leaves, t.ms, t.depths, d.maxLength, lens)
    ensures HuffmanFor(d, f, lens, t)
  {
    hide Finished, Greedy, Risen, Coded, CutAt, Symbols, ForcedFreq;
  }

  /** Only the frequencies of the tree's own symbols matter. */
  lemma HuffmanFrame(d: Desc, w: seq<nat>, f: seq<nat>, lens: seq<nat>, t: Tree)
    requires HuffmanFor(d, w, lens, t) && |f| == d.elems && w[..d.elems] == f
    ensures HuffmanLengths(d, f, lens)
  {
    hide Finished, Greedy, Risen, Coded, CutAt, ForcedFreq;
    var n := d.elems;
    forall i | 0 <= i < n
      ensures w[i] == f[i]
    {
      assert w[..n][i] == f[i];
    }
    forall i | 0 <= i < n
      ensures ForcedFreq(w, t.forced)[i] == ForcedFreq(f, t.forced)[i]
    {
      ForcedAt(w, t.forced, i);
      ForcedAt(f, t.forced, i);
    }
    assert Symbols(w, n) == Symbols(f, n);
    assert ForcedFreq(w, t.forced)[..n] == ForcedFreq(f, t.forced)[..n];
    IsHuffman(d, f, lens, t);
  }

  // ---------- exactly when the lengths are optimal ----------

  /** A tree that is cut off costs more than some prefix code. */
  lemma CutIsWorse(d: Desc, f: seq<nat>, lens: seq<nat>, t: Tree)
    requires HuffmanFor(d, f, lens, t) && CutOff(d, t) > 0 && |Symbols(f, d.elems)| >= 2
    ensures |lens| <= |f| && |lens| <= d.extraBase + |d.extraBits| && !Optimal(d, f, lens)
  {
    hide Finished, Greedy, Tall, LengthsOf, Excess, ForcedSet, ForcedFreq, Coded, Cost, CodeCost, LeafHeights;
    WeightsKept(d, f, lens, t);
    RootHeight(d, f, lens, t);
    var codes := ShortCostsMore(t.leaves, d.elems, t.w, t.ms, t.heights, d, lens, d.maxLength);
    CostPrefix(d, f, t.w, lens);
    CodeCostPrefix(d, f, t.w, codes);
  }

  lemma RootHeight(d: Desc, f: seq<nat>, lens: seq<nat>, t: Tree)
    requires HuffmanFor(d, f, lens, t) && CutOff(d, t) > 0
    ensures var r := t.ms[|t.ms| - 1].node;
            r < |t.heights| && t.heights[r] > d.maxLength
  {
    hide Finished, Greedy, Tall, Tied, LengthsOf, Excess, ForcedSet, ForcedFreq, Coded, Symbols;
    TallAt(t.leaves, t.w, t.ms, t.heights, |t.ms| - 1);
    CutIsHigh(t.leaves, d.elems, t.w, t.ms, t.depths, d.maxLength, t.heights, 0);
  }

  /** Codes without bits cost less as soon as some symbol occurs. */
  lemma {:induction false} NoBitsCost(d: Desc, w: seq<nat>, lens: seq<nat>, codes: seq<Bits>)
    requires |codes| == |lens| <= |w| && |lens| <= d.extraBase + |d.extraBits|
    requires forall x :: 0 <= x < |lens| ==> codes[x] == [] && (w[x] > 0 ==> lens[x] > 0)
    ensures CodeCost(d, w, codes) <= Cost(d, w, lens)
    ensures (exists x :: 0 <= x < |lens| && w[x] > 0) ==> CodeCost(d, w, codes) < Cost(d, w, lens)
    ensures (forall x :: 0 <= x < |lens| ==> w[x] == 0) ==> Cost(d, w, lens) == 0
  {
    if lens != [] {
      var n := |lens| - 1;
      NoBitsCost(d, w, lens[..n], codes[..n]);
      MoreBits(w[n], lens[n], d.Extra(n));
    }
  }

  lemma MoreBits(f: nat, l: nat, x: nat)
    requires f > 0 ==> l > 0
    ensures Term(f, l, x) >= f * x && (f > 0 ==> Term(f, l, x) > f * x) && (f == 0 ==> Term(f, l, x) == 0)
  {
    if f > 0 { MulMono(x + 1, l + x, f); }
  }

  /** With fewer than two symbols, one bit is spent on a symbol that needs none. */
  lemma LoneSymbol(d: Desc, f: seq<nat>, lens: seq<nat>, t: Tree)
    requires HuffmanFor(d, f, lens, t) && |Symbols(f, d.elems)| < 2
    ensures |lens| <= |f| && |lens| <= d.extraBase + |d.extraBits|
    ensures Optimal(d, f, lens) <==> Symbols(f, d.elems) == {}
  {
    hide Finished, Greedy, Risen, CutAt, ForcedFreq, Cost, CodeCost, Kraft, IsPrefix;
    var S0 := Symbols(f, d.elems);
    var codes: seq<Bits> := seq(|lens|, _ => []);
    NoBitsCost(d, f, lens, codes);
    if S0 != {} {
      var a :| a in S0;
      assert S0 == {a} by { OneOnly(S0, a); }
      assert PrefixCode(codes, f);
    } else {
      assert forall x :: 0 <= x < |lens| ==> f[x] == 0;
    }
  }

  lemma OneOnly(S: set<nat>, a: nat)
    requires a in S && |S| < 2
    ensures S == {a}
  {
    var rest := S - {a};
    assert |rest| == 0;
  }

  /** The lengths are optimal if and only if nothing is cut off; a symbol that is alone gets a bit it does not need. */
  lemma OptimalExactly(d: Desc, f: seq<nat>, lens: seq<nat>, t: Tree)
    requires HuffmanFor(d, f, lens, t)
    ensures |lens| <= |f| && |lens| <= d.extraBase + |d.extraBits|
    ensures var S := Symbols(f, d.elems);
            Optimal(d, f, lens) <==> S == {} || (|S| >= 2 && CutOff(d, t) == 0)
  {
    hide Optimal, Finished, Greedy, Risen, Coded, ForcedSet, ForcedFreq, LengthsOf, Excess;
    var S := Symbols(f, d.elems);
    if |S| < 2 {
      LoneSymbol(d, f, lens, t);
    } else if CutOff(d, t) == 0 {
      UncutIsOptimal(d, f, lens, t);
    } else {
      CutIsWorse(d, f, lens, t);
    }
  }

  // ---------- the worst case length ----------

  /** How high the tree is before anything is cut off. */
  function Height(t: Tree): nat
    requires t.ms != [] && t.ms[|t.ms| - 1].node < |t.heights|
  {
    t.heights[t.ms[|t.ms| - 1].node]
  }

  /**
   * Depth as the tie breaker keeps the worst case length least: some cheapest prefix code has no
   * code longer than the tree is high, and every one that is as cheap has a code at least as long.
   */
  lemma WorstCaseLength(d: Desc, f: seq<nat>, lens: seq<nat>, t: Tree, codes: seq<Bits>) returns (own: seq<Bits>)
    requires HuffmanFor(d, f, lens, t) && |Symbols(f, d.elems)| >= 2
    requires |codes| == |lens| && PrefixCode(codes, f)
    ensures |lens| <= |f| && |lens| <= d.extraBase + |d.extraBits| && t.ms != []
    ensures t.ms[|t.ms| - 1].node < |t.heights|
    ensures |own| == |lens| && PrefixCode(own, f) && CodeCost(d, f, own) <= CodeCost(d, f, codes)
    ensures forall x :: 0 <= x < |own| && f[x] > 0 ==> |own[x]| <= Height(t)
    ensures CodeCost(d, f, own) == CodeCost(d, f, codes) ==>
              exists x :: 0 <= x < |codes| && f[x] > 0 && |codes[x]| >= Height(t)
  {
    hide Finished, Greedy, Tall, Tied, ForcedSet, ForcedFreq, Coded, CutAt, CodeCost, LeafHeights, IsPrefix;
    WeightsKept(d, f, lens, t);
    HuffmanIs(d, f, lens, t);
    TallAt(t.leaves, t.w, t.ms, t.heights, |t.ms| - 1);
    own := LeastWorstCase(t.leaves, d.elems, t.w, t.ms, t.heights, d, codes);
    CodeCostPrefix(d, f, t.w, codes);
    CodeCostPrefix(d, f, t.w, own);
  }
}
