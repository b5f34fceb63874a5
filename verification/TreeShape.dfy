/** The sorted node list a tree construction leaves behind, and the code lengths it leads to. */
module TreeShape {
  import opened Numbers
  import opened Canonical
  import opened CodeLengths
  import opened Merging
  import opened TreePass
  import opened Reassigning

  /** The children, latest merge first. */
  function Pairs(ms: seq<Merge>): (r: seq<nat>)
    ensures |r| == 2 * |ms|
  {
    if ms == [] then [] else
    var x := ms[|ms| - 1];
    [x.m, x.n] + Pairs(ms[..|ms| - 1])
  }

  /** Their fathers. */
  function Fathers(ms: seq<Merge>): (r: seq<nat>)
    ensures |r| == 2 * |ms|
  {
    if ms == [] then [] else
    var x := ms[|ms| - 1];
    [x.node, x.node] + Fathers(ms[..|ms| - 1])
  }

  predicate InSetOrBefore(F: seq<nat>, P: seq<nat>, A: set<nat>) {
    |F| == |P| && forall i :: 0 <= i < |F| ==> F[i] in A || F[i] in P[..i]
  }

  lemma {:induction false} PairsShape(S: set<nat>, base: nat, w: seq<nat>, ms: seq<Merge>)
    requires MergesOk(S, base, w, ms) && forall a :: a in S ==> a < base
    ensures Injective(Pairs(ms)) && InSetOrBefore(Fathers(ms), Pairs(ms), Active(S, ms))
    ensures forall x :: x in Pairs(ms) ==> x !in Active(S, ms) && x < base + |ms|
    ensures forall x :: x in Fathers(ms) ==> x < base + |ms|
  {
    if ms != [] {
      var x, front := ms[|ms| - 1], ms[..|ms| - 1];
      PairsShape(S, base, w, front);
      ActiveBelow(S, base, w, front);
      var P', F', A' := Pairs(front), Fathers(front), Active(S, front);
      Prepend(P', F', A', x);
    }
  }

  lemma Prepend(P: seq<nat>, F: seq<nat>, A: set<nat>, x: Merge)
    requires Injective(P) && InSetOrBefore(F, P, A) && (forall y :: y in P ==> y !in A)
    requires x.n in A && x.m in A && x.n != x.m && x.node !in P
    ensures Injective([x.m, x.n] + P)
    ensures InSetOrBefore([x.node, x.node] + F, [x.m, x.n] + P, A - {x.n, x.m} + {x.node})
  {
    var Q, G, B := [x.m, x.n] + P, [x.node, x.node] + F, A - {x.n, x.m} + {x.node};
    forall i | 0 <= i < |G|
      ensures G[i] in B || G[i] in Q[..i]
    {
      if i >= 2 {
        assert Q[..i] == [x.m, x.n] + P[..i - 2];
        assert G[i] == F[i - 2];
      }
    }
  }

  /** The list starts at the root and is sorted so that fathers come first. */
  lemma ShapeTopDown(S: set<nat>, base: nat, w: seq<nat>, ms: seq<Merge>)
    requires MergesOk(S, base, w, ms) && (forall a :: a in S ==> a < base) && ms != []
    requires Active(S, ms) == {ms[|ms| - 1].node}
    ensures var r := ms[|ms| - 1].node;
            TopDown([r] + Pairs(ms), [r] + Fathers(ms))
            && Bounded([r] + Pairs(ms), base + |ms|) && Bounded([r] + Fathers(ms), base + |ms|)
  {
    var r := ms[|ms| - 1].node;
    PairsShape(S, base, w, ms);
    MergeAt(S, base, w, ms, |ms| - 1);
    var P, F := Pairs(ms), Fathers(ms);
    var o, fa := [r] + P, [r] + F;
    forall i | 1 <= i < |o|
      ensures fa[i] in o[..i]
    {
      assert o[..i] == [r] + P[..i - 1];
      assert fa[i] == F[i - 1];
    }
    forall i, j | 0 <= i < j < |o|
      ensures o[i] != o[j]
    {
      if i == 0 { assert P[j - 1] in P; } else { assert o[i] == P[i - 1] && o[j] == P[j - 1]; }
    }
    forall i | 0 <= i < |o|
      ensures o[i] < base + |ms| && fa[i] < base + |ms|
    {
      if i > 0 { assert P[i - 1] in P && F[i - 1] in F; }
    }
  }

  /** The nodes below `base` are the leaves. */
  lemma {:induction false} PairsLeaves(S: set<nat>, base: nat, w: seq<nat>, ms: seq<Merge>)
    requires MergesOk(S, base, w, ms) && forall a :: a in S ==> a < base
    ensures forall x :: x in Pairs(ms) || x in Active(S, ms) ==> x in S || x >= base
    ensures forall x :: x in S ==> x in Pairs(ms) || x in Active(S, ms)
  {
    if ms != [] {
      PairsLeaves(S, base, w, ms[..|ms| - 1]);
    }
  }

  lemma {:induction false} PairsAt(ms: seq<Merge>, j: nat)
    requires j < |ms|
    ensures var i := 2 * (|ms| - 1 - j);
            && Pairs(ms)[i] == ms[j].m && Pairs(ms)[i + 1] == ms[j].n
            && Fathers(ms)[i] == Fathers(ms)[i + 1] == ms[j].node
  {
    if j < |ms| - 1 { PairsAt(ms[..|ms| - 1], j); }
  }

  lemma PairsLengths(ms: seq<Merge>, D: seq<nat>, L: nat)
    requires forall i :: 0 <= i < |Pairs(ms)| ==> Pairs(ms)[i] < |D| && Fathers(ms)[i] < |D|
    requires forall i :: 0 <= i < |Pairs(ms)| ==> D[Pairs(ms)[i]] == Deeper(D[Fathers(ms)[i]], L)
    ensures forall j :: 0 <= j < |ms| ==> ms[j].n < |D| && ms[j].m < |D| && ms[j].node < |D|
    ensures forall j :: 0 <= j < |ms| ==>
              D[ms[j].n] == Deeper(D[ms[j].node], L) && D[ms[j].m] == Deeper(D[ms[j].node], L)
  {
    hide Deeper, Pairs, Fathers;
    forall j | 0 <= j < |ms|
      ensures ms[j].n < |D| && ms[j].m < |D| && ms[j].node < |D|
      ensures D[ms[j].n] == Deeper(D[ms[j].node], L) && D[ms[j].m] == Deeper(D[ms[j].node], L)
    {
      PairsAt(ms, j);
    }
  }

  lemma {:induction false} OverPrepend(r: nat, a: nat, b: nat, F: seq<nat>, D: seq<nat>, L: nat, k: nat)
    requires k <= |F| && a < |D| && b < |D| && forall i :: 0 <= i < |F| ==> F[i] < |D|
    ensures Over([r] + ([a, b] + F), D, L, k + 3)
         == Over([r] + F, D, L, k + 1) + (if D[a] >= L then 1 else 0) + if D[b] >= L then 1 else 0
  {
    var G := [r] + ([a, b] + F);
    if k > 0 {
      OverPrepend(r, a, b, F, D, L, k - 1);
      assert G[k + 2] == F[k - 1] == ([r] + F)[k];
    } else {
      assert G[1] == a && G[2] == b;
      assert Over(G, D, L, 1) == 0;
      assert Over(G, D, L, 2) == if D[a] >= L then 1 else 0;
    }
  }

  lemma {:induction false} ExcessSnoc(ms: seq<Merge>, D: seq<nat>, L: nat, j: nat)
    requires j < |ms| && forall i :: 0 <= i < |ms| ==> ms[i].node < |D|
    ensures Excess(ms, D, L, j) == Excess(ms[..|ms| - 1], D, L, j) + if D[ms[|ms| - 1].node] >= L then 1 else 0
    decreases |ms| - j
  {
    if j < |ms| - 1 { ExcessSnoc(ms, D, L, j + 1); }
  }

  /** Nodes below the cut come in pairs. */
  lemma {:induction false} OverIsTwice(r: nat, ms: seq<Merge>, D: seq<nat>, L: nat)
    requires (forall i :: 0 <= i < |ms| ==> ms[i].node < |D|)
    requires forall i :: 0 <= i < |Fathers(ms)| ==> Fathers(ms)[i] < |D|
    ensures Over([r] + Fathers(ms), D, L, 2 * |ms| + 1) == 2 * Excess(ms, D, L, 0)
  {
    if ms != [] {
      var x, front := ms[|ms| - 1], ms[..|ms| - 1];
      forall i | 0 <= i < |Fathers(front)|
        ensures Fathers(front)[i] == Fathers(ms)[i + 2]
      {}
      OverIsTwice(r, front, D, L);
      assert Fathers(ms)[0] == x.node;
      OverPrepend(r, x.node, x.node, Fathers(front), D, L, 2 * |front|);
      ExcessSnoc(ms, D, L, 0);
    }
  }

  // ---------- from the tree to the length vector ----------

  /** `lv` holds the lengths `D` of the symbols in `S`, and zero for the others. */
  predicate LengthsIn(S: set<nat>, D: seq<nat>, lv: seq<nat>) {
    && |lv| <= |D| && (forall a :: a in S ==> a < |lv|)
    && (forall x :: 0 <= x < |lv| ==> lv[x] == if x in S then D[x] else 0)
    && (forall a :: a in S ==> 0 < D[a] <= MAX_BITS)
  }

  lemma {:induction false} SumIsKraft(S: set<nat>, D: seq<nat>, lv: seq<nat>, f: seq<int>, k: nat)
    requires LengthsIn(S, D, lv) && f == Shares(D) && k <= |D|
    ensures LensOk(lv) && SumSet(S, f[..k]) == Kraft(lv[..if k <= |lv| then k else |lv|])
  {
    hide Pow2;
    if k > 0 {
      SumIsKraft(S, D, lv, f, k - 1);
      assert f[..k][..k - 1] == f[..k - 1];
      if k <= |lv| { assert lv[..k][..k - 1] == lv[..k - 1]; }
    } else {
      assert lv[..0] == [];
    }
  }

  lemma {:induction false} SumIsCount(S: set<nat>, D: seq<nat>, lv: seq<nat>, f: seq<int>, L: nat, k: nat)
    requires LengthsIn(S, D, lv) && f == Deepest(D, L) && k <= |D| && L > 0
    ensures SumSet(S, f[..k]) == Count(lv[..if k <= |lv| then k else |lv|], L)
  {
    if k > 0 {
      SumIsCount(S, D, lv, f, L, k - 1);
      assert f[..k][..k - 1] == f[..k - 1];
      if k <= |lv| { assert lv[..k][..k - 1] == lv[..k - 1]; }
    } else {
      assert lv[..0] == [];
    }
  }

  lemma {:induction false} CountAbove(lv: seq<nat>, L: nat, b: nat)
    requires b > L && forall x :: 0 <= x < |lv| ==> lv[x] <= L
    ensures Count(lv, b) == 0
  {
    if lv != [] { CountAbove(lv[..|lv| - 1], L, b); }
  }

  lemma {:induction false} CountSome(lv: seq<nat>, x: nat)
    requires x < |lv|
    ensures Count(lv, lv[x]) > 0
  {
    if x < |lv| - 1 { CountSome(lv[..|lv| - 1], x); }
  }

  /** A finished tree: its merges, from the leaves `S`, leave one root. */
  predicate Finished(S: set<nat>, base: nat, w: seq<nat>, ms: seq<Merge>) {
    && MergesOk(S, base, w, ms) && (forall a :: a in S ==> a < base) && ms != []
    && Active(S, ms) == {ms[|ms| - 1].node}
  }

  /** The counts after the pass: over-subscribed by exactly half the overflow. */
  lemma PassCounts(S: set<nat>, base: nat, w: seq<nat>, ms: seq<Merge>, D: seq<nat>, lv: seq<nat>, c: seq<nat>,
                   L: nat)
    requires Finished(S, base, w, ms) && LengthsOf(ms, D, L) && LengthsIn(S, D, lv)
    requires 1 <= L <= MAX_BITS && |lv| <= Pow2(L)
    requires |c| == MAX_BITS + 1 && forall b :: 1 <= b <= MAX_BITS ==> c[b] == Count(lv, b)
    ensures Oversubscribed(c, L, Excess(ms, D, L, 0), Used(lv))
    ensures Excess(ms, D, L, 0) > 0 ==> c[L] >= Excess(ms, D, L, 0) + 2
    ensures LensOk(lv) && Kraft(lv) == WHOLE + Shl(Excess(ms, D, L, 0), MAX_BITS - L)
  {
    hide SumSet, Kraft, Count, Filled, Below, Total, Used, Shl, Pow2, Excess, LengthsOf, MergesOk, Active;
    assert ms[..0] == [];
    NoMerges(S);
    KraftFrontier(S, base, w, ms, D, L, 0);
    DeepestFrontier(S, base, w, ms, D, L, 0);
    NodesShort(S, base, w, ms, D, L, 0);
    LeafSums(S, D, lv, L);
    FilledIsBelow(c, lv, MAX_BITS + 1);
    BelowAll(lv);
    TotalIsShorter(c, lv, MAX_BITS + 1);
    ShorterAll(lv);
    UsedBound(lv);
    forall b | L < b <= MAX_BITS
      ensures c[b] == 0
    {
      CountAbove(lv, L, b);
    }
  }

  lemma NoMerges(S: set<nat>)
    ensures Active(S, []) == S
  {}

  lemma LeafSums(S: set<nat>, D: seq<nat>, lv: seq<nat>, L: nat)
    requires LengthsIn(S, D, lv) && L > 0
    ensures LensOk(lv) && SumSet(S, Shares(D)) == Kraft(lv) && SumSet(S, Deepest(D, L)) == Count(lv, L)
  {
    hide SumSet, Kraft, Count;
    var f, g := Shares(D), Deepest(D, L);
    SumIsKraft(S, D, lv, f, |D|);
    SumIsCount(S, D, lv, g, L, |D|);
    assert f[..|D|] == f && g[..|D|] == g && lv[..|lv|] == lv;
  }

  /** After the repair the code space is exactly full. */
  lemma RepairedKraft(c: seq<nat>, L: nat, n: nat, lens: seq<nat>)
    requires Oversubscribed(c, L, 0, n) && LensOk(lens)
    requires forall b :: 1 <= b <= MAX_BITS ==> c[b] == Count(lens, b)
    ensures Kraft(lens) == WHOLE && forall x :: 0 <= x < |lens| ==> lens[x] <= L
  {
    FilledIsBelow(c, lens, MAX_BITS + 1);
    BelowAll(lens);
    ShlOne(MAX_BITS - L);
    forall x | 0 <= x < |lens|
      ensures lens[x] <= L
    {
      CountSome(lens, x);
    }
  }

  /** A complete code for exactly the symbols in `S`, with lengths up to `L`. */
  predicate Coded(S: set<nat>, lens: seq<nat>, L: nat) {
    && LensOk(lens) && Kraft(lens) == WHOLE
    && forall x :: 0 <= x < |lens| ==> (lens[x] > 0 <==> x in S) && lens[x] <= L
  }

  /** What a construction has put in place before the lengths are computed. */
  predicate Built(S: set<nat>, base: nat, w: seq<nat>, ms: seq<Merge>, o: seq<nat>, D: seq<nat>, z: nat) {
    && Finished(S, base, w, ms)
    && base + |ms| <= |D| && z <= base && (forall a :: a in S ==> a < z)
    && o == [ms[|ms| - 1].node] + Pairs(ms)
    && (forall i :: 0 <= i < |Pairs(ms)| ==> Pairs(ms)[i] < |D| && D[Pairs(ms)[i]] == Fathers(ms)[i])
    && (forall x :: 0 <= x < base && x !in S ==> D[x] == 0)
  }

  lemma BuiltPass(S: set<nat>, base: nat, w: seq<nat>, ms: seq<Merge>, o: seq<nat>, D: seq<nat>, z: nat)
    requires Built(S, base, w, ms, o, D, z)
    ensures var fa := [ms[|ms| - 1].node] + Fathers(ms);
            && |o| == |fa| == 2 * |ms| + 1 && TopDown(o, fa) && Bounded(o, |D|) && Bounded(fa, |D|)
            && z <= o[0] && (forall i :: 1 <= i < |o| ==> D[o[i]] == fa[i])
            && (forall x :: 0 <= x < base ==> (x in o <==> x in S))
            && (forall x :: 0 <= x < base && x !in o ==> D[x] == 0)
  {
    hide Pairs, Fathers, MergesOk, Active, TopDown;
    ShapeTopDown(S, base, w, ms);
    PairsLeaves(S, base, w, ms);
    MergeAt(S, base, w, ms, |ms| - 1);
    var fa := [ms[|ms| - 1].node] + Fathers(ms);
    forall i | 1 <= i < |o|
      ensures D[o[i]] == fa[i]
    {
      assert o[i] == Pairs(ms)[i - 1] && fa[i] == Fathers(ms)[i - 1];
    }
  }

  lemma PassLengths(o: seq<nat>, fa: seq<nat>, D0: seq<nat>, D: seq<nat>, L: nat, r: nat, P: seq<nat>, F: seq<nat>)
    requires o == [r] + P && fa == [r] + F && |P| == |F| && PassState(o, fa, D0, D, L, |o|)
    ensures r < |D| && D[r] == 0
    ensures forall i :: 0 <= i < |P| ==> P[i] < |D| && F[i] < |D| && D[P[i]] == Deeper(D[F[i]], L)
    ensures L >= 1 ==> forall i :: 1 <= i < |o| ==> 0 < D[o[i]] <= L
    ensures forall x :: 0 <= x < |D| && x !in o ==> D[x] == D0[x]
  {
    hide TopDown;
    forall i | 0 <= i < |P|
      ensures P[i] < |D| && F[i] < |D| && D[P[i]] == Deeper(D[F[i]], L)
    {
      assert o[i + 1] == P[i] && fa[i + 1] == F[i];
    }
  }

  /** What the pass makes of the tree. */
  lemma PassResult(S: set<nat>, base: nat, w: seq<nat>, ms: seq<Merge>, o: seq<nat>, D0: seq<nat>, D: seq<nat>,
                   z: nat, L: nat)
    requires Built(S, base, w, ms, o, D0, z) && 1 <= L <= MAX_BITS && |D| == |D0|
    requires PassState(o, [ms[|ms| - 1].node] + Fathers(ms), D0, D, L, |o|)
    ensures LengthsOf(ms, D, L)
    ensures var fa := [ms[|ms| - 1].node] + Fathers(ms);
            && |o| <= |fa| && (forall i :: 1 <= i < |fa| ==> fa[i] < |D|)
            && Over(fa, D, L, |o|) == 2 * Excess(ms, D, L, 0)
  {
    hide Pairs, Fathers, MergesOk, Active, Over, Excess, PassState, Deeper;
    var r, P, F := ms[|ms| - 1].node, Pairs(ms), Fathers(ms);
    PassLengths(o, [r] + F, D0, D, L, r, P, F);
    PairsLengths(ms, D, L);
    OverIsTwice(r, ms, D, L);
  }

  lemma PassLeaves(S: set<nat>, base: nat, w: seq<nat>, ms: seq<Merge>, o: seq<nat>, D0: seq<nat>, D: seq<nat>,
                   z: nat, L: nat)
    requires Built(S, base, w, ms, o, D0, z) && 1 <= L <= MAX_BITS && |D| == |D0|
    requires PassState(o, [ms[|ms| - 1].node] + Fathers(ms), D0, D, L, |o|)
    ensures LengthsIn(S, D, D[..z])
    ensures Leaves(o, z, |o|) == Used(D[..z])
    ensures forall x :: 0 <= x < z ==> (D[x] > 0 <==> x in S) && (x in o <==> x in S)
    ensures forall x :: z <= x < base ==> D[x] == 0
  {
    hide Pairs, Fathers, MergesOk, Active, PassState, Leaves, Used, TopDown;
    var r, P, F := ms[|ms| - 1].node, Pairs(ms), Fathers(ms);
    BuiltPass(S, base, w, ms, o, D0, z);
    PassLengths(o, [r] + F, D0, D, L, r, P, F);
    forall a | a in S
      ensures 0 < D[a] <= MAX_BITS
    {
      var i :| 0 <= i < |o| && o[i] == a;
    }
    assert o[..|o|] == o;
    TopDownInjective(o, [r] + F);
    LeavesUsed(o, D, D[..z], |o|);
  }

  lemma TopDownInjective(o: seq<nat>, fa: seq<nat>)
    requires TopDown(o, fa)
    ensures Injective(o)
  {}

  /** The state after the pass: a complete code when nothing was cut off, a repairable one otherwise. */
  lemma AfterPass(S: set<nat>, base: nat, w: seq<nat>, ms: seq<Merge>, o: seq<nat>, D0: seq<nat>, D: seq<nat>,
                  z: nat, L: nat, c: seq<nat>)
    requires Built(S, base, w, ms, o, D0, z) && 1 <= L <= MAX_BITS && z <= Pow2(L) && |D| == |D0|
    requires PassState(o, [ms[|ms| - 1].node] + Fathers(ms), D0, D, L, |o|)
    requires |c| == MAX_BITS + 1 && forall b :: 1 <= b <= MAX_BITS ==> c[b] == Count(D[..z], b)
    ensures LengthsOf(ms, D, L)
    ensures forall i :: 0 <= i < |ms| ==> ms[i].node < |D|
    ensures Oversubscribed(c, L, Excess(ms, D, L, 0), Used(D[..z]))
    ensures Excess(ms, D, L, 0) > 0 ==> c[L] >= Excess(ms, D, L, 0) + 2
    ensures Excess(ms, D, L, 0) == 0 ==> Coded(S, D[..z], L)
  {
    hide Pairs, Fathers, Over, Excess, Used, Count, Kraft, Pow2, Shl, Oversubscribed, PassState, MergesOk, Active;
    PassResult(S, base, w, ms, o, D0, D, z, L);
    PassLeaves(S, base, w, ms, o, D0, D, z, L);
    PassCounts(S, base, w, ms, D, D[..z], c, L);
    LengthsShort(S, base, w, ms, D, L);
    CodedNow(S, D, D[..z], L, Excess(ms, D, L, 0));
  }

  lemma CodedNow(S: set<nat>, D: seq<nat>, lv: seq<nat>, L: nat, e: nat)
    requires LengthsIn(S, D, lv) && L <= MAX_BITS && (forall a :: a in S ==> D[a] <= L)
    requires LensOk(lv) && Kraft(lv) == WHOLE + Shl(e, MAX_BITS - L)
    ensures e == 0 ==> Coded(S, lv, L)
  {
    hide Kraft, Pow2;
    ShlOne(MAX_BITS - L);
  }

  lemma LengthsShort(S: set<nat>, base: nat, w: seq<nat>, ms: seq<Merge>, D: seq<nat>, L: nat)
    requires Finished(S, base, w, ms) && LengthsOf(ms, D, L)
    ensures forall a :: a in S ==> a < |D| && D[a] <= L
  {
    NodesShort(S, base, w, ms, D, L, 0);
    assert ms[..0] == [];
  }

  lemma BuiltFinished(S: set<nat>, base: nat, w: seq<nat>, ms: seq<Merge>, o: seq<nat>, D: seq<nat>, z: nat)
    requires Built(S, base, w, ms, o, D, z)
    ensures Finished(S, base, w, ms) && base + |ms| <= |D|
  {}

  lemma BuiltRoot(S: set<nat>, base: nat, w: seq<nat>, ms: seq<Merge>, o: seq<nat>, D: seq<nat>, z: nat)
    requires Built(S, base, w, ms, o, D, z)
    ensures ms != [] && o == [ms[|ms| - 1].node] + Pairs(ms)
  {}

  lemma RepairedTotal(c: seq<nat>, L: nat, n: nat)
    requires Oversubscribed(c, L, 0, n)
    ensures |c| == MAX_BITS + 1 && Total(c, MAX_BITS + 1) == n && forall b :: L < b <= MAX_BITS ==> c[b] == 0
  {}

  lemma CodedAgain(S: set<nat>, lv: seq<nat>, lens: seq<nat>, L: nat)
    requires |lv| == |lens| && LensOk(lens) && Kraft(lens) == WHOLE
    requires forall x :: 0 <= x < |lens| ==> (lens[x] > 0 <==> lv[x] > 0) && (lv[x] > 0 <==> x in S) && lens[x] <= L
    ensures Coded(S, lens, L)
  {}

  /** What a tree construction promises: a complete code with a code for every symbol that occurs. */
  predicate GoodTree(d: Desc, w: seq<nat>, lens: seq<nat>) {
    && 0 < |lens| <= d.elems <= |w|
    && LensOk(lens) && Kraft(lens) == WHOLE
    && (forall x :: 0 <= x < |lens| ==> lens[x] <= d.maxLength)
    && (forall x :: 0 <= x < d.elems && w[x] > 0 ==> x < |lens| && lens[x] > 0)
  }
}
