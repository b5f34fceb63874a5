/** One pass over the tree from the root down, giving every node its length. */
module TreePass {
  import opened Merging

  predicate Injective(s: seq<nat>) {
    forall i, j :: 0 <= i < j < |s| ==> s[i] != s[j]
  }

  /** Every node but the first comes after its father; no node comes twice. */
  predicate TopDown(o: seq<nat>, fa: seq<nat>) {
    && 1 <= |o| == |fa|
    && Injective(o)
    && (forall i :: 1 <= i < |o| ==> fa[i] in o[..i])
  }

  /** How many of the nodes before the `k`-th hang below the cut-off. */
  function Over(fa: seq<nat>, D: seq<nat>, L: nat, k: nat): nat
    requires k <= |fa| && forall i :: 1 <= i < |fa| ==> fa[i] < |D|
  {
    if k <= 1 then 0 else Over(fa, D, L, k - 1) + if D[fa[k - 1]] >= L then 1 else 0
  }

  lemma {:induction false} OverFrame(fa: seq<nat>, D: seq<nat>, D': seq<nat>, L: nat, k: nat)
    requires k <= |fa| && |D| == |D'| && forall i :: 1 <= i < |fa| ==> fa[i] < |D|
    requires forall i :: 1 <= i < k ==> D[fa[i]] == D'[fa[i]]
    ensures Over(fa, D, L, k) == Over(fa, D', L, k)
  {
    if k > 1 { OverFrame(fa, D, D', L, k - 1); }
  }

  lemma OverNext(fa: seq<nat>, D: seq<nat>, L: nat, k: nat)
    requires 1 <= k < |fa| && forall i :: 1 <= i < |fa| ==> fa[i] < |D|
    ensures Over(fa, D, L, k + 1) == Over(fa, D, L, k) + if D[fa[k]] >= L then 1 else 0
  {}

  predicate Bounded(o: seq<nat>, n: nat) {
    forall i :: 0 <= i < |o| ==> o[i] < n
  }

  /** The first `k` nodes have their lengths, the others still name their fathers. */
  predicate PassState(o: seq<nat>, fa: seq<nat>, D0: seq<nat>, D: seq<nat>, L: nat, k: nat) {
    && TopDown(o, fa) && |D| == |D0| && Bounded(o, |D|) && Bounded(fa, |D|) && 1 <= k <= |o|
    && (forall i :: k <= i < |o| ==> D[o[i]] == fa[i])
    && D[o[0]] == 0
    && (forall i :: 1 <= i < k ==> D[o[i]] == Deeper(D[fa[i]], L))
    && (forall x :: 0 <= x < |D| && x !in o ==> D[x] == D0[x])
  }

  lemma PassStart(o: seq<nat>, fa: seq<nat>, D0: seq<nat>, L: nat)
    requires TopDown(o, fa) && Bounded(o, |D0|) && Bounded(fa, |D0|)
    requires forall i :: 1 <= i < |o| ==> D0[o[i]] == fa[i]
    ensures PassState(o, fa, D0, D0[o[0] := 0], L, 1)
  {}

  lemma PassStep(o: seq<nat>, fa: seq<nat>, D0: seq<nat>, D: seq<nat>, L: nat, k: nat)
    requires PassState(o, fa, D0, D, L, k) && k < |o|
    ensures D[o[k]] == fa[k]
    ensures var D' := D[o[k] := Deeper(D[fa[k]], L)];
            && PassState(o, fa, D0, D', L, k + 1)
            && (forall i :: 1 <= i <= k ==> D'[fa[i]] == D[fa[i]])
  {
    FathersElsewhere(o, fa, k);
    hide TopDown;
  }

  lemma FathersElsewhere(o: seq<nat>, fa: seq<nat>, k: nat)
    requires TopDown(o, fa) && 1 <= k < |o|
    ensures |o| == |fa|
    ensures forall i :: 0 <= i < |o| && i != k ==> o[i] != o[k]
    ensures forall i :: 1 <= i <= k ==> fa[i] != o[k]
  {
    forall i | 1 <= i <= k
      ensures fa[i] != o[k]
    {
      assert fa[i] in o[..i];
    }
  }

  lemma OverStep(o: seq<nat>, fa: seq<nat>, D: seq<nat>, D': seq<nat>, L: nat, k: nat)
    requires 1 <= k < |fa| && |D'| == |D| && forall i :: 1 <= i < |fa| ==> fa[i] < |D|
    requires forall i :: 1 <= i <= k ==> D'[fa[i]] == D[fa[i]]
    ensures Over(fa, D', L, k + 1) == Over(fa, D, L, k) + if D[fa[k]] >= L then 1 else 0
  {
    OverFrame(fa, D, D', L, k);
    OverNext(fa, D', L, k);
  }

  /** `lv` holds the lengths of the leaves among the first `k` nodes. */
  predicate LeafState(o: seq<nat>, D: seq<nat>, lv: seq<nat>, k: nat) {
    && k <= |o| && |lv| <= |D|
    && (forall x :: 0 <= x < |lv| ==> lv[x] == if x in o[..k] then D[x] else 0)
  }

  lemma LeafStep(o: seq<nat>, fa: seq<nat>, D: seq<nat>, lv: seq<nat>, k: nat, v: nat)
    requires LeafState(o, D, lv, k) && k < |o| && o[k] < |D|
    requires TopDown(o, fa)
    ensures o[k] < |lv| ==> lv[o[k]] == 0 && LeafState(o, D[o[k] := v], lv[o[k] := v], k + 1)
    ensures o[k] >= |lv| ==> LeafState(o, D[o[k] := v], lv, k + 1)
  {
    assert o[..k + 1] == o[..k] + [o[k]];
    assert o[k] !in o[..k];
  }

  lemma LeafStart(o: seq<nat>, D: seq<nat>, lv: seq<nat>)
    requires o != [] && |lv| <= |D| && o[0] >= |lv| && forall x :: 0 <= x < |lv| ==> lv[x] == 0
    ensures LeafState(o, D, lv, 1)
  {}

  /** After the pass the leaves' lengths are the tree's. */
  lemma LeafEnd(o: seq<nat>, fa: seq<nat>, D0: seq<nat>, D: seq<nat>, L: nat, lv: seq<nat>)
    requires LeafState(o, D, lv, |o|) && PassState(o, fa, D0, D, L, |o|)
    requires forall x :: 0 <= x < |lv| && x !in o ==> D0[x] == 0
    ensures D[..|lv|] == lv
  {
    assert o[..|o|] == o;
  }

  /** The whole state of the pass before it comes to the `k`-th node. */
  predicate Walk(o: seq<nat>, fa: seq<nat>, D0: seq<nat>, D: seq<nat>, L: nat, k: nat, lv: seq<nat>, overflow: nat) {
    PassState(o, fa, D0, D, L, k) && LeafState(o, D, lv, k) && overflow == Over(fa, D, L, k)
  }

  lemma WalkStart(o: seq<nat>, fa: seq<nat>, D0: seq<nat>, L: nat, lv: seq<nat>)
    requires TopDown(o, fa) && Bounded(o, |D0|) && Bounded(fa, |D0|)
    requires forall i :: 1 <= i < |o| ==> D0[o[i]] == fa[i]
    requires |lv| <= o[0] && forall x :: 0 <= x < |lv| ==> lv[x] == 0
    ensures Walk(o, fa, D0, D0[o[0] := 0], L, 1, lv, 0)
  {
    PassStart(o, fa, D0, L);
    LeafStart(o, D0[o[0] := 0], lv);
  }

  lemma WalkStep(o: seq<nat>, fa: seq<nat>, D0: seq<nat>, D: seq<nat>, L: nat, k: nat, lv: seq<nat>, overflow: nat)
    requires Walk(o, fa, D0, D, L, k, lv, overflow) && k < |o| && L > 0
    ensures k < |fa| && o[k] < |D| && fa[k] < |D| && D[o[k]] == fa[k]
    ensures var v := Deeper(D[fa[k]], L);
            var D', ov := D[o[k] := v], overflow + if D[fa[k]] >= L then 1 else 0;
            && 1 <= v <= L
            && (o[k] < |lv| ==> lv[o[k]] == 0 && Walk(o, fa, D0, D', L, k + 1, lv[o[k] := v], ov))
            && (o[k] >= |lv| ==> Walk(o, fa, D0, D', L, k + 1, lv, ov))
  {
    hide Over, LeafState;
    PassStep(o, fa, D0, D, L, k);
    OverStep(o, fa, D, D[o[k] := Deeper(D[fa[k]], L)], L, k);
    LeafStep(o, fa, D, lv, k, Deeper(D[fa[k]], L));
  }

  lemma WalkEnd(o: seq<nat>, fa: seq<nat>, D0: seq<nat>, D: seq<nat>, L: nat, lv: seq<nat>, overflow: nat)
    requires Walk(o, fa, D0, D, L, |o|, lv, overflow)
    requires forall x :: 0 <= x < |lv| && x !in o ==> D0[x] == 0
    ensures PassState(o, fa, D0, D, L, |o|) && overflow == Over(fa, D, L, |o|) && |lv| <= |D| && D[..|lv|] == lv
  {
    LeafEnd(o, fa, D0, D, L, lv);
  }
}
