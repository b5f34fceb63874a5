/** Handing out repaired code lengths: the longest to the least frequent leaves. */
module Reassigning {
  import opened Canonical
  import opened CodeLengths
  import opened TreePass

  /** How many of the first `k` nodes are leaves, that is, symbols below `z`. */
  function Leaves(o: seq<nat>, z: nat, k: nat): nat
    requires k <= |o|
  {
    if k == 0 then 0 else Leaves(o, z, k - 1) + if o[k - 1] < z then 1 else 0
  }

  lemma NotBefore(o: seq<nat>, k: nat)
    requires Injective(o) && k < |o|
    ensures o[k] !in o[..k]
  {}

  /** Every leaf of the tree has a code. */
  lemma {:induction false} LeavesUsed(o: seq<nat>, D: seq<nat>, lv: seq<nat>, k: nat)
    requires 1 <= k <= |o| && |lv| <= o[0] && Bounded(o, |D|) && |lv| <= |D|
    requires Injective(o)
    requires forall x :: 0 <= x < |lv| ==> lv[x] == if x in o[..k] then D[x] else 0
    requires forall i :: 1 <= i < |o| ==> D[o[i]] > 0
    ensures Used(lv) == Leaves(o, |lv|, k)
    decreases k
  {
    hide Injective, Used;
    if k == 1 {
      NothingUsed(lv, 1);
      assert Leaves(o, |lv|, 0) == 0;
    } else {
      var x := o[k - 1];
      assert o[..k] == o[..k - 1] + [x];
      NotBefore(o, k - 1);
      if x < |lv| {
        var l := lv[x := 0];
        LeavesUsed(o, D, l, k - 1);
        UsedUpdate(lv, x, 0);
      } else {
        LeavesUsed(o, D, lv, k - 1);
      }
    }
  }

  /** Of the leaves from the `k`-th node on, a later one never has a shorter length; none is shorter than `bits`. */
  predicate Falling(o: seq<nat>, l: seq<nat>, bits: nat, k: nat) {
    && (forall i, j :: k <= i < j < |o| && o[i] < |l| && o[j] < |l| ==> l[o[i]] <= l[o[j]])
    && (forall i :: k <= i < |o| && o[i] < |l| ==> bits <= l[o[i]])
  }

  lemma FallingOne(o: seq<nat>, l: seq<nat>, bits: nat, k: nat)
    requires Falling(o, l, bits, k) && 0 < k <= |o| && o[k - 1] < |l|
    requires Injective(o)
    ensures Falling(o, l[o[k - 1] := bits], bits, k - 1)
  {}

  lemma FallingSkip(o: seq<nat>, l: seq<nat>, bits: nat, k: nat)
    requires Falling(o, l, bits, k) && 0 < k <= |o| && o[k - 1] >= |l|
    ensures Falling(o, l, bits, k - 1)
  {}

  lemma FallingNext(o: seq<nat>, l: seq<nat>, bits: nat, k: nat)
    requires Falling(o, l, bits, k) && bits > 0
    ensures Falling(o, l, bits - 1, k)
  {}

  /** The leaves come in the order of their lengths. */
  lemma FallingDone(o: seq<nat>, lv: seq<nat>, cur: seq<nat>, nl: seq<nat>, c: seq<nat>, k: nat)
    requires Handing(o, lv, cur, nl, c, 0, 0, k) && Falling(o, nl, 0, k)
    ensures Falling(o, nl, 0, 0)
  {
    hide Count;
    forall i, j | 0 <= i < j < |o| && o[i] < |nl| && o[j] < |nl|
      ensures nl[o[i]] <= nl[o[j]]
    {
      if i < k { NoLeaves(o, |lv|, k, i); }
    }
  }

  /**
   * The nodes from the `k`-th on have their final lengths; `n` lengths `bits` and all shorter ones
   * are still to be handed out. `cur` are the lengths as they stand, `nl` those handed out.
   */
  predicate Handing(o: seq<nat>, lv: seq<nat>, cur: seq<nat>, nl: seq<nat>, c: seq<nat>, bits: nat, n: nat, k: nat) {
    && |lv| == |cur| == |nl| && |c| == MAX_BITS + 1 && k <= |o| && bits <= MAX_BITS
    && Injective(o)
    && (forall x :: 0 <= x < |lv| ==> (lv[x] > 0 <==> x in o))
    && (forall x :: 0 <= x < |lv| && x in o[k..] ==> cur[x] == nl[x] > 0 && nl[x] <= MAX_BITS)
    && (forall x :: 0 <= x < |lv| && x !in o[k..] ==> cur[x] == lv[x] && nl[x] == 0)
    && Leaves(o, |lv|, k) == Total(c, bits) + n
    && n <= c[bits]
    && (forall b :: 1 <= b <= MAX_BITS ==>
          Count(nl, b) == if b > bits then c[b] else if b == bits then c[b] - n else 0)
  }

  lemma HandingFacts(o: seq<nat>, lv: seq<nat>, cur: seq<nat>, nl: seq<nat>, c: seq<nat>, bits: nat, n: nat, k: nat)
    requires Handing(o, lv, cur, nl, c, bits, n, k)
    ensures |lv| == |cur| == |nl| && k <= |o| && Injective(o)
  {}

  lemma FallingStart(o: seq<nat>, l: seq<nat>, bits: nat)
    ensures Falling(o, l, bits, |o|)
  {}

  lemma HandingSkip(o: seq<nat>, lv: seq<nat>, cur: seq<nat>, nl: seq<nat>, c: seq<nat>, bits: nat, n: nat, k: nat)
    requires Handing(o, lv, cur, nl, c, bits, n, k) && k > 0 && o[k - 1] >= |lv|
    ensures Handing(o, lv, cur, nl, c, bits, n, k - 1)
  {
    assert o[k - 1..] == [o[k - 1]] + o[k..];
  }

  lemma HandingOne(o: seq<nat>, lv: seq<nat>, cur: seq<nat>, nl: seq<nat>, c: seq<nat>, bits: nat, n: nat, k: nat)
    requires Handing(o, lv, cur, nl, c, bits, n, k) && k > 0 && o[k - 1] < |lv| && n > 0 && bits > 0
    ensures cur[o[k - 1]] > 0
    ensures Handing(o, lv, cur[o[k - 1] := bits], nl[o[k - 1] := bits], c, bits, n - 1, k - 1)
  {
    hide Count, Total;
    var m := o[k - 1];
    assert o[k - 1..] == [m] + o[k..];
    assert m !in o[k..] by { AfterDistinct(o, k); }
    var cur1, nl1 := cur[m := bits], nl[m := bits];
    forall b | 1 <= b <= MAX_BITS
      ensures Count(nl1, b) == if b > bits then c[b] else if b == bits then c[b] - (n - 1) else 0
    {
      CountUpdate(nl, m, bits, b);
    }
    assert forall x :: 0 <= x < |lv| && x in o[k - 1..] ==> cur1[x] == nl1[x] > 0 && nl1[x] <= MAX_BITS;
    assert forall x :: 0 <= x < |lv| && x !in o[k - 1..] ==> cur1[x] == lv[x] && nl1[x] == 0;
  }

  lemma AfterDistinct(o: seq<nat>, k: nat)
    requires 0 < k <= |o| && Injective(o)
    ensures o[k - 1] !in o[k..]
  {
    forall j | 0 <= j < |o[k..]|
      ensures o[k..][j] != o[k - 1]
    {
      assert o[k..][j] == o[k + j];
    }
  }

  /** As long as a length is left there is a leaf to give it to. */
  lemma HandingMore(o: seq<nat>, lv: seq<nat>, cur: seq<nat>, nl: seq<nat>, c: seq<nat>, bits: nat, n: nat, k: nat)
    requires Handing(o, lv, cur, nl, c, bits, n, k) && n > 0
    ensures k > 0
  {}

  lemma HandingNext(o: seq<nat>, lv: seq<nat>, cur: seq<nat>, nl: seq<nat>, c: seq<nat>, bits: nat, k: nat)
    requires Handing(o, lv, cur, nl, c, bits, 0, k) && bits > 0
    ensures Handing(o, lv, cur, nl, c, bits - 1, if bits == 1 then 0 else c[bits - 1], k)
  {}

  lemma {:induction false} NoLeaves(o: seq<nat>, z: nat, k: nat, i: nat)
    requires i < k <= |o| && Leaves(o, z, k) == 0
    ensures o[i] >= z
  {
    if i < k - 1 { NoLeaves(o, z, k - 1, i); }
  }

  lemma InFront(o: seq<nat>, k: nat, x: nat)
    requires k <= |o| && x in o && x !in o[k..]
    ensures x in o[..k]
  {
    assert o == o[..k] + o[k..];
  }

  lemma HandingDone(o: seq<nat>, lv: seq<nat>, cur: seq<nat>, nl: seq<nat>, c: seq<nat>, k: nat)
    requires Handing(o, lv, cur, nl, c, 0, 0, k)
    ensures cur == nl
    ensures forall b :: 1 <= b <= MAX_BITS ==> Count(cur, b) == c[b]
    ensures forall x :: 0 <= x < |lv| ==> (cur[x] > 0 <==> lv[x] > 0)
    ensures LensOk(cur)
  {
    forall x | 0 <= x < |lv|
      ensures cur[x] == nl[x] <= MAX_BITS && (cur[x] > 0 <==> lv[x] > 0)
    {
      if x in o && x !in o[k..] {
        InFront(o, k, x);
        var i :| 0 <= i < k && o[..k][i] == x;
        NoLeaves(o, |lv|, k, i);
      } else if x in o[k..] {
        var i :| 0 <= i < |o[k..]| && o[k..][i] == x;
        assert o[k + i] == x;
      }
    }
  }

  lemma HandingStart(o: seq<nat>, lv: seq<nat>, nl: seq<nat>, c: seq<nat>, L: nat)
    requires |c| == MAX_BITS + 1 && 1 <= L <= MAX_BITS && |nl| == |lv|
    requires Injective(o)
    requires forall x :: 0 <= x < |lv| ==> (lv[x] > 0 <==> x in o) && nl[x] == 0
    requires Leaves(o, |lv|, |o|) == Total(c, MAX_BITS + 1) && forall b :: L < b <= MAX_BITS ==> c[b] == 0
    ensures Handing(o, lv, lv, nl, c, L, c[L], |o|)
  {
    TotalTop(c, L, MAX_BITS + 1);
    forall b | 1 <= b <= MAX_BITS
      ensures Count(nl, b) == 0
    {
      NothingUsed(nl, b);
    }
  }

  lemma {:induction false} TotalTop(c: seq<nat>, L: nat, b: nat)
    requires |c| == MAX_BITS + 1 && 1 <= L < b <= MAX_BITS + 1 && forall i :: L < i <= MAX_BITS ==> c[i] == 0
    ensures Total(c, b) == Total(c, L) + c[L]
  {
    if L < b - 1 { TotalTop(c, L, b - 1); }
  }
}
