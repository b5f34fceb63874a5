/** The priority queue of tree nodes: ordering by frequency, then by depth. */
module HeapOrder {

  /** Node `n` goes before node `m`: smaller frequency, or the same and no deeper. */
  predicate Smaller(f: seq<nat>, d: seq<nat>, n: nat, m: nat)
    requires n < |f| && n < |d| && m < |f| && m < |d|
  {
    f[n] < f[m] || (f[n] == f[m] && d[n] <= d[m])
  }

  /** The heap occupies `h[1..len + 1]` and holds nodes only. */
  predicate Nodes(h: seq<nat>, len: nat, f: seq<nat>, d: seq<nat>) {
    len < |h| && forall i :: 1 <= i <= len ==> h[i] < |f| && h[i] < |d|
  }

  /** Fathers from index `k` on go before their sons. */
  predicate Ordered(h: seq<nat>, len: nat, k: nat, f: seq<nat>, d: seq<nat>)
    requires Nodes(h, len, f, d)
  {
    forall i :: 2 <= i <= len && k <= i / 2 ==> Smaller(f, d, h[i / 2], h[i])
  }

  /** As `Ordered` from `k0`, except that the node at `k` may be too large for its place. */
  predicate Sinking(h: seq<nat>, len: nat, k0: nat, k: nat, f: seq<nat>, d: seq<nat>)
    requires Nodes(h, len, f, d)
  {
    && 1 <= k0 <= k <= len
    && (forall i :: 2 <= i <= len && k0 <= i / 2 && i / 2 != k ==> Smaller(f, d, h[i / 2], h[i]))
    && (forall i :: 2 <= i <= len && i / 2 == k && k0 <= k / 2 ==> Smaller(f, d, h[k / 2], h[i]))
  }

  function Swap(h: seq<nat>, i: nat, j: nat): (r: seq<nat>)
    requires i < |h| && j < |h|
    ensures |r| == |h| && r[i] == h[j] && r[j] == h[i]
    ensures forall k :: 0 <= k < |h| && k != i && k != j ==> r[k] == h[k]
  {
    h[i := h[j]][j := h[i]]
  }

  lemma SwapPermutes(h: seq<nat>, len: nat, i: nat, j: nat)
    requires 1 <= i <= len && 1 <= j <= len < |h| && i != j
    ensures multiset(Swap(h, i, j)[1..len + 1]) == multiset(h[1..len + 1])
  {
    var s := h[1..len + 1];
    assert Swap(h, i, j)[1..len + 1] == s[i - 1 := s[j - 1]][j - 1 := s[i - 1]];
  }

  /** `j` is the son of `k` that goes first. */
  predicate FirstSon(h: seq<nat>, len: nat, k: nat, j: nat, f: seq<nat>, d: seq<nat>)
    requires Nodes(h, len, f, d)
  {
    && 1 <= k && j <= len && (j == 2 * k || j == 2 * k + 1)
    && (forall i :: 2 <= i <= len && i / 2 == k ==> Smaller(f, d, h[j], h[i]))
  }

  lemma SinkStep(h: seq<nat>, len: nat, k0: nat, k: nat, j: nat, f: seq<nat>, d: seq<nat>)
    requires Nodes(h, len, f, d) && Sinking(h, len, k0, k, f, d) && FirstSon(h, len, k, j, f, d)
    requires !Smaller(f, d, h[k], h[j])
    ensures Nodes(Swap(h, k, j), len, f, d) && Sinking(Swap(h, k, j), len, k0, j, f, d)
  {
    var s := Swap(h, k, j);
    assert j / 2 == k && k < j;
    forall i | 2 <= i <= len && k0 <= i / 2 && i / 2 != j
      ensures Smaller(f, d, s[i / 2], s[i])
    {
      if i / 2 == k {
      } else if i == k {
        assert j / 2 == k;
      }
    }
    forall i | 2 <= i <= len && i / 2 == j && k0 <= j / 2
      ensures Smaller(f, d, s[j / 2], s[i])
    {
      assert h[i / 2] == h[j];
    }
  }

  lemma SinkDone(h: seq<nat>, len: nat, k0: nat, k: nat, j: nat, f: seq<nat>, d: seq<nat>)
    requires Nodes(h, len, f, d) && Sinking(h, len, k0, k, f, d)
    requires 2 * k > len || (FirstSon(h, len, k, j, f, d) && Smaller(f, d, h[k], h[j]))
    ensures Ordered(h, len, k0, f, d)
  {
    forall i | 2 <= i <= len && k0 <= i / 2
      ensures Smaller(f, d, h[i / 2], h[i])
    {
      if i / 2 == k { assert 2 * k <= i; }
    }
  }

  /** The first heap element goes before all others. */
  lemma {:induction false} RootFirst(h: seq<nat>, len: nat, f: seq<nat>, d: seq<nat>, i: nat)
    requires Nodes(h, len, f, d) && Ordered(h, len, 1, f, d) && 1 <= i <= len
    ensures Smaller(f, d, h[1], h[i])
  {
    if i > 1 {
      RootFirst(h, len, f, d, i / 2);
      assert Smaller(f, d, h[i / 2], h[i]);
    }
  }
}
