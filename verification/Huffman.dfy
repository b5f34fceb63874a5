/** Building Huffman trees: the heap, the merging, the lengths and the codes. */
module Huffman {
  import opened Numbers
  import opened Wrappers
  import opened Bits
  import opened Canonical
  import opened BitWriter
  import opened Rfc1951
  import opened HeapOrder
  import opened CodeLengths
  import opened Merging
  import opened TreePass
  import opened Reassigning
  import opened TreeShape
  import opened Forest
  import opened Forcing
  import opened Optimality
  import opened HuffmanTrees
  import opened TreeHeight
  import opened Shallowest

  const HEAP_SIZE := 573

  /** An array of tree nodes. Frequency and code share `fc`; father and length share `dl`. */
  class CtData {
    const fc: array<nat>
    const dl: array<nat>

    ghost predicate Valid(size: nat) {
      fc != dl && fc.Length == dl.Length == size
    }

    constructor (size: nat)
      ensures Valid(size) && fresh(fc) && fresh(dl)
      ensures forall i :: 0 <= i < size ==> fc[i] == 0 && dl[i] == 0
    {
      fc := new nat[size](_ => 0);
      dl := new nat[size](_ => 0);
    }
  }

  /** The work space shared by all tree constructions. */
  class Workspace {
    const heap: array<nat>
    const depth: array<nat>
    const blCount: array<nat>
    var heapLen: nat
    var heapMax: nat
    var optLen: nat
    var staticLen: nat

    ghost predicate Valid() {
      && heap.Length == HEAP_SIZE && depth.Length == HEAP_SIZE && blCount.Length == 16
      && heap != depth && heap != blCount && depth != blCount
    }

    /** The tree's arrays are not those of the work space. */
    ghost predicate Apart(t: CtData) {
      && t.fc != heap && t.fc != depth && t.fc != blCount
      && t.dl != heap && t.dl != depth && t.dl != blCount
    }

    constructor ()
      ensures Valid() && fresh(heap) && fresh(depth) && fresh(blCount)
      ensures optLen == 0 && staticLen == 0 && forall b :: 0 <= b < 16 ==> blCount[b] == 0
    {
      heap := new nat[HEAP_SIZE](_ => 0);
      depth := new nat[HEAP_SIZE](_ => 0);
      blCount := new nat[16](_ => 0);
      heapLen, heapMax, optLen, staticLen := 0, 0, 0, 0;
    }

    /** Lets the node at `k0` sink to its place among the sub-heaps below it. */
    method PqDownHeap(t: CtData, k0: nat)
      requires Valid() && Apart(t) && t.fc.Length <= HEAP_SIZE
      requires 1 <= k0 <= heapLen < HEAP_SIZE && Nodes(heap[..], heapLen, t.fc[..], depth[..])
      requires Ordered(heap[..], heapLen, k0 + 1, t.fc[..], depth[..])
      modifies heap
      ensures Nodes(heap[..], heapLen, t.fc[..], depth[..])
      ensures Ordered(heap[..], heapLen, k0, t.fc[..], depth[..])
      ensures SamePart(old(heap[..]), heap[..], heapLen, k0)
    {
      hide Sinking, FirstSon, Smaller, Ordered, Nodes, Swap, SamePart;
      var v := heap[k0];
      var k := k0;
      var j := 2 * k;
      ghost var h, f, d := heap[..], t.fc[..], depth[..];
      ghost var h0 := h;
      StartSinking(h, heapLen, k0, f, d);
      SameStart(h, heapLen, k0);
      while j <= heapLen
        invariant 1 <= k0 <= k <= heapLen && j == 2 * k
        invariant |h| == HEAP_SIZE && h[k] == v && forall i :: 0 <= i < HEAP_SIZE && i != k ==> heap[i] == h[i]
        invariant t.fc[..] == f && depth[..] == d
        invariant Nodes(h, heapLen, f, d) && Sinking(h, heapLen, k0, k, f, d)
        invariant SamePart(h0, h, heapLen, k0)
        decreases heapLen - k
      {
        NodeAt(h, heapLen, f, d, j);
        NodeAt(h, heapLen, f, d, k);
        if j < heapLen { NodeAt(h, heapLen, f, d, j + 1); }
        var first := j;
        if j < heapLen && IsSmaller(t, heap[j + 1], heap[j]) {
          first := j + 1;
        }
        PickSon(h, heapLen, k, first, f, d);
        if IsSmaller(t, v, heap[first]) {
          SinkDone(h, heapLen, k0, k, first, f, d);
          break;
        }
        SinkStep(h, heapLen, k0, k, first, f, d);
        SwapSame(h0, h, heapLen, k0, k, first);
        heap[k] := heap[first];
        h := Swap(h, k, first);
        k := first;
        j := 2 * k;
      }
      if j > heapLen { SinkDone(h, heapLen, k0, k, 0, f, d); }
      heap[k] := v;
      assert heap[..] == h;
    }

    /** The heap is in order and holds exactly the nodes in `A`. */
    ghost predicate HeapIs(t: CtData, A: set<nat>)
      reads this, heap, depth, t.fc
    {
      && Valid() && Apart(t) && t.fc.Length <= HEAP_SIZE
      && heapLen < HEAP_SIZE && Nodes(heap[..], heapLen, t.fc[..], depth[..])
      && Ordered(heap[..], heapLen, 1, t.fc[..], depth[..])
      && multiset(heap[1..heapLen + 1]) == multiset(A)
    }

    /** Takes the smallest node off the heap. */
    method PqRemove(t: CtData, ghost A: set<nat>) returns (top: nat)
      requires HeapIs(t, A) && heapLen >= 2
      modifies this`heapLen, heap
      ensures heapLen == old(heapLen) - 1 && HeapIs(t, A - {top})
      ensures top in A && Least(A, t.fc[..], top) && Lowest(A, t.fc[..], depth[..], top)
      ensures forall i :: old(heapLen) < i < HEAP_SIZE ==> heap[i] == old(heap[i])
    {
      hide Nodes, Ordered, Smaller, Least, Lowest;
      ghost var h, len, f, d := heap[..], heapLen, t.fc[..], depth[..];
      assert heap[1..len + 1] == h[1..len + 1];
      TopIsLeast(h, len, f, d, A);
      NodeAt(h, len, f, d, 1);
      top := heap[1];
      heap[1] := heap[heapLen];
      heapLen := heapLen - 1;
      LastToTop(h, len, f, d, A);
      assert heap[..] == h[1 := h[len]];
      PqDownHeap(t, 1);
      assert heap[1..len] == heap[..][1..len];
    }

    /** Puts a new node in the place of the heap's smallest. */
    method ReplaceTop(t: CtData, node: nat, ghost A: set<nat>, ghost m: nat)
      requires HeapIs(t, A) && heapLen >= 1 && heap[1] == m && node !in A && node < t.fc.Length
      modifies heap
      ensures HeapIs(t, A - {m} + {node})
      ensures forall i :: heapLen < i < HEAP_SIZE ==> heap[i] == old(heap[i])
    {
      hide Nodes, Ordered, Smaller;
      ghost var h, f, d := heap[..], t.fc[..], depth[..];
      assert heap[1..heapLen + 1] == h[1..heapLen + 1];
      heap[1] := node;
      NewTop(h, heapLen, f, d, A, node);
      assert heap[..] == h[1 := node];
      PqDownHeap(t, 1);
      assert heap[1..heapLen + 1] == heap[..][1..heapLen + 1];
    }

    /** The construction from the leaves `S` has come to the merges `ms`. */
    ghost predicate Growing(t: CtData, d: Desc, S: set<nat>, ms: seq<Merge>, z: nat, T: nat)
      reads this, heap, depth, t.fc, t.dl
    {
      && HeapIs(t, Active(S, ms)) && t.Valid(2 * d.elems + 1)
      && heapLen + |ms| == |S| <= d.elems && heapLen >= 1
      && heapMax == HEAP_SIZE - 2 * |ms| && heap[heapMax..] == Pairs(ms)
      && Grown(S, d.elems, t.fc[..], ms, t.dl[..], z, T) && Risen(S, d.elems, t.fc[..], ms, depth[..])
    }

    /** Appends `n` to the list of nodes sorted by frequency. */
    method Record(t: CtData, n: nat, ghost A: set<nat>)
      requires HeapIs(t, A) && 1 <= heapLen && heapLen + 1 < heapMax <= HEAP_SIZE
      modifies this`heapMax, heap
      ensures HeapIs(t, A) && heapMax == old(heapMax) - 1 && heap[1] == old(heap[1])
      ensures heap[heapMax..] == [n] + old(heap[heapMax..])
    {
      hide Nodes, Ordered;
      ghost var h := heap[..];
      assert heap[1..heapLen + 1] == h[1..heapLen + 1];
      heapMax := heapMax - 1;
      heap[heapMax] := n;
      HeapFrame(h, heap[..], heapLen, t.fc[..], depth[..], t.fc[..], depth[..], A);
      assert heap[1..heapLen + 1] == heap[..][1..heapLen + 1];
    }

    /** Makes `node` the father of `n` and `m`. */
    method MakeFather(t: CtData, n: nat, m: nat, node: nat, ghost A: set<nat>)
      requires HeapIs(t, A) && t.fc != t.dl && t.dl.Length == t.fc.Length
      requires n < t.fc.Length && m < t.fc.Length && node < t.fc.Length && node !in A
      modifies depth, t.fc, t.dl
      ensures HeapIs(t, A)
      ensures t.fc[..] == old(t.fc[..])[node := (old(t.fc[n]) + old(t.fc[m])) % 0x10000]
      ensures t.dl[..] == old(t.dl[..])[n := node][m := node]
      ensures depth[..] == old(depth[..])[node := (1 + Larger(old(depth[n]), old(depth[m]))) % 256]
    {
      hide Nodes, Ordered;
      ghost var f, g := t.fc[..], depth[..];
      t.fc[node] := (t.fc[n] + t.fc[m]) % 0x10000;
      depth[node] := (1 + Larger(depth[n], depth[m])) % 256;
      t.dl[n] := node;
      t.dl[m] := node;
      assert heap[1..heapLen + 1] == heap[..][1..heapLen + 1];
      HeapFrame(heap[..], heap[..], heapLen, f, g, t.fc[..], depth[..], A);
    }

    /** Takes the lightest node off the heap and puts it and the next one into the sorted list. */
    method TakeTwo(t: CtData, ghost A: set<nat>) returns (n: nat, m: nat)
      requires HeapIs(t, A) && 2 <= heapLen && heapLen + 1 < heapMax <= HEAP_SIZE
      modifies this`heapLen, this`heapMax, heap
      ensures HeapIs(t, A - {n}) && heapLen == old(heapLen) - 1 && heap[1] == m
      ensures n in A && Least(A, t.fc[..], n) && m in A - {n} && Least(A - {n}, t.fc[..], m)
      ensures Tied(A, t.fc[..], depth[..], n, m)
      ensures heapMax == old(heapMax) - 2 && heap[heapMax..] == [m, n] + old(heap[heapMax..])
    {
      hide HeapIs, Least, Lowest;
      HeapFacts(t, A);
      ghost var P := heap[heapMax..];
      n := PqRemove(t, A);
      TopOfHeap(t, A - {n});
      assert heap[heapMax..] == P;
      m := heap[1];
      Record(t, n, A - {n});
      Record(t, m, A - {n});
      assert [m] + ([n] + P) == [m, n] + P;
    }

    /** Makes a new node the father of the two lightest ones. */
    method MergeTwo(t: CtData, d: Desc, node: nat, ghost S: set<nat>, ghost ms: seq<Merge>, ghost z: nat,
                    ghost T: nat)
      returns (ghost ms': seq<Merge>)
      requires d.Ok() && Growing(t, d, S, ms, z, T) && heapLen >= 2 && node == d.elems + |ms| && T < 0x10000
      modifies this`heapLen, this`heapMax, heap, depth, t.fc, t.dl
      ensures Growing(t, d, S, ms', z, T) && |ms'| == |ms| + 1 && heapLen == old(heapLen) - 1
      ensures t.fc[..d.elems] == old(t.fc[..d.elems])
    {
      hide Least, Grown, Active, Pairs, HeapIs, Risen, Tied;
      ghost var A, w, H := Active(S, ms), t.fc[..], depth[..];
      HeapFacts(t, A);
      FreshNode(S, d, w, ms, t.dl[..], z, T);
      var n, m := TakeTwo(t, A);
      GrowStep(S, d.elems, w, ms, t.dl[..], z, T, n, m);
      ms' := ms + [Merge(n, m, node)];
      GrowHeights(S, d.elems, w, ms, t.dl[..], z, T, H, n, m);
      MakeFather(t, n, m, node, A - {n});
      ghost var p := heap[heapMax..];
      ReplaceTop(t, node, A - {n}, m);
      assert heap[heapMax..] == p;
      assert A - {n} - {m} + {node} == A - {n, m} + {node};
    }

    lemma HeapFacts(t: CtData, A: set<nat>)
      requires HeapIs(t, A)
      ensures Valid() && Apart(t) && heapLen < HEAP_SIZE && t.fc.Length <= HEAP_SIZE
    {}

    lemma FreshNode(S: set<nat>, d: Desc, w: seq<nat>, ms: seq<Merge>, D: seq<nat>, z: nat, T: nat)
      requires Grown(S, d.elems, w, ms, D, z, T)
      ensures d.elems + |ms| !in Active(S, ms)
    {
      ActiveBelow(S, d.elems, w, ms);
    }

    lemma TopOfHeap(t: CtData, A: set<nat>)
      requires HeapIs(t, A) && heapLen >= 1
      ensures heap[1] in A && Least(A, t.fc[..], heap[1]) && Lowest(A, t.fc[..], depth[..], heap[1])
    {
      TopIsLeast(heap[..], heapLen, t.fc[..], depth[..], A);
    }

    /** The counts and totals are those of the leaves that have lengths in `lv`. */
    ghost predicate Tallied(d: Desc, w: seq<nat>, lv: seq<nat>, opt0: nat, static0: nat)
      reads this, blCount
      requires blCount.Length == 16 && |lv| <= |w| && |lv| <= d.extraBase + |d.extraBits|
      requires d.staticLens.Some? ==> |lv| <= |d.staticLens.value|
    {
      && blCount[0] == 0 && (forall b :: 1 <= b <= MAX_BITS ==> blCount[b] == Count(lv, b))
      && optLen == U(opt0 + Cost(d, w, lv)) && staticLen == U(static0 + StaticCost(d, w, lv))
    }

    /** Counts the leaf `n`, whose code has `bits` bits. */
    method TallyLeaf(t: CtData, d: Desc, n: nat, bits: nat, ghost lv: seq<nat>, ghost opt0: nat, ghost static0: nat)
      requires Valid() && Apart(t) && d.Ok() && n < |lv| <= d.elems <= t.fc.Length && 1 <= bits <= MAX_BITS
      requires lv[n] == 0
      requires Tallied(d, t.fc[..], lv, opt0, static0)
      modifies this`optLen, this`staticLen, blCount
      ensures Tallied(d, t.fc[..], lv[n := bits], opt0, static0)
    {
      hide Cost, StaticCost, Count, U;
      ghost var w, lv1 := t.fc[..], lv[n := bits];
      forall b | 1 <= b <= MAX_BITS
        ensures Count(lv1, b) == Count(lv, b) + if b == bits then 1 else 0
      {
        CountUpdate(lv, n, bits, b);
      }
      CostUpdate(d, w, lv, n, bits);
      blCount[bits] := blCount[bits] + 1;
      var f := t.fc[n];
      var xbits := d.Extra(n);
      UAdd(opt0 + Cost(d, w, lv), f * (bits + xbits));
      optLen := U(optLen + f * (bits + xbits));
      if d.staticLens.Some? {
        StaticCostSet(d, w, lv, n, bits);
        UAdd(static0 + StaticCost(d, w, lv), f * (d.staticLens.value[n] + xbits));
        staticLen := U(staticLen + f * (d.staticLens.value[n] + xbits));
      } else {
        NoStatic(d, w, lv);
        NoStatic(d, w, lv1);
      }
    }

    /** Gives every node its length, cut off at the longest length allowed. */
    method FirstPass(t: CtData, d: Desc, maxCode: nat, ghost size: nat, ghost o: seq<nat>, ghost fa: seq<nat>)
      returns (overflow: nat)
      requires Valid() && Apart(t) && t.Valid(size) && d.Ok() && maxCode < d.elems <= size
      requires heapMax < HEAP_SIZE && heap[heapMax..] == o && |o| == |fa| && TopDown(o, fa) && Bounded(o, size)
      requires Bounded(fa, size)
      requires o[0] > maxCode && forall i :: 1 <= i < |o| ==> t.dl[o[i]] == fa[i]
      requires forall x :: 0 <= x <= maxCode && x !in o ==> t.dl[x] == 0
      requires optLen < U32 && staticLen < U32
      modifies this`optLen, this`staticLen, t.dl, blCount
      ensures PassState(o, fa, old(t.dl[..]), t.dl[..], d.maxLength, |o|)
      ensures overflow == Over(fa, t.dl[..], d.maxLength, |o|)
      ensures Tallied(d, t.fc[..], t.dl[..maxCode + 1], old(optLen), old(staticLen))
    {
      hide PassState, TopDown, Over, Tallied, Walk;
      ghost var w, D0, opt0, static0 := t.fc[..], t.dl[..], optLen, staticLen;
      ghost var lv: seq<nat> := ClearTally(d, w, maxCode + 1);
      t.dl[heap[heapMax]] := 0;
      overflow := 0;
      var h := heapMax + 1;
      WalkStart(o, fa, D0, d.maxLength, lv);
      while h < HEAP_SIZE
        invariant heapMax < h <= HEAP_SIZE && heap[heapMax..] == o && t.fc[..] == w && |lv| == maxCode + 1
        invariant Walk(o, fa, D0, t.dl[..], d.maxLength, h - heapMax, lv, overflow)
        invariant Tallied(d, w, lv, opt0, static0)
      {
        var n := heap[h];
        WalkStep(o, fa, D0, t.dl[..], d.maxLength, h - heapMax, lv, overflow);
        assert n == o[h - heapMax];
        h := h + 1;
        var bits := t.dl[t.dl[n]] + 1;
        if bits > d.maxLength {
          bits := d.maxLength;
          overflow := overflow + 1;
        }
        t.dl[n] := bits;
        if n > maxCode {
          continue;
        }
        TallyLeaf(t, d, n, bits, lv, opt0, static0);
        lv := lv[n := bits];
      }
      WalkEnd(o, fa, D0, t.dl[..], d.maxLength, lv, overflow);
    }

    method ClearTally(ghost d: Desc, ghost w: seq<nat>, ghost n: nat) returns (ghost lv: seq<nat>)
      requires Valid() && n <= |w| && n <= d.extraBase + |d.extraBits| && optLen < U32 && staticLen < U32
      requires d.staticLens.Some? ==> n <= |d.staticLens.value|
      modifies blCount
      ensures |lv| == n && forall x :: 0 <= x < n ==> lv[x] == 0
      ensures Tallied(d, w, lv, optLen, staticLen)
    {
      lv := seq(n, _ => 0);
      var bits := 0;
      while bits < 16
        invariant bits <= 16 && forall b :: 0 <= b < bits ==> blCount[b] == 0
      {
        blCount[bits] := 0;
        bits := bits + 1;
      }
      NoCost(d, w, lv);
      forall b | 1 <= b <= MAX_BITS
        ensures Count(lv, b) == 0
      {
        NothingUsed(lv, b);
      }
    }

    /** Moves leaves up until the code space is exactly full; some leaves stay at the cut. */
    method Repair(d: Desc, overflow: nat, ghost e: nat, ghost n: nat)
      requires Valid() && d.Ok() && overflow == 2 * e > 0
      requires Oversubscribed(blCount[..], d.maxLength, e, n) && blCount[d.maxLength] >= e + 2
      modifies blCount
      ensures Oversubscribed(blCount[..], d.maxLength, 0, n) && blCount[0] == old(blCount[0])
      ensures blCount[d.maxLength] >= 2 && blCount[..] == Repaired(old(blCount[..]), d.maxLength, e)
    {
      hide Oversubscribed, MoveLeaf, Repaired, Desc.Ok;
      DescSizes(d);
      var left: int := overflow;
      ghost var k: nat, c0: seq<nat> := e, blCount[..];
      while true
        invariant left == 2 * k > 0 && Oversubscribed(blCount[..], d.maxLength, k, n) && blCount[0] == c0[0]
        invariant blCount[d.maxLength] >= k + 2
        invariant Repaired(blCount[..], d.maxLength, k) == Repaired(c0, d.maxLength, e)
        decreases k
      {
        MoveOne(d, k, n);
        left := left - 2;
        k := k - 1;
        if left <= 0 {
          break;
        }
      }
      NothingToRepair(blCount[..], d.maxLength);
    }

    /** Moves the deepest leaf above the cut one level down, which makes room for a leaf at the cut. */
    method MoveOne(d: Desc, ghost k: nat, ghost n: nat)
      requires Valid() && 1 <= d.maxLength <= MAX_BITS && k > 0
      requires Oversubscribed(blCount[..], d.maxLength, k, n) && blCount[d.maxLength] >= k + 2
      modifies blCount
      ensures Oversubscribed(blCount[..], d.maxLength, k - 1, n) && blCount[0] == old(blCount[0])
      ensures blCount[d.maxLength] >= k + 1
      ensures Repaired(blCount[..], d.maxLength, k - 1) == Repaired(old(blCount[..]), d.maxLength, k)
    {
      hide Oversubscribed, MoveLeaf, Repaired;
      ghost var c: seq<nat> := blCount[..];
      SomeShorter(c, d.maxLength, k, n);
      ghost var some :| 1 <= some < d.maxLength && c[some] > 0;
      var bits: nat := d.maxLength - 1;
      while blCount[bits] == 0
        invariant some <= bits < d.maxLength && forall i :: bits < i < d.maxLength ==> c[i] == 0
        invariant blCount[..] == c
        decreases bits
      {
        bits := bits - 1;
      }
      MoveLeafRepairs(c, bits, d.maxLength, k, n);
      RepairedStep(c, d.maxLength, k, bits);
      MoveLeafTop(c, bits, d.maxLength);
      blCount[bits] := blCount[bits] - 1;
      blCount[bits + 1] := blCount[bits + 1] + 2;
      blCount[d.maxLength] := blCount[d.maxLength] - 1;
      assert blCount[..] == MoveLeaf(c, bits, d.maxLength) by { MoveLeafIs(c, bits, d.maxLength); }
      assert blCount[d.maxLength] == blCount[..][d.maxLength];
    }

    /** Changes the length of a leaf, and the total with it. */
    method SetLength(t: CtData, d: Desc, m: nat, bits: nat, ghost z: nat, ghost opt0: nat)
      requires t.fc != t.dl && d.Ok() && m < z <= d.elems <= t.dl.Length == t.fc.Length
      requires t.dl[m] > 0 && bits > 0 && optLen == U(opt0 + Cost(d, t.fc[..], t.dl[..z]))
      modifies this`optLen, t.dl
      ensures t.dl[..] == old(t.dl[..])[m := bits]
      ensures optLen == U(opt0 + Cost(d, t.fc[..], t.dl[..z]))
    {
      hide Cost, U, Term;
      ghost var w, cur := t.fc[..], t.dl[..z];
      CostUpdate(d, w, cur, m, bits);
      if t.dl[m] != bits {
        UAdd(opt0 + Cost(d, w, cur), (bits - t.dl[m]) * t.fc[m]);
        Spread(t.fc[m], t.dl[m], bits, d.Extra(m));
        optLen := U(optLen + (bits - t.dl[m]) * t.fc[m]);
        t.dl[m] := bits;
      }
      assert t.dl[..z] == cur[m := bits];
    }

    /** Gives the length `bits` to the next leaves, scanning from the `h0`-th heap element down. */
    method GiveLength(t: CtData, d: Desc, z: nat, bits: nat, h0: nat, ghost nl0: seq<nat>,
                      ghost o: seq<nat>, ghost lv: seq<nat>, ghost opt0: nat)
      returns (h: nat, ghost nl: seq<nat>)
      requires Valid() && Apart(t) && t.fc != t.dl && d.Ok() && z <= d.elems <= t.dl.Length == t.fc.Length
      requires heapMax <= h0 <= HEAP_SIZE && heap[heapMax..] == o && Bounded(o, t.dl.Length) && |nl0| == |lv| == z
      requires 1 <= bits <= MAX_BITS
      requires Handing(o, lv, t.dl[..z], nl0, blCount[..], bits, blCount[bits], h0 - heapMax)
      requires Falling(o, nl0, bits, h0 - heapMax)
      requires optLen == U(opt0 + Cost(d, t.fc[..], t.dl[..z]))
      modifies this`optLen, t.dl
      ensures heapMax <= h <= HEAP_SIZE && |nl| == z
      ensures Handing(o, lv, t.dl[..z], nl, blCount[..], bits, 0, h - heapMax)
      ensures Falling(o, nl, bits, h - heapMax)
      ensures optLen == U(opt0 + Cost(d, t.fc[..], t.dl[..z]))
      ensures t.dl[z..] == old(t.dl[z..])
    {
      hide Injective, Handing, Falling, Cost, U;
      ghost var w, c := t.fc[..], blCount[..];
      h, nl := h0, nl0;
      var n := blCount[bits];
      while n != 0
        invariant |nl| == z && heapMax <= h <= HEAP_SIZE && t.fc[..] == w
        invariant Handing(o, lv, t.dl[..z], nl, c, bits, n, h - heapMax) && Falling(o, nl, bits, h - heapMax)
        invariant optLen == U(opt0 + Cost(d, w, t.dl[..z]))
        invariant t.dl[z..] == old(t.dl[z..])
        decreases h
      {
        ghost var cur: seq<nat> := t.dl[..z];
        HandingMore(o, lv, cur, nl, c, bits, n, h - heapMax);
        HandingFacts(o, lv, cur, nl, c, bits, n, h - heapMax);
        h := h - 1;
        var m := heap[h];
        assert m == o[h - heapMax];
        if m >= z {
          HandingSkip(o, lv, cur, nl, c, bits, n, h - heapMax + 1);
          FallingSkip(o, nl, bits, h - heapMax + 1);
          continue;
        }
        HandingOne(o, lv, cur, nl, c, bits, n, h - heapMax + 1);
        FallingOne(o, nl, bits, h - heapMax + 1);
        ghost var before := t.dl[..];
        SetLength(t, d, m, bits, z, opt0);
        assert t.dl[..z] == cur[m := bits] && t.dl[z..] == before[z..];
        nl := nl[m := bits];
        n := n - 1;
      }
    }

    /** Hands the repaired lengths out again, the longest to the least frequent leaves. */
    method Reassign(t: CtData, d: Desc, maxCode: nat, ghost o: seq<nat>, ghost opt0: nat)
      requires Valid() && Apart(t) && t.fc != t.dl && d.Ok() && maxCode < d.elems <= t.dl.Length == t.fc.Length
      requires heapMax < HEAP_SIZE && heap[heapMax..] == o && Bounded(o, t.dl.Length)
      requires Injective(o)
      requires forall x :: 0 <= x <= maxCode ==> (t.dl[x] > 0 <==> x in o)
      requires Leaves(o, maxCode + 1, |o|) == Total(blCount[..], 16)
      requires forall b :: d.maxLength < b <= MAX_BITS ==> blCount[b] == 0
      requires optLen == U(opt0 + Cost(d, t.fc[..], t.dl[..maxCode + 1]))
      modifies this`optLen, t.dl
      ensures optLen == U(opt0 + Cost(d, t.fc[..], t.dl[..maxCode + 1]))
      ensures forall b :: 1 <= b <= MAX_BITS ==> Count(t.dl[..maxCode + 1], b) == blCount[b]
      ensures forall x :: 0 <= x <= maxCode ==> (t.dl[x] > 0 <==> old(t.dl[x]) > 0)
      ensures LensOk(t.dl[..maxCode + 1])
      ensures t.dl[maxCode + 1..] == old(t.dl[maxCode + 1..])
      ensures Falling(o, t.dl[..maxCode + 1], 0, 0)
    {
      hide Injective, Bounded, Falling, Handing, Leaves, Total, Cost, Count, U;
      ghost var w, c, z := t.fc[..], blCount[..], maxCode + 1;
      ghost var lv, nl: seq<nat> := t.dl[..z], seq(z, _ => 0);
      HandingStart(o, lv, nl, c, d.maxLength);
      FallingStart(o, nl, d.maxLength);
      var h := HEAP_SIZE;
      var bits: nat := d.maxLength;
      while bits != 0
        invariant |nl| == z && bits <= d.maxLength && heapMax <= h <= HEAP_SIZE && t.fc[..] == w
        invariant Handing(o, lv, t.dl[..z], nl, c, bits, if bits == 0 then 0 else c[bits], h - heapMax)
        invariant Falling(o, nl, bits, h - heapMax)
        invariant optLen == U(opt0 + Cost(d, w, t.dl[..z]))
        invariant t.dl[z..] == old(t.dl[z..])
      {
        h, nl := GiveLength(t, d, maxCode + 1, bits, h, nl, o, lv, opt0);
        HandingNext(o, lv, t.dl[..z], nl, c, bits, h - heapMax);
        FallingNext(o, nl, bits, h - heapMax);
        bits := bits - 1;
      }
      FallingDone(o, lv, t.dl[..z], nl, c, h - heapMax);
      HandingDone(o, lv, t.dl[..z], nl, c, h - heapMax);
    }

    /** Computes the lengths of all codes from the depths `D`, of which half `overflow` merges lie below the cut. */
    method GenBitLen(t: CtData, d: Desc, maxCode: nat, ghost S: set<nat>, ghost ms: seq<Merge>, ghost w: seq<nat>)
      returns (overflow: nat, ghost D: seq<nat>)
      requires Valid() && Apart(t) && t.fc != t.dl && t.fc.Length == t.dl.Length >= d.elems && d.Ok()
      requires maxCode < d.elems
      requires heapMax < HEAP_SIZE && optLen < U32 && staticLen < U32 && t.fc[..] == w
      requires Built(S, d.elems, w, ms, heap[heapMax..], t.dl[..], maxCode + 1)
      modifies this`optLen, this`staticLen, t.dl, blCount
      ensures Coded(S, t.dl[..maxCode + 1], d.maxLength)
      ensures blCount[0] == 0 && forall b :: 1 <= b <= MAX_BITS ==> blCount[b] == Count(t.dl[..maxCode + 1], b)
      ensures optLen == U(old(optLen) + Cost(d, w, t.dl[..maxCode + 1]))
      ensures staticLen == U(old(staticLen) + StaticCost(d, w, t.dl[..maxCode + 1]))
      ensures |D| == t.dl.Length && CutAt(S, ms, D, d.maxLength, t.dl[..maxCode + 1])
      ensures overflow == 2 * Excess(ms, D, d.maxLength, 0)
      ensures forall x :: maxCode < x < d.elems ==> t.dl[x] == 0
    {
      hide Injective, CutAt, Depths, Falling, Repaired, Built, Pairs, Fathers, TopDown, PassState, Over, Excess;
      hide LengthsOf;
      hide LengthsIn, Oversubscribed, Coded;
      hide Leaves, Used, Total, Cost, StaticCost, Count, Kraft, U;
      ghost var o, D0, z, L := heap[heapMax..], t.dl[..], maxCode + 1, d.maxLength;
      BuiltRoot(S, d.elems, w, ms, o, D0, z);
      ghost var fa := [ms[|ms| - 1].node] + Fathers(ms);
      BuiltPass(S, d.elems, w, ms, o, D0, z);
      TopDownInjective(o, fa);
      ghost var opt0, static0 := optLen, staticLen;
      overflow := FirstPass(t, d, maxCode, t.fc.Length, o, fa);
      D := t.dl[..];
      ghost var lv := D[..z];
      assert t.dl[..z] == lv;
      ghost var c := Counts(lv);
      assert blCount[..] == c;
      PassResult(S, d.elems, w, ms, o, D0, D, z, L);
      PassLeaves(S, d.elems, w, ms, o, D0, D, z, L);
      AfterPass(S, d.elems, w, ms, o, D0, D, z, L, blCount[..]);
      ghost var E := Excess(ms, D, L, 0);
      DepthsStand(S, D, z);
      if overflow == 0 {
        NothingCut(S, ms, D, L, z);
        return;
      }
      MakeFit(t, d, maxCode, overflow, S, o, E, opt0);
      StaticCostSame(d, w, lv, t.dl[..z]);
      CutRepaired(S, ms, D, L, t.dl[..z], o);
      forall x | maxCode < x < d.elems
        ensures t.dl[x] == 0
      {
        assert t.dl[z..][x - z] == D[z..][x - z];
      }
    }

    /** Turns lengths that over-subscribe the code space by `e` into a complete code. */
    method MakeFit(t: CtData, d: Desc, maxCode: nat, overflow: nat, ghost S: set<nat>, ghost o: seq<nat>,
                   ghost e: nat, ghost opt0: nat)
      requires Valid() && Apart(t) && t.fc != t.dl && d.Ok() && maxCode < d.elems <= t.dl.Length == t.fc.Length
      requires heapMax < HEAP_SIZE && heap[heapMax..] == o && Bounded(o, t.dl.Length)
      requires Injective(o)
      requires forall x :: 0 <= x <= maxCode ==> (t.dl[x] > 0 <==> x in o) && (t.dl[x] > 0 <==> x in S)
      requires Leaves(o, maxCode + 1, |o|) == Used(t.dl[..maxCode + 1])
      requires blCount[..] == Counts(t.dl[..maxCode + 1]) && overflow == 2 * e > 0
      requires Oversubscribed(blCount[..], d.maxLength, e, Used(t.dl[..maxCode + 1])) && blCount[d.maxLength] >= e + 2
      requires optLen == U(opt0 + Cost(d, t.fc[..], t.dl[..maxCode + 1]))
      modifies this`optLen, t.dl, blCount
      ensures Coded(S, t.dl[..maxCode + 1], d.maxLength)
      ensures blCount[..] == Counts(t.dl[..maxCode + 1]) == Repaired(old(blCount[..]), d.maxLength, e)
      ensures Falling(o, t.dl[..maxCode + 1], 0, 0)
      ensures optLen == U(opt0 + Cost(d, t.fc[..], t.dl[..maxCode + 1]))
      ensures forall x :: 0 <= x <= maxCode ==> (t.dl[x] > 0 <==> old(t.dl[x]) > 0)
      ensures t.dl[maxCode + 1..] == old(t.dl[maxCode + 1..])
    {
      hide Injective, Falling, Repaired, Oversubscribed, Coded, Leaves, Used, Total, Cost, Count, Kraft, U;
      ghost var z, L, lv: seq<nat> := maxCode + 1, d.maxLength, t.dl[..maxCode + 1];
      Repair(d, overflow, e, Used(lv));
      RepairedTotal(blCount[..], L, Used(lv));
      Reassign(t, d, maxCode, o, opt0);
      RepairedKraft(blCount[..], L, Used(lv), t.dl[..z]);
      CodedAgain(S, lv, t.dl[..z], L);
      assert blCount[..] == Counts(t.dl[..z]);
    }

    /** Canonical codes, each stored with its bits reversed. */
    method GenCodes(t: CtData, maxCode: nat)
      requires Valid() && Apart(t) && t.fc != t.dl && maxCode < t.fc.Length == t.dl.Length
      requires GoodLengths(t.dl[..maxCode + 1])
      requires blCount[0] == 0 && forall b :: 1 <= b <= MAX_BITS ==> blCount[b] == Count(t.dl[..maxCode + 1], b)
      modifies t.fc
      ensures CodesOf(t.fc[..], t.dl[..maxCode + 1])
      ensures forall x :: 0 <= x < t.fc.Length && (x > maxCode || t.dl[x] == 0) ==> t.fc[x] == old(t.fc[x])
    {
      hide FirstCode, Count, GoodLengths, CodeAt;
      ghost var lens := t.dl[..maxCode + 1];
      var nextCode := FirstCodes(lens);
      var n: nat := 0;
      NoCounts(lens);
      while n <= maxCode
        invariant n <= maxCode + 1 && t.dl[..maxCode + 1] == lens
        invariant forall b :: 1 <= b <= MAX_BITS ==> nextCode[b] == FirstCode(lens, b) + Count(lens[..n], b)
        invariant forall i :: 0 <= i < n && lens[i] > 0 ==> CodeAt(t.fc[i], lens, i)
        invariant forall x :: 0 <= x < t.fc.Length && (x >= n || t.dl[x] == 0) ==> t.fc[x] == old(t.fc[x])
      {
        var len := t.dl[n];
        assert len == lens[n];
        forall b | 1 <= b <= MAX_BITS
          ensures Count(lens[..n + 1], b) == Count(lens[..n], b) + if len == b then 1 else 0
        {
          CountNext(lens, n, b);
        }
        if len != 0 {
          GoodAt(lens, n);
          var c := nextCode[len];
          nextCode[len] := c + 1;
          var r := CodeBits(lens, n, c, len);
          t.fc[n] := r;
        }
        n := n + 1;
      }
    }

    /** The first code of each length, from the counts. */
    method FirstCodes(ghost lens: seq<nat>) returns (nextCode: array<nat>)
      requires blCount.Length == 16 && blCount[0] == 0
      requires forall b :: 1 <= b <= MAX_BITS ==> blCount[b] == Count(lens, b)
      ensures fresh(nextCode) && nextCode.Length == 16
      ensures forall b :: 1 <= b <= MAX_BITS ==> nextCode[b] == FirstCode(lens, b)
    {
      hide FirstCode, Count;
      nextCode := new nat[16](_ => 0);
      var code: nat := 0;
      var bits: nat := 1;
      FirstCodeStep(lens, 0);
      while bits <= MAX_BITS
        invariant 1 <= bits <= 16 && code == FirstCode(lens, bits - 1)
        invariant forall b :: 1 <= b < bits ==> nextCode[b] == FirstCode(lens, b)
      {
        FirstCodeStep(lens, bits);
        code := 2 * (code + blCount[bits - 1]);
        nextCode[bits] := code;
        bits := bits + 1;
      }
    }

    /** The first `heapLen` places hold exactly the symbols in `S`, not yet in heap order. */
    ghost predicate Holds(S: set<nat>)
      reads this`heapLen, heap
    {
      heapLen == |S| < heap.Length && multiset(heap[1..heapLen + 1]) == multiset(S)
    }

    /** `maxCode` is the largest symbol in `S`, or -1. */
    static predicate Largest(S: set<nat>, maxCode: int) {
      -1 <= maxCode && (forall a :: a in S ==> a <= maxCode) && if S == {} then maxCode == -1 else maxCode in S
    }

    ghost predicate Collected(t: CtData, d: Desc, S: set<nat>, maxCode: int)
      reads this, heap, depth, t.dl
    {
      && Valid() && Apart(t) && t.Valid(2 * d.elems + 1) && d.Ok()
      && Holds(S) && |S| <= d.elems && heapMax == HEAP_SIZE && Largest(S, maxCode) && maxCode < d.elems
      && (forall x :: 0 <= x < d.elems && x !in S ==> t.dl[x] == 0) && LeafHeights(S, depth[..])
    }

    /** Puts a symbol at the end of the heap. */
    method PushLeaf(x: nat, ghost S: set<nat>)
      requires Valid() && x < HEAP_SIZE && Holds(S) && |S| < HEAP_SIZE - 1 && x !in S
      modifies this`heapLen, heap, depth
      ensures Holds(S + {x}) && |S + {x}| == |S| + 1 && depth[..] == old(depth[..])[x := 0]
    {
      ghost var h := heap[1..heapLen + 1];
      heapLen := heapLen + 1;
      heap[heapLen] := x;
      depth[x] := 0;
      assert heap[1..heapLen + 1] == h + [x];
      assert multiset(S + {x}) == multiset(S) + multiset{x};
    }

    /** Gathers the symbols that occur. */
    method CollectLeaves(t: CtData, d: Desc) returns (maxCode: int)
      requires Valid() && Apart(t) && t.Valid(2 * d.elems + 1) && d.Ok()
      modifies this`heapLen, this`heapMax, heap, depth, t.dl
      ensures Collected(t, d, Symbols(t.fc[..], d.elems), maxCode)
    {
      hide Holds, Symbols, Largest, Desc.Ok, LeafHeights;
      DescSizes(d);
      heapLen := 0;
      heapMax := HEAP_SIZE;
      maxCode := -1;
      var n: nat := 0;
      ghost var w := t.fc[..];
      ghost var S := Symbols(w, 0);
      NoSymbols(w);
      HoldsNothing();
      NoLeaf(S, depth[..]);
      while n < d.elems
        invariant n <= d.elems && heapMax == HEAP_SIZE && t.fc[..] == w
        invariant S == Symbols(w, n) && |S| <= n && Holds(S) && Largest(S, maxCode) && maxCode < n
        invariant LeafHeights(S, depth[..])
        invariant forall x :: 0 <= x < n && x !in S ==> t.dl[x] == 0
      {
        SymbolsNext(w, n);
        SymbolsBelow(w, n);
        LargestNext(S, maxCode, n);
        if t.fc[n] != 0 {
          maxCode := n;
          LeafNext(S, depth[..], n);
          PushLeaf(n, S);
          S := S + {n};
        } else {
          t.dl[n] := 0;
        }
        n := n + 1;
      }
    }

    lemma HoldsSize(S: set<nat>)
      requires Holds(S)
      ensures heapLen == |S|
    {}

    lemma HoldsNothing()
      requires Valid() && heapLen == 0
      ensures Holds({}) && Largest({}, -1)
    {
      assert heap[1..1] == [];
    }

    /** The symbols `fs` have been forced so far. */
    ghost predicate Forcing(t: CtData, d: Desc, w0: seq<nat>, S0: set<nat>, S: set<nat>, fs: seq<nat>, top: int,
                            opt0: nat, static0: nat)
      reads this, heap, depth, t.fc, t.dl
    {
      && Collected(t, d, S, top) && heapLen == |S| && ForcedSet(d, w0, S0, S, fs) && t.fc[..] == ForcedFreq(w0, fs)
      && optLen == U(opt0 - |fs|) && staticLen == U(static0 - ForcedStatic(d, fs))
    }

    /** Gives one more symbol frequency 1. */
    method ForceSymbol(t: CtData, d: Desc, top0: int, ghost w0: seq<nat>, ghost S0: set<nat>, ghost S: set<nat>,
                       ghost fs: seq<nat>,
                       ghost opt0: nat, ghost static0: nat)
      returns (top: int, x: nat)
      requires Forcing(t, d, w0, S0, S, fs, top0, opt0, static0) && heapLen < 2
      modifies this`heapLen, this`optLen, this`staticLen, heap, depth, t.fc
      ensures Forcing(t, d, w0, S0, S + {x}, fs + [x], top, opt0, static0) && heapLen == old(heapLen) + 1
    {
      hide ForcedFreq, ForcedStatic, ForcedSet, Holds, U, LeafHeights;
      top, x := top0, 0;
      if top < 2 {
        top := top + 1;
        x := top;
      }
      assert x !in S by { FreshSymbol(S, top, x); }
      ForcedSetStep(d, w0, S0, S, fs, x);
      ForceOne(d, w0, S0, S, fs, x);
      LeafNext(S, depth[..], x);
      PushLeaf(x, S);
      HoldsSize(S + {x});
      t.fc[x] := 1;
      UAdd(opt0 - |fs|, -1);
      optLen := U(optLen - 1);
      if d.staticLens.Some? {
        ghost var bits: int := d.staticLens.value[x];
        UAdd(static0 - ForcedStatic(d, fs), -bits);
        staticLen := U(staticLen - d.staticLens.value[x]);
      }
    }

    /** Adds symbols of frequency 1 until there are two. */
    method ForceTwo(t: CtData, d: Desc, maxCode0: int, ghost S0: set<nat>)
      returns (maxCode: nat, ghost S: set<nat>, ghost fs: seq<nat>)
      requires Collected(t, d, S0, maxCode0) && S0 == Symbols(t.fc[..], d.elems) && optLen < U32 && staticLen < U32
      modifies this`heapLen, this`optLen, this`staticLen, heap, depth, t.fc
      ensures Forcing(t, d, old(t.fc[..]), S0, S, fs, maxCode, old(optLen), old(staticLen)) && heapLen >= 2
    {
      hide Collected;
      ghost var w0, opt0, static0 := t.fc[..], optLen, staticLen;
      var top := maxCode0;
      S, fs := S0, [];
      StartForcing(t, d, S0, top);
      while heapLen < 2
        invariant Forcing(t, d, w0, S0, S, fs, top, opt0, static0)
        decreases 2 - heapLen
      {
        var x;
        top, x := ForceSymbol(t, d, top, w0, S0, S, fs, opt0, static0);
        S := S + {x};
        fs := fs + [x];
      }
      TopIsSymbol(t, d, S, top);
      maxCode := top;
    }

    lemma StartForcing(t: CtData, d: Desc, S0: set<nat>, top: int)
      requires Collected(t, d, S0, top) && S0 == Symbols(t.fc[..], d.elems) && optLen < U32 && staticLen < U32
      ensures Forcing(t, d, t.fc[..], S0, S0, [], top, optLen, staticLen)
    {
      HoldsSize(S0);
      NothingForced(t.fc[..], d);
    }

    lemma TopIsSymbol(t: CtData, d: Desc, S: set<nat>, top: int)
      requires Collected(t, d, S, top) && |S| > 0
      ensures top >= 0
    {}

    /** Brings the gathered symbols into heap order. */
    method Heapify(t: CtData, ghost S: set<nat>)
      requires Valid() && Apart(t) && t.fc.Length <= HEAP_SIZE && Holds(S) && forall a :: a in S ==> a < t.fc.Length
      requires heapLen >= 1
      modifies heap
      ensures HeapIs(t, S)
    {
      hide Nodes, Ordered, SamePart, Contents;
      ghost var f, d, m := t.fc[..], depth[..], multiset(heap[1..heapLen + 1]);
      SymbolsAreNodes(heap[..], heapLen, f, d, S);
      LeavesOrdered(heap[..], heapLen, f, d);
      var n: nat := heapLen / 2;
      assert heap[1..heapLen + 1] == heap[..][1..heapLen + 1];
      assert Contents(heap[..], heapLen, m) by { ContentsAre(heap[..], heapLen, m); }
      while n >= 1
        invariant n <= heapLen / 2 && t.fc[..] == f && depth[..] == d
        invariant Nodes(heap[..], heapLen, f, d) && Ordered(heap[..], heapLen, n + 1, f, d)
        invariant Contents(heap[..], heapLen, m)
      {
        ghost var h := heap[..];
        PqDownHeap(t, n);
        SameContents(h, heap[..], heapLen, n, m);
        n := n - 1;
      }
      ContentsAre(heap[..], heapLen, m);
      assert heap[1..heapLen + 1] == heap[..][1..heapLen + 1];
    }

    /** Merges until one root is left, which becomes the head of the sorted list. */
    method MergeAll(t: CtData, d: Desc, ghost S: set<nat>, ghost z: nat, ghost T: nat) returns (ghost ms: seq<Merge>)
      requires Valid() && Apart(t) && t.Valid(2 * d.elems + 1) && d.Ok() && HeapIs(t, S) && heapMax == HEAP_SIZE
      requires heapLen == |S| <= d.elems && 2 <= |S| && T < 0x10000
      requires Grown(S, d.elems, t.fc[..], [], t.dl[..], z, T) && Risen(S, d.elems, t.fc[..], [], depth[..])
      modifies this`heapLen, this`heapMax, heap, depth, t.fc, t.dl
      ensures heapMax < HEAP_SIZE && Built(S, d.elems, t.fc[..], ms, heap[heapMax..], t.dl[..], z)
      ensures Greedy(S, t.fc[..], ms) && Risen(S, d.elems, t.fc[..], ms, depth[..])
      ensures t.fc[..d.elems] == old(t.fc[..d.elems])
    {
      hide Risen, Grown, HeapIs, Active, Pairs, Built, Greedy;
      ms := [];
      var node := d.elems;
      StartGrowing(t, d, S, z, T);
      while heapLen >= 2
        invariant Growing(t, d, S, ms, z, T) && node == d.elems + |ms|
        invariant t.fc[..d.elems] == old(t.fc[..d.elems])
        decreases heapLen
      {
        ms := MergeTwo(t, d, node, S, ms, z, T);
        node := node + 1;
      }
      ghost var P := heap[heapMax..];
      LastRoot(t, d, S, ms, z, T);
      heapMax := heapMax - 1;
      heap[heapMax] := heap[1];
      assert heap[heapMax..] == [heap[1]] + P;
    }

    lemma StartGrowing(t: CtData, d: Desc, S: set<nat>, z: nat, T: nat)
      requires Valid() && Apart(t) && t.Valid(2 * d.elems + 1) && d.Ok() && HeapIs(t, S) && heapMax == HEAP_SIZE
      requires heapLen == |S| <= d.elems && 2 <= |S|
      requires Grown(S, d.elems, t.fc[..], [], t.dl[..], z, T) && Risen(S, d.elems, t.fc[..], [], depth[..])
      ensures Growing(t, d, S, [], z, T)
    {
      assert heap[HEAP_SIZE..] == [];
    }

    lemma LastRoot(t: CtData, d: Desc, S: set<nat>, ms: seq<Merge>, z: nat, T: nat)
      requires Growing(t, d, S, ms, z, T) && heapLen == 1 && |S| >= 2
      ensures Built(S, d.elems, t.fc[..], ms, [heap[1]] + Pairs(ms), t.dl[..], z) && Greedy(S, t.fc[..], ms)
      ensures Risen(S, d.elems, t.fc[..], ms, depth[..]) && heapMax > 1
    {
      assert heap[1..2] == [heap[1]];
      var A := Active(S, ms);
      assert multiset(A) == multiset{heap[1]};
      assert A == {heap[1]} by { OnlyOne(A, heap[1]); }
      GrownFinished(S, d.elems, t.fc[..], ms, t.dl[..], z, T, heap[1]);
    }

    /**
     * Builds a Huffman tree for the frequencies in `t` and assigns lengths and codes. No prefix code
     * is cheaper unless some length is the longest one allowed, which takes many symbols.
     */
    method BuildTree(t: CtData, d: Desc) returns (maxCode: nat, ghost tree: Tree)
      requires Valid() && Apart(t) && t.Valid(2 * d.elems + 1) && d.Ok() && optLen < U32 && staticLen < U32
      requires SumSet(Symbols(t.fc[..], d.elems), t.fc[..]) + 2 < 0x10000
      modifies this`heapLen, this`heapMax, this`optLen, this`staticLen, heap, depth, blCount, t.fc, t.dl
      ensures maxCode < d.elems && GoodTree(d, old(t.fc[..]), t.dl[..maxCode + 1])
      ensures forall x :: maxCode < x < d.elems ==> t.dl[x] == 0
      ensures CodesOf(t.fc[..], t.dl[..maxCode + 1])
      ensures optLen == U(old(optLen) + Cost(d, old(t.fc[..]), t.dl[..maxCode + 1]))
      ensures staticLen == U(old(staticLen) + StaticCost(d, old(t.fc[..]), t.dl[..maxCode + 1]))
      ensures HuffmanFor(d, old(t.fc[..]), t.dl[..maxCode + 1], tree)
      ensures var S := Symbols(old(t.fc[..]), d.elems);
              Optimal(d, old(t.fc[..]), t.dl[..maxCode + 1]) <==> S == {} || (|S| >= 2 && CutOff(d, tree) == 0)
      ensures |Symbols(old(t.fc[..]), d.elems)| >= 2 && (forall x :: 0 <= x <= maxCode ==> t.dl[x] < d.maxLength) ==>
                Optimal(d, old(t.fc[..]), t.dl[..maxCode + 1])
      ensures |Symbols(old(t.fc[..]), d.elems)| >= 2
              && SumSet(Symbols(old(t.fc[..]), d.elems), old(t.fc[..])) < Fib(d.maxLength + 3) ==>
                Optimal(d, old(t.fc[..]), t.dl[..maxCode + 1])
    {
      hide HuffmanFor, CutAt, Fib, Risen, CutOff;
      hide Symbols, Collected, Forcing, HeapIs, Grown, Built, Greedy, Coded, GoodTree, Cost, StaticCost, Count;
      hide Kraft, SumSet;
      hide LengthsOf, Excess, CodesOf, Optimal, Pairs, Finished, GoodLengths, ForcedSet;
      ghost var w0, opt0, static0 := t.fc[..], optLen, staticLen;
      ghost var S0 := Symbols(w0, d.elems);
      var top := CollectLeaves(t, d);
      ghost var S, fs;
      maxCode, S, fs := ForceTwo(t, d, top, S0);
      ghost var z, T := maxCode + 1, SumSet(S, t.fc[..]);
      ForcedReady(t, d, w0, S0, S, fs, maxCode, opt0, static0);
      Heapify(t, S);
      ghost var ms := MergeAll(t, d, S, z, T);
      ghost var w, o, D0 := t.fc[..], heap[heapMax..], t.dl[..];
      var overflow;
      ghost var D;
      overflow, D := GenBitLen(t, d, maxCode, S, ms, w);
      ghost var lens := t.dl[..z];
      BuiltFinished(S, d.elems, w, ms, o, D0, z);
      tree := Tree(S, w, ms, D, fs, depth[..]);
      TreeBuilt(d, w0, lens, tree, opt0, static0, optLen, staticLen);
      GenCodes(t, maxCode);
      assert t.dl[..z] == lens;
    }

    /** After forcing everything is in place for the merging. */
    lemma ForcedReady(t: CtData, d: Desc, w0: seq<nat>, S0: set<nat>, S: set<nat>, fs: seq<nat>, maxCode: nat,
                      opt0: nat, static0: nat)
      requires Forcing(t, d, w0, S0, S, fs, maxCode, opt0, static0) && heapLen >= 2
      requires SumSet(Symbols(w0, d.elems), w0) + 2 < 0x10000
      ensures Holds(S) && heapLen == |S| <= d.elems && heapMax == HEAP_SIZE && maxCode < d.elems
      ensures maxCode in S && forall a :: a in S ==> a <= maxCode
      ensures 0 <= SumSet(S, t.fc[..]) < 0x10000
      ensures Grown(S, d.elems, t.fc[..], [], t.dl[..], maxCode + 1, SumSet(S, t.fc[..]))
      ensures Risen(S, d.elems, t.fc[..], [], depth[..])
      ensures ForcedSet(d, w0, S0, S, fs) && t.fc[..] == ForcedFreq(w0, fs)
      ensures optLen == U(opt0 - |fs|) && staticLen == U(static0 - ForcedStatic(d, fs))
    {
      hide SumSet, ForcedFreq, ForcedStatic, Holds, Symbols, ForcedSet;
      ForcedTotal(d, w0, S0, S, fs);
      ForcedFew(d, w0, S0, S, fs);
      ForcedPositive(d, w0, S0, S, fs);
      GrownStart(S, d.elems, t.fc[..], t.dl[..], maxCode + 1);
    }

    lemma ForcedFew(d: Desc, w0: seq<nat>, S0: set<nat>, S: set<nat>, fs: seq<nat>)
      requires ForcedSet(d, w0, S0, S, fs)
      ensures |fs| <= 2 && S0 == Symbols(w0, d.elems)
    {}

    function IsSmaller(t: CtData, n: nat, m: nat): (b: bool)
      reads t.fc, depth
      requires n < t.fc.Length && m < t.fc.Length && t.fc.Length <= depth.Length
      ensures b == Smaller(t.fc[..], depth[..], n, m)
    {
      t.fc[n] < t.fc[m] || (t.fc[n] == t.fc[m] && depth[n] <= depth[m])
    }
  }

  lemma TopIsLeast(h: seq<nat>, len: nat, f: seq<nat>, d: seq<nat>, A: set<nat>)
    requires Nodes(h, len, f, d) && Ordered(h, len, 1, f, d) && len >= 1
    requires multiset(h[1..len + 1]) == multiset(A)
    ensures h[1] in A && Least(A, f, h[1]) && Lowest(A, f, d, h[1])
  {
    assert h[1..len + 1][0] == h[1];
    assert h[1] in multiset(h[1..len + 1]);
    forall a | a in A
      ensures a < |f| && a < |d| && f[h[1]] <= f[a] && (f[a] == f[h[1]] ==> d[h[1]] <= d[a])
    {
      assert a in multiset(A);
      assert a in h[1..len + 1];
      var i :| 0 <= i < len && h[1..len + 1][i] == a;
      RootFirst(h, len, f, d, i + 1);
    }
  }

  lemma LastToTop(h: seq<nat>, len: nat, f: seq<nat>, d: seq<nat>, A: set<nat>)
    requires Nodes(h, len, f, d) && Ordered(h, len, 1, f, d) && len >= 2
    requires multiset(h[1..len + 1]) == multiset(A)
    ensures var g := h[1 := h[len]];
            && Nodes(g, len - 1, f, d) && Ordered(g, len - 1, 2, f, d)
            && multiset(g[1..len]) == multiset(A - {h[1]})
  {
    var g := h[1 := h[len]];
    assert h[1..len + 1] == [h[1]] + h[2..len] + [h[len]];
    assert g[1..len] == [h[len]] + h[2..len];
    assert multiset(h[1..len + 1]) == multiset{h[1]} + multiset(g[1..len]);
    WithoutOne(A, h[1], multiset(g[1..len]));
  }

  lemma WithoutOne(A: set<nat>, x: nat, M: multiset<nat>)
    requires multiset(A) == multiset{x} + M
    ensures M == multiset(A - {x})
  {
    assert x in multiset(A);
    forall y
      ensures M[y] == multiset(A - {x})[y]
    {
      assert multiset(A)[y] == multiset{x}[y] + M[y];
    }
  }

  lemma NewTop(h: seq<nat>, len: nat, f: seq<nat>, d: seq<nat>, A: set<nat>, node: nat)
    requires Nodes(h, len, f, d) && Ordered(h, len, 1, f, d) && len >= 1 && node < |f| && node < |d|
    requires multiset(h[1..len + 1]) == multiset(A) && node !in A
    ensures var g := h[1 := node];
            && Nodes(g, len, f, d) && Ordered(g, len, 2, f, d)
            && multiset(g[1..len + 1]) == multiset(A - {h[1]} + {node})
  {
    var g := h[1 := node];
    assert h[1..len + 1] == [h[1]] + h[2..len + 1];
    assert g[1..len + 1] == [node] + h[2..len + 1];
    WithoutOne(A, h[1], multiset(h[2..len + 1]));
    assert multiset(A - {h[1]} + {node}) == multiset(A - {h[1]}) + multiset{node};
  }

  lemma TreeIsGood(d: Desc, w: seq<nat>, lens: seq<nat>)
    ensures GoodTree(d, w, lens) ==> GoodLengths(lens)
  {}

  /** The totals after forcing and building are those of the real frequencies. */
  lemma TreeTotals(d: Desc, w0: seq<nat>, fs: seq<nat>, w: seq<nat>, lens: seq<nat>, opt0: nat, static0: nat,
                   c: nat, c0: nat,
                   s: nat, s0: nat, f: nat)
    requires c == c0 + |fs| && s == s0 + f
    ensures U(U(opt0 - |fs|) + c) == U(opt0 + c0)
    ensures U(U(static0 - f) + s) == U(static0 + s0)
  {
    UAdd(opt0 - |fs|, c);
    UAdd(static0 - f, s);
  }

  /** The lengths and totals of a finished tree are those of the frequencies before anything was forced. */
  lemma TreeBuilt(d: Desc, f: seq<nat>, lens: seq<nat>, t: Tree, opt0: nat, static0: nat, opt: nat, stat: nat)
    requires d.Ok() && d.elems <= |f| && d.elems + |t.ms| <= |t.w| == |t.depths|
    requires ForcedSet(d, f, Symbols(f, d.elems), t.leaves, t.forced) && |t.leaves| >= 2
    requires t.w[..d.elems] == ForcedFreq(f, t.forced)[..d.elems]
    requires Finished(t.leaves, d.elems, t.w, t.ms) && Greedy(t.leaves, t.w, t.ms)
    requires Risen(t.leaves, d.elems, t.w, t.ms, t.heights)
    requires 0 < |lens| <= d.elems && |lens| - 1 in t.leaves && forall a :: a in t.leaves ==> a < |lens|
    requires Coded(t.leaves, lens, d.maxLength) && CutAt(t.leaves, t.ms, t.depths, d.maxLength, lens)
    requires opt == U(U(opt0 - |t.forced|) + Cost(d, t.w, lens))
    requires stat == U(U(static0 - ForcedStatic(d, t.forced)) + StaticCost(d, t.w, lens))
    ensures GoodTree(d, f, lens) && GoodLengths(lens) && HuffmanFor(d, f, lens, t)
    ensures |lens| <= d.extraBase + |d.extraBits| && t.ms != [] && LengthsOf(t.ms, t.depths, d.maxLength)
    ensures var S := Symbols(f, d.elems);
            Optimal(d, f, lens) <==> S == {} || (|S| >= 2 && CutOff(d, t) == 0)
    ensures opt == U(opt0 + Cost(d, f, lens)) && stat == U(static0 + StaticCost(d, f, lens))
    ensures |Symbols(f, d.elems)| >= 2 && (forall x :: 0 <= x < |lens| ==> lens[x] < d.maxLength) ==>
              Optimal(d, f, lens)
    ensures |Symbols(f, d.elems)| >= 2 && SumSet(Symbols(f, d.elems), f) < Fib(d.maxLength + 3) ==>
              Optimal(d, f, lens)
  {
    hide *;
    DescSizes(d);
    TreeCosts(d, f, lens, t, opt0, static0, opt, stat);
    IsHuffman(d, f, lens, t);
    HuffmanIs(d, f, lens, t);
    OptimalExactly(d, f, lens, t);
    OptimalWhen(d, f, lens, t);
  }

  lemma TreeCosts(d: Desc, f: seq<nat>, lens: seq<nat>, t: Tree, opt0: nat, static0: nat, opt: nat, stat: nat)
    requires d.Ok() && d.elems <= |f| && d.elems <= |t.w|
    requires ForcedSet(d, f, Symbols(f, d.elems), t.leaves, t.forced) && |t.leaves| >= 2
    requires t.w[..d.elems] == ForcedFreq(f, t.forced)[..d.elems]
    requires 0 < |lens| <= d.elems && (forall a :: a in t.leaves ==> a < |lens|) && Coded(t.leaves, lens, d.maxLength)
    requires opt == U(U(opt0 - |t.forced|) + Cost(d, t.w, lens))
    requires stat == U(U(static0 - ForcedStatic(d, t.forced)) + StaticCost(d, t.w, lens))
    ensures GoodTree(d, f, lens) && GoodLengths(lens)
    ensures opt == U(opt0 + Cost(d, f, lens)) && stat == U(static0 + StaticCost(d, f, lens))
  {
    hide Symbols, Coded, ForcedSet, ForcedFreq, ForcedStatic, Cost, StaticCost, GoodTree, GoodLengths, Desc.Ok, U;
    var S0, fs := Symbols(f, d.elems), t.forced;
    ForcedPlain(d, f, S0, t.leaves, fs);
    ForcedResult(d, f, fs, S0, t.leaves, t.w, lens);
    TreeIsGood(d, f, lens);
    TreeTotals(d, f, fs, t.w, lens, opt0, static0, Cost(d, t.w, lens), Cost(d, f, lens),
               StaticCost(d, t.w, lens), StaticCost(d, f, lens), ForcedStatic(d, fs));
  }

  lemma OnlyOne(A: set<nat>, x: nat)
    requires multiset(A) == multiset{x}
    ensures A == {x}
  {
    forall y
      ensures y in A <==> y == x
    {
      assert y in A <==> y in multiset(A);
    }
  }

  lemma SymbolsAreNodes(h: seq<nat>, len: nat, f: seq<nat>, d: seq<nat>, S: set<nat>)
    requires len < |h| && multiset(h[1..len + 1]) == multiset(S) && forall a :: a in S ==> a < |f| && a < |d|
    ensures Nodes(h, len, f, d)
  {
    forall i | 1 <= i <= len
      ensures h[i] < |f| && h[i] < |d|
    {
      assert h[1..len + 1][i - 1] == h[i];
      assert h[i] in multiset(h[1..len + 1]);
    }
  }

  /** The second half of a heap has no sons. */
  lemma LeavesOrdered(h: seq<nat>, len: nat, f: seq<nat>, d: seq<nat>)
    requires Nodes(h, len, f, d)
    ensures Ordered(h, len, len / 2 + 1, f, d)
  {}

  lemma DescSizes(d: Desc)
    requires d.Ok()
    ensures 3 <= d.elems <= L_CODES && 1 <= d.maxLength <= MAX_BITS
  {}

  lemma NoLeaf(S: set<nat>, H: seq<nat>)
    requires S == {}
    ensures LeafHeights(S, H)
  {}

  lemma LeafNext(S: set<nat>, H: seq<nat>, x: nat)
    requires LeafHeights(S, H) && x < |H|
    ensures LeafHeights(S + {x}, H[x := 0])
  {}

  lemma NoSymbols(w: seq<nat>)
    ensures Symbols(w, 0) == {}
  {}

  lemma SymbolsBelow(w: seq<nat>, n: nat)
    requires n < |w|
    ensures n !in Symbols(w, n)
  {}

  lemma LargestNext(S: set<nat>, maxCode: int, n: nat)
    requires Workspace.Largest(S, maxCode) && maxCode < n
    ensures Workspace.Largest(S + {n}, n)
  {}

  lemma FreshSymbol(S: set<nat>, top: int, x: nat)
    requires |S| < 2 && (forall a :: a in S ==> a <= top)
    requires (top in S && top >= 2 && x == 0) || (x == top && x !in S)
    ensures x !in S
  {
    if top in S && top >= 2 && x == 0 {
      var rest := S - {top};
      assert |rest| == |S| - 1;
      assert rest == {};
    }
  }

  lemma ForceOne(d: Desc, w: seq<nat>, S0: set<nat>, S: set<nat>, fs: seq<nat>, x: nat)
    requires ForcedSet(d, w, S0, S, fs) && x < 3 && x < |w|
    ensures ForcedOk(d, w, fs) && (forall i :: 0 <= i < |fs + [x]| ==> (fs + [x])[i] < |w|)
    ensures ForcedFreq(w, fs + [x]) == ForcedFreq(w, fs)[x := 1]
    ensures d.staticLens.Some? ==> forall i :: 0 <= i < |fs + [x]| ==> (fs + [x])[i] < |d.staticLens.value|
    ensures ForcedStatic(d, fs + [x]) == ForcedStatic(d, fs) + if d.staticLens.Some? then d.staticLens.value[x] else 0
  {
    assert (fs + [x])[..|fs|] == fs;
  }

  /** `c` is the code of symbol `i`, bits reversed. */
  predicate CodeAt(c: nat, lens: seq<nat>, i: nat)
    requires i < |lens|
  {
    c < Pow2(lens[i]) && Lsb(c, lens[i]) == Code(lens, i)
  }

  predicate CodesOf(fc: seq<nat>, lens: seq<nat>) {
    |lens| <= |fc| && forall i :: 0 <= i < |lens| && lens[i] > 0 ==> CodeAt(fc[i], lens, i)
  }

  /** The bits of a code, in the order they are sent. */
  method CodeBits(ghost lens: seq<nat>, ghost i: nat, c: nat, len: nat) returns (r: nat)
    requires GoodLengths(lens) && i < |lens| && len == lens[i] && 1 <= len <= MAX_BITS
    requires c == FirstCode(lens, len) + Count(lens[..i], len)
    ensures CodeAt(r, lens, i)
  {
    hide FirstCode, Count, Kraft, Code, CodeOf, Lsb, Msb;
    CodeFits(lens, i);
    CodeIs(lens, i);
    r := BiReverse(c, len);
  }

  lemma NoCounts(lens: seq<nat>)
    ensures forall b :: 1 <= b <= MAX_BITS ==> Count(lens[..0], b) == 0
  {
    forall b | 1 <= b <= MAX_BITS
      ensures Count(lens[..0], b) == 0
    {
      NothingUsed(lens[..0], b);
    }
  }

  lemma GoodAt(lens: seq<nat>, i: nat)
    requires GoodLengths(lens) && i < |lens|
    ensures lens[i] <= MAX_BITS
  {}

  lemma CodeIs(lens: seq<nat>, i: nat)
    requires i < |lens|
    ensures CodeOf(lens, i) == FirstCode(lens, lens[i]) + Count(lens[..i], lens[i])
    ensures Code(lens, i) == Msb(CodeOf(lens, i), lens[i])
  {}

  lemma FirstCodeStep(lens: seq<nat>, b: nat)
    ensures FirstCode(lens, b) == if b <= 1 then 0 else 2 * (FirstCode(lens, b - 1) + Count(lens, b - 1))
  {}

  lemma CountNext(lens: seq<nat>, n: nat, b: nat)
    requires n < |lens|
    ensures Count(lens[..n + 1], b) == Count(lens[..n], b) + if lens[n] == b then 1 else 0
  {
    assert lens[..n + 1][..n] == lens[..n];
  }

  lemma Spread(f: nat, l: nat, k: nat, x: nat)
    requires l > 0 && k > 0
    ensures Term(f, k, x) - Term(f, l, x) == (k - l) * f
  {
    Distribute(k - l, l + x, f);
  }

  lemma NothingToRepair(c: seq<nat>, L: nat)
    requires |c| == MAX_BITS + 1 && 1 <= L <= MAX_BITS
    ensures Repaired(c, L, 0) == c
  {}

  lemma MoveLeafIs(c: seq<nat>, bits: nat, L: nat)
    requires |c| == MAX_BITS + 1 && 1 <= bits < L <= MAX_BITS && c[bits] > 0 && c[L] > 0
    ensures var c1 := c[bits := c[bits] - 1];
            var c2 := c1[bits + 1 := c1[bits + 1] + 2];
            MoveLeaf(c, bits, L) == c2[L := c2[L] - 1]
  {}

  /** Only places from `k0` to `len` have been permuted. */
  ghost predicate SamePart(h0: seq<nat>, h: seq<nat>, len: nat, k0: nat) {
    && len < |h0| == |h|
    && multiset(h[1..len + 1]) == multiset(h0[1..len + 1])
    && forall i :: 0 <= i < |h| && (i < k0 || i > len) ==> h[i] == h0[i]
  }

  ghost predicate Contents(h: seq<nat>, len: nat, m: multiset<nat>) {
    len < |h| && multiset(h[1..len + 1]) == m
  }

  lemma ContentsAre(h: seq<nat>, len: nat, m: multiset<nat>)
    requires len < |h|
    ensures Contents(h, len, m) <==> multiset(h[1..len + 1]) == m
  {}

  lemma SameContents(h0: seq<nat>, h: seq<nat>, len: nat, k0: nat, m: multiset<nat>)
    requires SamePart(h0, h, len, k0) && Contents(h0, len, m)
    ensures Contents(h, len, m)
  {}

  lemma SameStart(h: seq<nat>, len: nat, k0: nat)
    requires len < |h|
    ensures SamePart(h, h, len, k0)
  {}

  lemma SwapSame(h0: seq<nat>, h: seq<nat>, len: nat, k0: nat, i: nat, j: nat)
    requires SamePart(h0, h, len, k0) && 1 <= k0 <= i < j <= len
    ensures SamePart(h0, Swap(h, i, j), len, k0)
  {
    SwapPermutes(h, len, i, j);
  }

  lemma NodeAt(h: seq<nat>, len: nat, f: seq<nat>, d: seq<nat>, i: nat)
    requires Nodes(h, len, f, d) && 1 <= i <= len
    ensures i < |h| && h[i] < |f| && h[i] < |d|
  {}

  lemma StartSinking(h: seq<nat>, len: nat, k0: nat, f: seq<nat>, d: seq<nat>)
    requires Nodes(h, len, f, d) && 1 <= k0 <= len && Ordered(h, len, k0 + 1, f, d)
    ensures Sinking(h, len, k0, k0, f, d)
  {}

  lemma PickSon(h: seq<nat>, len: nat, k: nat, first: nat, f: seq<nat>, d: seq<nat>)
    requires Nodes(h, len, f, d) && 1 <= k && 2 * k <= len
    requires first == if 2 * k < len && Smaller(f, d, h[2 * k + 1], h[2 * k]) then 2 * k + 1 else 2 * k
    ensures FirstSon(h, len, k, first, f, d)
  {}
}
