/** Bookkeeping of code lengths: how many of each, how full the code space is, what they cost. */
module CodeLengths {
  import opened Wrappers
  import opened Numbers
  import opened Canonical

  const L_CODES := 286

  /** 32-bit unsigned arithmetic. */
  function U(v: int): (r: nat)
    ensures r < U32
  {
    v % U32
  }

  lemma UAdd(a: int, b: int)
    ensures U(U(a) + b) == U(a + b)
  {}

  /** The fixed part of a tree descriptor. */
  datatype Desc = Desc(extraBits: seq<nat>, extraBase: nat, elems: nat, maxLength: nat, staticLens: Option<seq<nat>>) {
    predicate Ok() {
      && 3 <= elems <= extraBase + |extraBits| && elems <= L_CODES
      && (forall i :: 0 <= i < 3 ==> Extra(i) == 0)
      && 1 <= maxLength <= MAX_BITS && elems <= Pow2(maxLength)
      && (staticLens.Some? ==> elems <= |staticLens.value|)
    }

    function Extra(n: nat): nat
      requires n < extraBase + |extraBits|
    {
      if n >= extraBase then extraBits[n - extraBase] else 0
    }
  }

  /** Bits spent on a symbol of frequency `f` with a code of `l` bits and `x` extra bits. */
  function Term(f: nat, l: nat, x: nat): nat {
    if l == 0 then 0 else f * (l + x)
  }

  /** Bits spent on all symbols of a block. */
  function Cost(d: Desc, w: seq<nat>, l: seq<nat>): nat
    requires |l| <= |w| && |l| <= d.extraBase + |d.extraBits|
  {
    if l == [] then 0
    else var n := |l| - 1; Cost(d, w, l[..n]) + Term(w[n], l[n], d.Extra(n))
  }

  lemma {:induction false} CostUpdate(d: Desc, w: seq<nat>, l: seq<nat>, i: nat, v: nat)
    requires i < |l| <= |w| && |l| <= d.extraBase + |d.extraBits|
    ensures Cost(d, w, l[i := v]) == Cost(d, w, l) - Term(w[i], l[i], d.Extra(i)) + Term(w[i], v, d.Extra(i))
  {
    hide Term;
    var n := |l| - 1;
    if i == n {
      assert l[i := v][..n] == l[..n];
    } else {
      assert l[i := v][..n] == l[..n][i := v];
      CostUpdate(d, w, l[..n], i, v);
    }
  }

  /** Bits the symbols coded in `l` would take with the static codes. */
  function StaticCost(d: Desc, w: seq<nat>, l: seq<nat>): nat
    requires |l| <= |w| && |l| <= d.extraBase + |d.extraBits|
    requires d.staticLens.Some? ==> |l| <= |d.staticLens.value|
  {
    if l == [] || d.staticLens.None? then 0
    else
      var n := |l| - 1;
      StaticCost(d, w, l[..n]) + if l[n] == 0 then 0 else w[n] * (d.staticLens.value[n] + d.Extra(n))
  }

  lemma {:induction false} StaticCostSet(d: Desc, w: seq<nat>, l: seq<nat>, i: nat, v: nat)
    requires i < |l| <= |w| && |l| <= d.extraBase + |d.extraBits|
    requires d.staticLens.Some? && |l| <= |d.staticLens.value|
    requires l[i] == 0 && v > 0
    ensures StaticCost(d, w, l[i := v]) == StaticCost(d, w, l) + w[i] * (d.staticLens.value[i] + d.Extra(i))
  {
    var n := |l| - 1;
    if i == n {
      assert l[i := v][..n] == l[..n];
    } else {
      assert l[i := v][..n] == l[..n][i := v];
      StaticCostSet(d, w, l[..n], i, v);
    }
  }

  /** Which symbols have codes is all the static cost depends on. */
  lemma {:induction false} StaticCostSame(d: Desc, w: seq<nat>, l: seq<nat>, k: seq<nat>)
    requires |l| == |k| <= |w| && |l| <= d.extraBase + |d.extraBits|
    requires d.staticLens.Some? ==> |l| <= |d.staticLens.value|
    requires forall i :: 0 <= i < |l| ==> (l[i] == 0 <==> k[i] == 0)
    ensures StaticCost(d, w, l) == StaticCost(d, w, k)
  {
    if l != [] {
      StaticCostSame(d, w, l[..|l| - 1], k[..|l| - 1]);
    }
  }

  lemma NoStatic(d: Desc, w: seq<nat>, l: seq<nat>)
    requires |l| <= |w| && |l| <= d.extraBase + |d.extraBits| && d.staticLens.None?
    ensures StaticCost(d, w, l) == 0
  {}

  lemma {:induction false} CountUpdate(l: seq<nat>, i: nat, v: nat, b: nat)
    requires i < |l|
    ensures Count(l[i := v], b) == Count(l, b) - (if l[i] == b then 1 else 0) + if v == b then 1 else 0
  {
    var n := |l| - 1;
    if i == n {
      assert l[i := v][..n] == l[..n];
    } else {
      assert l[i := v][..n] == l[..n][i := v];
      CountUpdate(l[..n], i, v, b);
    }
  }

  /** How many symbols have a code. */
  function Used(l: seq<nat>): nat {
    if l == [] then 0 else Used(l[..|l| - 1]) + if l[|l| - 1] > 0 then 1 else 0
  }

  lemma {:induction false} UsedUpdate(l: seq<nat>, i: nat, v: nat)
    requires i < |l|
    ensures Used(l[i := v]) == Used(l) - (if l[i] > 0 then 1 else 0) + if v > 0 then 1 else 0
  {
    var n := |l| - 1;
    if i == n {
      assert l[i := v][..n] == l[..n];
    } else {
      assert l[i := v][..n] == l[..n][i := v];
      UsedUpdate(l[..n], i, v);
    }
  }

  lemma {:induction false} UsedBound(l: seq<nat>)
    ensures Used(l) <= |l|
  {
    if l != [] { UsedBound(l[..|l| - 1]); }
  }

  lemma {:induction false} NothingUsed(l: seq<nat>, b: nat)
    requires forall i :: 0 <= i < |l| ==> l[i] == 0
    ensures Used(l) == 0 && (b > 0 ==> Count(l, b) == 0)
  {
    if l != [] { NothingUsed(l[..|l| - 1], b); }
  }

  lemma {:induction false} NoCost(d: Desc, w: seq<nat>, l: seq<nat>)
    requires |l| <= |w| && |l| <= d.extraBase + |d.extraBits|
    requires d.staticLens.Some? ==> |l| <= |d.staticLens.value|
    requires forall i :: 0 <= i < |l| ==> l[i] == 0
    ensures Cost(d, w, l) == 0 && StaticCost(d, w, l) == 0
  {
    if l != [] { NoCost(d, w, l[..|l| - 1]); }
  }

  // ---------- the counts of code lengths ----------

  /** The part of the code space taken by lengths below `b`, from the counts `c`. */
  function Filled(c: seq<nat>, b: nat): nat
    requires |c| == MAX_BITS + 1 && b <= MAX_BITS + 1
  {
    if b <= 1 then 0 else Filled(c, b - 1) + Shl(c[b - 1], MAX_BITS - (b - 1))
  }

  /** How many codes have lengths below `b`. */
  function Total(c: seq<nat>, b: nat): nat
    requires |c| == MAX_BITS + 1 && b <= MAX_BITS + 1
  {
    if b <= 1 then 0 else Total(c, b - 1) + c[b - 1]
  }

  lemma {:induction false} FilledIsBelow(c: seq<nat>, l: seq<nat>, b: nat)
    requires |c| == MAX_BITS + 1 && b <= MAX_BITS + 1
    requires forall i :: 1 <= i < b ==> c[i] == Count(l, i)
    ensures Filled(c, b) == Below(l, b)
  {
    if b > 1 { FilledIsBelow(c, l, b - 1); }
  }

  lemma {:induction false} FilledUpdate(c: seq<nat>, i: nat, v: nat, b: nat)
    requires |c| == MAX_BITS + 1 && 1 <= i < b <= MAX_BITS + 1
    ensures Filled(c[i := v], b) + Shl(c[i], MAX_BITS - i) == Filled(c, b) + Shl(v, MAX_BITS - i)
  {
    hide Shl;
    if i < b - 1 {
      FilledUpdate(c, i, v, b - 1);
    } else {
      FilledFrame(c, i, v, b - 1);
    }
  }

  lemma {:induction false} FilledFrame(c: seq<nat>, i: nat, v: nat, b: nat)
    requires |c| == MAX_BITS + 1 && b <= i <= MAX_BITS
    ensures Filled(c[i := v], b) == Filled(c, b) && Total(c[i := v], b) == Total(c, b)
  {
    if b > 1 { FilledFrame(c, i, v, b - 1); }
  }

  lemma {:induction false} TotalUpdate(c: seq<nat>, i: nat, v: nat, b: nat)
    requires |c| == MAX_BITS + 1 && 1 <= i < b <= MAX_BITS + 1
    ensures Total(c[i := v], b) + c[i] == Total(c, b) + v
  {
    if i < b - 1 {
      TotalUpdate(c, i, v, b - 1);
    } else {
      FilledFrame(c, i, v, b - 1);
    }
  }

  /** How many symbols have a length from 1 up to but not including `b`. */
  function Shorter(l: seq<nat>, b: nat): nat {
    if b <= 1 then 0 else Shorter(l, b - 1) + Count(l, b - 1)
  }

  lemma {:induction false} ShorterSnoc(l: seq<nat>, b: nat)
    requires l != []
    ensures Shorter(l, b) == Shorter(l[..|l| - 1], b) + if 0 < l[|l| - 1] < b then 1 else 0
  {
    if b > 1 { ShorterSnoc(l, b - 1); }
  }

  lemma {:induction false} ShorterAll(l: seq<nat>)
    requires LensOk(l)
    ensures Shorter(l, MAX_BITS + 1) == Used(l)
  {
    hide Shorter;
    if l == [] {
      ShorterNone(MAX_BITS + 1);
    } else {
      ShorterSnoc(l, MAX_BITS + 1);
      ShorterAll(l[..|l| - 1]);
    }
  }

  lemma {:induction false} ShorterNone(b: nat)
    ensures Shorter([], b) == 0
  {
    if b > 1 { ShorterNone(b - 1); }
  }

  lemma {:induction false} TotalIsShorter(c: seq<nat>, l: seq<nat>, b: nat)
    requires |c| == MAX_BITS + 1 && b <= MAX_BITS + 1
    requires forall i :: 1 <= i < b ==> c[i] == Count(l, i)
    ensures Total(c, b) == Shorter(l, b)
  {
    if b > 1 { TotalIsShorter(c, l, b - 1); }
  }

  lemma {:induction false} TotalZero(c: seq<nat>, b: nat)
    requires |c| == MAX_BITS + 1 && b <= MAX_BITS + 1
    requires forall i :: 1 <= i < b ==> c[i] == 0
    ensures Total(c, b) == 0 && Filled(c, b) == 0
  {
    if b > 1 {
      TotalZero(c, b - 1);
      ShlOne(MAX_BITS - (b - 1));
    }
  }

  // ---------- repairing an over-subscribed code ----------

  /** `n` codes of at most `L` bits over-subscribe the code space by `e` units of 2^-L. */
  predicate Oversubscribed(c: seq<nat>, L: nat, e: nat, n: nat) {
    && |c| == MAX_BITS + 1 && 1 <= L <= MAX_BITS
    && Filled(c, MAX_BITS + 1) == WHOLE + Shl(e, MAX_BITS - L)
    && (forall i :: L < i <= MAX_BITS ==> c[i] == 0)
    && c[L] >= e
    && Total(c, MAX_BITS + 1) == n <= Pow2(L)
  }

  /** One leaf moves down, gets an overflowing leaf as its brother, and that leaf's brother moves up. */
  function MoveLeaf(c: seq<nat>, bits: nat, L: nat): seq<nat>
    requires |c| == MAX_BITS + 1 && 1 <= bits < L <= MAX_BITS && c[bits] > 0 && c[L] > 0
  {
    var c1 := c[bits := c[bits] - 1];
    var c2 := c1[bits + 1 := c1[bits + 1] + 2];
    c2[L := c2[L] - 1]
  }

  /** The greatest length up to `b` that some code has, or zero. */
  function UsedUpTo(c: seq<nat>, b: nat): (r: nat)
    requires b < |c|
    ensures r <= b && (r > 0 ==> c[r] > 0) && forall i :: r < i <= b ==> c[i] == 0
  {
    if b == 0 || c[b] > 0 then b else UsedUpTo(c, b - 1)
  }

  /** The counts after `e` leaves have been moved, each time the deepest one above the cut. */
  function Repaired(c: seq<nat>, L: nat, e: nat): seq<nat>
    requires |c| == MAX_BITS + 1 && 1 <= L <= MAX_BITS
    decreases e
  {
    if e == 0 then c else
    var b := UsedUpTo(c, L - 1);
    if b == 0 || c[L] == 0 then c else Repaired(MoveLeaf(c, b, L), L, e - 1)
  }

  lemma RepairedStep(c: seq<nat>, L: nat, e: nat, b: nat)
    requires |c| == MAX_BITS + 1 && 1 <= b < L <= MAX_BITS && c[b] > 0 && c[L] > 0 && e > 0
    requires forall i :: b < i < L ==> c[i] == 0
    ensures Repaired(c, L, e) == Repaired(MoveLeaf(c, b, L), L, e - 1)
  {
    assert UsedUpTo(c, L - 1) == b;
  }

  lemma MoveLeafTop(c: seq<nat>, bits: nat, L: nat)
    requires |c| == MAX_BITS + 1 && 1 <= bits < L <= MAX_BITS && c[bits] > 0 && c[L] > 0
    ensures |MoveLeaf(c, bits, L)| == |c| && MoveLeaf(c, bits, L)[L] >= c[L] - 1
  {}

  /** The counts of the lengths from 1 on. */
  function Counts(lens: seq<nat>): (c: seq<nat>)
    ensures |c| == MAX_BITS + 1 && c[0] == 0 && forall b :: 1 <= b <= MAX_BITS ==> c[b] == Count(lens, b)
  {
    seq(MAX_BITS + 1, b requires 0 <= b => if b == 0 then 0 else Count(lens, b))
  }

  /** Moving a leaf takes back one unit. */
  lemma MoveLeafRepairs(c: seq<nat>, bits: nat, L: nat, e: nat, n: nat)
    requires Oversubscribed(c, L, e, n) && e > 0 && 1 <= bits < L && c[bits] > 0
    ensures Oversubscribed(MoveLeaf(c, bits, L), L, e - 1, n)
  {
    hide Filled, Total, Shl, Pow2;
    var c1 := c[bits := c[bits] - 1];
    var c2 := c1[bits + 1 := c1[bits + 1] + 2];
    var c3 := c2[L := c2[L] - 1];
    var top := MAX_BITS + 1;
    FilledUpdate(c, bits, c[bits] - 1, top);
    FilledUpdate(c1, bits + 1, c1[bits + 1] + 2, top);
    FilledUpdate(c2, L, c2[L] - 1, top);
    TotalUpdate(c, bits, c[bits] - 1, top);
    TotalUpdate(c1, bits + 1, c1[bits + 1] + 2, top);
    TotalUpdate(c2, L, c2[L] - 1, top);
    ShlPlus(c[bits] - 1, 1, MAX_BITS - bits);
    ShlPlus(c1[bits + 1], 2, MAX_BITS - (bits + 1));
    ShlPlus(c2[L] - 1, 1, MAX_BITS - L);
    ShlPlus(e - 1, 1, MAX_BITS - L);
    TwoHalves(bits);
  }

  lemma TwoHalves(bits: nat)
    requires bits < MAX_BITS
    ensures Shl(2, MAX_BITS - (bits + 1)) == Shl(1, MAX_BITS - bits)
  {
    ShlDouble(1, MAX_BITS - (bits + 1));
  }

  /** An over-subscribed code has a code shorter than `L`, since there are at most 2^L codes. */
  lemma SomeShorter(c: seq<nat>, L: nat, e: nat, n: nat)
    requires Oversubscribed(c, L, e, n) && e > 0
    ensures exists i :: 1 <= i < L && c[i] > 0
  {
    if forall i :: 1 <= i < L ==> c[i] == 0 {
      OnlyDeepest(c, L, MAX_BITS + 1);
      Pow2Add(L, MAX_BITS - L);
      ShlPlus(Pow2(L), e, MAX_BITS - L);
      hide Filled, Total, Shl, Pow2;
      ShlCancel(Pow2(L) + e, c[L], MAX_BITS - L);
      assert false;
    }
  }

  lemma {:induction false} OnlyDeepest(c: seq<nat>, L: nat, b: nat)
    requires |c| == MAX_BITS + 1 && 1 <= L < b <= MAX_BITS + 1
    requires forall i :: 1 <= i <= MAX_BITS && i != L ==> c[i] == 0
    ensures Total(c, b) == c[L] && Filled(c, b) == Shl(c[L], MAX_BITS - L)
  {
    if L < b - 1 {
      OnlyDeepest(c, L, b - 1);
      ShlOne(MAX_BITS - (b - 1));
    } else {
      TotalZero(c, L);
    }
  }
}
