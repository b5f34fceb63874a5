/** Frequencies and costs of the code length alphabet, and of a whole dynamic block. */
module BlockCosts {
  import opened Numbers
  import opened Bits
  import opened Canonical
  import opened Rfc1951
  import opened LengthCoding
  import opened Blocks
  import opened CodeLengths
  import opened Merging
  import opened Forcing
  import opened Huffman
  import opened HuffmanTrees
  import opened TreeHeight
  import opened TreeShape
  import opened Optimality
  import opened TreeSending
  import opened Frequencies

  // ---------- how many symbols there are ----------

  lemma {:induction false} SymbolsSum(f: seq<nat>, k: nat)
    requires k <= |f|
    ensures SumSet(Symbols(f, k), f) == Sum(f[..k])
  {
    if k == 0 {
      assert Symbols(f, 0) == {};
      SumSetEmpty(f);
    } else {
      SymbolsSum(f, k - 1);
      SymbolsNext(f, k - 1);
      assert f[..k][..k - 1] == f[..k - 1];
      hide SumSet;
      if f[k - 1] > 0 { SumSetAdd(Symbols(f, k - 1), f, k - 1); }
    }
  }

  lemma {:induction false} FreqSums(ts: seq<Token>)
    requires TokensOk(ts)
    ensures Sum(LFreqs(ts)) == |ts| + 1 && Sum(DFreqs(ts)) <= |ts|
  {
    hide LFreqs, DFreqs, Sum, LSymbol, DistCode, LenCode;
    if ts == [] {
      EmptySums();
    } else {
      var front, t := ts[..|ts| - 1], ts[|ts| - 1];
      assert front + [t] == ts;
      FreqSums(front);
      LFreqsNext(front, t);
      OneMore(LFreqs(front), LSymbol(t));
      if t.Match? { OneMore(DFreqs(front), DistCode(t.dist)); }
    }
  }

  lemma OneMore(w: seq<nat>, i: nat)
    requires i < |w|
    ensures Sum(w[i := w[i] + 1]) == Sum(w) + 1
  {
    SumUpdate(w, i, w[i] + 1);
  }

  lemma EmptySums()
    ensures Sum(LFreqs([])) == 1 && Sum(DFreqs([])) == 0
  {
    var w := LFreqs([]);
    var z := w[END_BLOCK := 0];
    assert w == z[END_BLOCK := 1];
    assert forall i :: 0 <= i < D_CODES ==> DFreqs([])[i] == 0;
    hide LFreqs, DFreqs, Sum;
    SumZeros(z);
    SumUpdate(z, END_BLOCK, 1);
    SumZeros(DFreqs([]));
  }

  /** Frequencies of the code length symbols. */
  function BlFreqs(ops: seq<Op>): (w: seq<nat>)
    requires OpsOk(ops)
    ensures |w| == BL_CODES
  {
    if ops == [] then Repeat(0, BL_CODES) else
    var w, s := BlFreqs(ops[..|ops| - 1]), ops[|ops| - 1].Symbol();
    w[s := w[s] + 1]
  }

  lemma {:induction false} BlFreqsTally(ops: seq<Op>, s: nat)
    requires OpsOk(ops) && s < BL_CODES
    ensures BlFreqs(ops)[s] == Tally(ops, s)
  {
    if ops != [] { BlFreqsTally(ops[..|ops| - 1], s); }
  }

  lemma {:induction false} BlFreqsSum(ops: seq<Op>)
    requires OpsOk(ops)
    ensures Sum(BlFreqs(ops)) == |ops|
  {
    if ops == [] {
      SumZeros(BlFreqs([]));
    } else {
      var front := ops[..|ops| - 1];
      BlFreqsSum(front);
      hide Sum;
      var s := ops[|ops| - 1].Symbol();
      SumUpdate(BlFreqs(front), s, BlFreqs(front)[s] + 1);
    }
  }

  /** No more symbols are sent than there are lengths. */
  lemma {:induction false} RleShort(lens: seq<nat>, i: nat, prev: int)
    requires i <= |lens|
    ensures |Rle(lens, i, prev)| <= |lens| - i
    decreases |lens| - i
  {
    hide RunLength, MaxCount, RunOps, Rle;
    if i < |lens| {
      RleStep(lens, i, prev);
      var r := RunLength(lens, i, lens[i], MaxCount(lens[i], prev));
      RunShort(lens[i], prev, r);
      RleShort(lens, i + r, lens[i]);
    } else {
      RleEnd([], lens, prev);
    }
  }

  lemma RunShort(cur: nat, prev: int, r: nat)
    requires r > 0
    ensures |RunOps(cur, prev, r)| <= r
  {}

  // ---------- symbols without a code at the end ----------

  lemma {:induction false} CountTail(a: seq<nat>, z: seq<nat>, b: nat)
    requires b > 0 && forall i :: 0 <= i < |z| ==> z[i] == 0
    ensures Count(a + z, b) == Count(a, b)
  {
    if z == [] {
      assert a + z == a;
    } else {
      assert (a + z)[..|a + z| - 1] == a + z[..|z| - 1];
      CountTail(a, z[..|z| - 1], b);
    }
  }

  lemma {:induction false} FirstCodeTail(a: seq<nat>, z: seq<nat>, b: nat)
    requires forall i :: 0 <= i < |z| ==> z[i] == 0
    ensures FirstCode(a + z, b) == FirstCode(a, b)
  {
    if b > 1 {
      FirstCodeTail(a, z, b - 1);
      CountTail(a, z, b - 1);
    }
  }

  lemma CodeTail(a: seq<nat>, z: seq<nat>, i: nat)
    requires i < |a| && forall k :: 0 <= k < |z| ==> z[k] == 0
    ensures Code(a + z, i) == Code(a, i)
  {
    hide FirstCode, Count, Msb;
    FirstCodeTail(a, z, a[i]);
    assert (a + z)[..i] == a[..i];
  }

  /** Symbols without a code do not change the codes of the others. */
  lemma CodesTail(fc: seq<nat>, a: seq<nat>, z: seq<nat>)
    requires CodesOf(fc, a) && |a + z| <= |fc| && forall k :: 0 <= k < |z| ==> z[k] == 0
    ensures CodesOf(fc, a + z)
  {
    hide Code, Lsb;
    forall i | 0 <= i < |a + z| && (a + z)[i] > 0
      ensures CodeAt(fc[i], a + z, i)
    {
      CodeTail(a, z, i);
      assert CodeAt(fc[i], a, i);
    }
  }

  lemma {:induction false} KraftTail(a: seq<nat>, z: seq<nat>)
    requires LensOk(a) && forall k :: 0 <= k < |z| ==> z[k] == 0
    ensures LensOk(a + z) && Kraft(a + z) == Kraft(a)
  {
    if z == [] {
      assert a + z == a;
    } else {
      assert (a + z)[..|a + z| - 1] == a + z[..|z| - 1];
      KraftTail(a, z[..|z| - 1]);
    }
  }

  lemma {:induction false} CostTail(d: Desc, w: seq<nat>, a: seq<nat>, z: seq<nat>)
    requires |a + z| <= |w| && |a + z| <= d.extraBase + |d.extraBits| && forall k :: 0 <= k < |z| ==> z[k] == 0
    ensures Cost(d, w, a + z) == Cost(d, w, a)
  {
    if z == [] {
      assert a + z == a;
    } else {
      assert (a + z)[..|a + z| - 1] == a + z[..|z| - 1];
      CostTail(d, w, a, z[..|z| - 1]);
    }
  }

  // ---------- bits of the run-length coded lengths ----------

  lemma OpLength(cl: seq<nat>, op: Op)
    requires Sendable(cl, op)
    ensures |EncOp(cl, op)| == cl[op.Symbol()] + BlDesc().Extra(op.Symbol())
  {
    hide Code, Lsb;
  }

  /** The bits of the operations are the cost of their symbols. */
  lemma {:induction false} OpsLength(cl: seq<nat>, ops: seq<Op>)
    requires AllSendable(cl, ops) && OpsOk(ops) && |cl| == BL_CODES
    ensures |EncOps(cl, ops)| == Cost(BlDesc(), BlFreqs(ops), cl)
  {
    hide Cost, EncOp, BlDesc, Desc.Extra;
    if ops == [] {
      NothingCosts(cl);
    } else {
      var front, op := ops[..|ops| - 1], ops[|ops| - 1];
      OpsLength(cl, front);
      OpLength(cl, op);
      assert Sendable(cl, op);
      CostMore(BlDesc(), BlFreqs(front), cl, op.Symbol());
    }
  }

  lemma NothingCosts(cl: seq<nat>)
    requires |cl| == BL_CODES
    ensures Cost(BlDesc(), BlFreqs([]), cl) == 0
  {
    ZeroCost(BlDesc(), BlFreqs([]), cl);
  }

  /** Codes for all symbols that are tallied let the operations be sent. */
  lemma CoversSendable(cl: seq<nat>, ops: seq<Op>)
    requires OpsOk(ops) && |cl| == BL_CODES && Covers(cl, BlFreqs(ops))
    ensures AllSendable(cl, ops)
  {
    hide BlFreqs, Tally;
    forall i | 0 <= i < |ops|
      ensures Sendable(cl, ops[i])
    {
      TallyPositive(ops, i);
      BlFreqsTally(ops, ops[i].Symbol());
    }
  }

  lemma {:induction false} TallyPositive(ops: seq<Op>, i: nat)
    requires OpsOk(ops) && i < |ops|
    ensures Tally(ops, ops[i].Symbol()) > 0
  {
    if i < |ops| - 1 { TallyPositive(ops[..|ops| - 1], i); }
  }

  lemma {:induction false} OpsBound(cl: seq<nat>, ops: seq<Op>)
    requires AllSendable(cl, ops) && forall i :: 0 <= i < |cl| ==> cl[i] <= 7
    ensures |EncOps(cl, ops)| <= 14 * |ops|
  {
    hide Code, Lsb;
    if ops != [] { OpsBound(cl, ops[..|ops| - 1]); }
  }

  // ---------- trees built from the frequencies of a block ----------

  /** What a tree built from the frequencies in `w[..|f|] == f` means for the block. */
  lemma TreeFromFreqs(d: Desc, w: seq<nat>, f: seq<nat>, lens: seq<nat>)
    requires GoodTree(d, w, lens) && |f| == d.elems && w[..|f|] == f && d.Ok()
    ensures Covers(lens, f) && GoodLengths(lens) && 0 < |lens| <= |f|
    ensures Cost(d, w, lens) == Cost(d, f, lens) && StaticCost(d, w, lens) == StaticCost(d, f, lens)
    ensures forall x :: 0 <= x < |lens| ==> lens[x] <= d.maxLength
  {
    hide Cost, StaticCost, Kraft;
    forall i | 0 <= i < |f|
      ensures w[i] == f[i]
    {
      assert w[..|f|][i] == w[i];
    }
    CostPrefix(d, w, f, lens);
  }

  /** The sum that the construction of a tree needs to stay below 2^16. */
  lemma FewSymbols(w: seq<nat>, f: seq<nat>)
    requires |f| <= |w| && w[..|f|] == f
    ensures SumSet(Symbols(w, |f|), w) == Sum(f)
  {
    SymbolsSum(w, |f|);
  }

  // ---------- the code length code ----------

  lemma {:induction false} NotSent(ops: seq<Op>, v: nat)
    requires v > 0 && Plain(v) !in ops
    ensures v !in RunAll([], ops)
  {
    if ops != [] {
      var front := ops[..|ops| - 1];
      NotSent(front, v);
      RunNotSent(RunAll([], front), ops[|ops| - 1], v);
    }
  }

  lemma RunNotSent(acc: seq<nat>, op: Op, v: nat)
    requires v > 0 && v !in acc && op != Plain(v)
    ensures v !in Run(acc, op)
  {}

  /** A tree with a code of some length has that length among the symbols sent. */
  lemma SomePlain(lens: seq<nat>, v: nat)
    requires LensOk(lens) && v > 0 && v in lens
    ensures OpsOk(Rle(lens, 0, -1)) && Plain(v) in Rle(lens, 0, -1)
  {
    hide Rle, RunAll;
    var ops := Rle(lens, 0, -1);
    RleExpand([], lens, 0, -1);
    assert [] + lens[0..] == lens;
    if Plain(v) !in ops {
      NotSent(ops, v);
      assert false;
    }
  }

  /** So the search for the last code length code to send ends at a rank of at least 3. */
  lemma SomeRank(lens: seq<nat>, cl: seq<nat>)
    requires LensOk(lens) && |cl| == BL_CODES && exists i :: 0 <= i < |lens| && lens[i] > 0
    requires AllSendable(cl, Rle(lens, 0, -1))
    ensures exists k :: 3 <= k < BL_CODES && cl[CL_ORDER[k]] > 0
  {
    hide Rle, RunAll;
    var x :| 0 <= x < |lens| && lens[x] > 0;
    var l := lens[x];
    SomePlain(lens, l);
    assert Sendable(cl, Plain(l));
    OrderIsPermutation();
    PlainRank(l);
    assert cl[CL_ORDER[CL_POS[l]]] > 0;
  }

  lemma PlainRank(l: nat)
    requires 1 <= l <= MAX_BITS
    ensures 3 <= CL_POS[l] < BL_CODES
  {}

  // ---------- the size of a dynamic block ----------

  /** The symbols that send the lengths of both trees. */
  function LengthOps(ll: seq<nat>, d: seq<nat>): seq<Op> {
    Rle(ll, 0, -1) + Rle(d, 0, -1)
  }

  /** What sending them costs. */
  function BlCost(cl: seq<nat>, ll: seq<nat>, d: seq<nat>): nat
    requires |cl| == BL_CODES && OpsOk(LengthOps(ll, d))
  {
    Cost(BlDesc(), BlFreqs(LengthOps(ll, d)), cl)
  }

  /** No code length code of a rank above `m` is used. */
  predicate LastUsed(cl: seq<nat>, m: nat) {
    && |cl| == BL_CODES && 3 <= m < BL_CODES && cl[CL_ORDER[m]] > 0
    && forall k :: m < k < BL_CODES ==> cl[CL_ORDER[k]] == 0
  }

  /** The first `m` lengths of `cl` are those of a Huffman tree for sending `ll` and `d`; the others are zero. */
  ghost predicate ClTree(cl: seq<nat>, ll: seq<nat>, d: seq<nat>, m: nat) {
    && OpsOk(LengthOps(ll, d)) && m <= |cl| && HuffmanLengths(BlDesc(), BlFreqs(LengthOps(ll, d)), cl[..m])
    && forall x :: m <= x < |cl| ==> cl[x] == 0
  }

  /** All three codes of the block come from Huffman trees for how often their symbols occur. */
  ghost predicate HuffmanBlock(b: Block) {
    && b.Dynamic? && TokensOk(b.ts)
    && HuffmanLengths(LDesc(), LFreqs(b.ts), b.ll) && HuffmanLengths(DDesc(), DFreqs(b.ts), b.d)
    && b.n > 0 && LastUsed(b.cl, b.n - 1) && exists m :: ClTree(b.cl, b.ll, b.d, m)
  }

  predicate AllAtMost(lens: seq<nat>, max: nat) {
    forall i :: 0 <= i < |lens| ==> lens[i] <= max
  }

  /** The trees and the data take exactly the bits that were added up. */
  lemma DynamicLength(ts: seq<Token>, ll: seq<nat>, d: seq<nat>, cl: seq<nat>, n: nat)
    requires Measured(ll, d, ts) && TreesOk(ll, d, cl, n) && |ts| < 0x2000
    requires OpsOk(LengthOps(ll, d))
    ensures AllAtMost(cl, 7)
    ensures |EncTrees(ll, d, cl, n) + EncData(ll, d, ts)|
         == Cost(LDesc(), LFreqs(ts), ll) + Cost(DDesc(), DFreqs(ts), d)
            + BlCost(cl, ll, d) + 3 * n + 14
    ensures |EncTrees(ll, d, cl, n) + EncData(ll, d, ts)| < 0x10_0000
    ensures |EncData(FixedLL(), FixedD(), ts)|
         == StaticCost(LDesc(), LFreqs(ts), ll) + StaticCost(DDesc(), DFreqs(ts), d)
    ensures |EncData(FixedLL(), FixedD(), ts)| <= 253928
  {
    hide Cost, StaticCost, EncOps, Rle, LFreqs, DFreqs, BlFreqs, LDesc, DDesc, BlDesc, EncTokens, AllCodable;
    hide GoodLengths;
    hide AllSendable, EncCl, EncCounts, OpsOk, Code;
    var a, b := Rle(ll, 0, -1), Rle(d, 0, -1);
    TreesAreGood(ll, d, cl, n);
    GoodIsOk(ll);
    GoodIsOk(d);
    DataLength(ll, d, ts);
    RleShort(ll, 0, -1);
    RleShort(d, 0, -1);
    OpsBound(cl, a);
    OpsBound(cl, b);
    EncOpsConcat(cl, a, b);
    BothSendable(cl, a, b);
    OpsLength(cl, a + b);
    LenBound(ll, END_BLOCK);
    FixedLow(END_BLOCK);
    TreesLength(ll, d, cl, n);
    assert |EncData(ll, d, ts)| == |EncTokens(ll, d, ts)| + ll[END_BLOCK];
    FixedEnd(ts);
  }

  lemma FixedEnd(ts: seq<Token>)
    requires AllCodable(FixedLL(), FixedD(), ts)
    ensures |EncData(FixedLL(), FixedD(), ts)| == |EncTokens(FixedLL(), FixedD(), ts)| + FixedLL()[END_BLOCK]
    ensures FixedLL()[END_BLOCK] == 7
  {
    hide EncTokens, Code;
  }

  lemma TreesLength(ll: seq<nat>, d: seq<nat>, cl: seq<nat>, n: nat)
    requires TreesOk(ll, d, cl, n)
    ensures |EncTrees(ll, d, cl, n)| == 14 + 3 * n + |EncOps(cl, Rle(ll, 0, -1))| + |EncOps(cl, Rle(d, 0, -1))|
  {
    hide EncOps, Rle, EncCl, EncCounts;
  }

  lemma LenBound(lens: seq<nat>, i: nat)
    requires LensOk(lens) && i < |lens|
    ensures lens[i] <= MAX_BITS
  {}

  // ---------- blocks that are coded optimally ----------

  lemma FibEighteen()
    ensures Fib(18) == 2584
  {
    assert Fib(6) == 8 && Fib(7) == 13;
    assert Fib(8) == 21 && Fib(9) == 34;
    assert Fib(10) == 55 && Fib(11) == 89;
    assert Fib(12) == 144 && Fib(13) == 233;
    assert Fib(14) == 377 && Fib(15) == 610;
    assert Fib(16) == 987 && Fib(17) == 1597;
  }

  /** Few symbols are coded with the cheapest of all prefix codes, unless just one of them occurs. */
  lemma FewSymbolsOptimal(d: Desc, f: seq<nat>, lens: seq<nat>)
    requires HuffmanLengths(d, f, lens) && d.maxLength == MAX_BITS && |f| == d.elems && Sum(f) < 2584
    ensures |lens| <= |f| && |lens| <= d.extraBase + |d.extraBits|
    ensures Optimal(d, f, lens) <==> |Symbols(f, |f|)| != 1
  {
    hide HuffmanFor, Symbols, SumSet, Sum, Fib, Optimal, CutOff;
    var t :| HuffmanFor(d, f, lens, t);
    assert f[..|f|] == f;
    SymbolsSum(f, |f|);
    FibEighteen();
    OptimalExactly(d, f, lens, t);
    OptimalWhen(d, f, lens, t);
    assert |Symbols(f, |f|)| == 0 ==> Symbols(f, |f|) == {};
  }

  /**
   * In a dynamic block of fewer than 2583 tokens no prefix code is cheaper than the literal and length
   * code, if there is any token, nor than the distance code, unless just one distance code occurs.
   */
  lemma SmallBlockOptimal(b: Block)
    requires HuffmanBlock(b) && |b.ts| < 2583
    ensures |b.ll| <= L_CODES && |b.d| <= D_CODES
    ensures Optimal(LDesc(), LFreqs(b.ts), b.ll) <==> b.ts != []
    ensures Optimal(DDesc(), DFreqs(b.ts), b.d) <==> |Symbols(DFreqs(b.ts), D_CODES)| != 1
  {
    hide HuffmanLengths, Symbols, Sum, Optimal, LFreqs, DFreqs, ClTree, LastUsed, LDesc, DDesc;
    FreqSums(b.ts);
    HuffmanShort(LDesc(), LFreqs(b.ts), b.ll);
    HuffmanShort(DDesc(), DFreqs(b.ts), b.d);
    FewSymbolsOptimal(LDesc(), LFreqs(b.ts), b.ll);
    FewSymbolsOptimal(DDesc(), DFreqs(b.ts), b.d);
    LiteralSymbols(b.ts);
  }

  /** With the end code, two symbols occur as soon as there is a token. */
  lemma LiteralSymbols(ts: seq<Token>)
    requires TokensOk(ts)
    ensures |Symbols(LFreqs(ts), L_CODES)| == 1 <==> ts == []
  {
    var S := Symbols(LFreqs(ts), L_CODES);
    LFreqsPositive(ts, 0);
    if ts == [] {
      assert S == {END_BLOCK};
    } else {
      hide LFreqs;
      var x := LSymbol(ts[0]);
      assert x in S - {END_BLOCK};
      assert |S - {END_BLOCK}| == |S| - 1;
    }
  }

  lemma HuffmanShort(d: Desc, f: seq<nat>, lens: seq<nat>)
    requires HuffmanLengths(d, f, lens)
    ensures |lens| <= d.elems
  {
    hide Finished, Greedy, ForcedSet, ForcedFreq, Coded, CutAt, Symbols;
  }
}
