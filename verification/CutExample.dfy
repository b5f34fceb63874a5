/** A block of literals for which the lengths that are built are not optimal. */
module CutExample {
  import opened Wrappers
  import opened Bits
  import opened Canonical
  import opened Rfc1951
  import opened CodeLengths
  import opened Blocks
  import opened Merging
  import opened TreeShape
  import opened Forcing
  import opened Forest
  import opened Optimality
  import opened Shallowest
  import opened TreeHeight
  import opened HuffmanTrees
  import opened Frequencies
  import opened BlockCosts
  import opened BlockChoice
  import opened BitWriter
  import opened BlockCoding
  import opened LiteralBlocks
  import opened Deflation

  /** Lucas numbers: each is the sum of the two before it. */
  function Lucas(n: nat): (r: nat)
    ensures r >= 1
  {
    if n == 0 then 2 else if n == 1 then 1 else Lucas(n - 1) + Lucas(n - 2)
  }

  lemma LucasTable()
    ensures Lucas(2) == 3 && Lucas(3) == 4 && Lucas(4) == 7 && Lucas(5) == 11 && Lucas(6) == 18 && Lucas(7) == 29
    ensures Lucas(8) == 47 && Lucas(9) == 76 && Lucas(10) == 123 && Lucas(11) == 199 && Lucas(12) == 322
    ensures Lucas(13) == 521 && Lucas(14) == 843 && Lucas(15) == 1364
  {}

  lemma {:induction false} LucasMono(a: nat, b: nat)
    requires 1 <= a <= b
    ensures Lucas(a) <= Lucas(b)
  {
    if a < b { LucasMono(a, b - 1); }
  }

  lemma LucasNext(n: nat)
    ensures Lucas(n + 2) == Lucas(n + 1) + Lucas(n)
  {}

  // ---------- the frequencies and their tree ----------

  const SYMBOLS: set<nat> := (set i: nat | i < 16) + {END_BLOCK}

  /** The end code and the byte 0 occur once, byte `i` as often as a Lucas number says. */
  function WeightAt(i: nat): nat {
    if i == 0 || i == END_BLOCK then 1
    else if i < 16 then Lucas(i)
    else if i < L_CODES then 0
    else Lucas(i - L_CODES + 2) - 1
  }

  /** The frequencies, and the weights of the nodes that a tree for them has. */
  function Weights(): (w: seq<nat>)
    ensures |w| == L_CODES + 16 && forall i :: 0 <= i < |w| ==> w[i] == WeightAt(i)
  {
    seq(L_CODES + 16, i requires 0 <= i < L_CODES + 16 => WeightAt(i))
  }

  function Heights(): (H: seq<nat>)
    ensures |H| == L_CODES + 16
    ensures forall i :: 0 <= i < |H| ==> H[i] == if i < L_CODES then 0 else i - L_CODES + 1
  {
    seq(L_CODES + 16, i requires 0 <= i < L_CODES + 16 => if i < L_CODES then 0 else i - L_CODES + 1)
  }

  /** Each merge takes the next byte and the node made last. */
  function Step(j: nat): Merge {
    Merge(j, if j == 0 then END_BLOCK else L_CODES + j - 1, L_CODES + j)
  }

  function Chain(j: nat): (ms: seq<Merge>)
    ensures |ms| == j && forall i :: 0 <= i < j ==> ms[i] == Step(i)
  {
    seq(j, i requires 0 <= i < j => Step(i))
  }

  /** The roots after `j` merges. */
  function Roots(j: nat): set<nat> {
    if j == 0 then SYMBOLS else {L_CODES + j - 1} + set i | i in SYMBOLS && j <= i < 16
  }

  /** The next byte and the last node are lightest; of those as light as the byte none is lower. */
  lemma NextTwo(j: nat)
    requires j < 16
    ensures var x, A := Step(j), Roots(j);
            && x.n in A && x.m in A && x.n != x.m && x.m < L_CODES + 16 && WeightAt(x.n) <= WeightAt(x.m)
            && (forall a :: a in A && a != x.n && a != x.m ==> a < 16 && WeightAt(a) >= WeightAt(x.m))
            && (j > 0 ==> forall a :: a in A && a != x.n && a != x.m ==> WeightAt(a) > WeightAt(x.m))
  {
    hide Lucas;
    var x, A := Step(j), Roots(j);
    LucasTable();
    LucasNext(j);
    if j == 0 {
      assert x.n in SYMBOLS && x.m in SYMBOLS;
    } else {
      LeafAndNode(j);
    }
    forall a | a in A && a != x.n && a != x.m
      ensures a < 16 && WeightAt(a) >= WeightAt(x.m) && (j > 0 ==> WeightAt(a) > WeightAt(x.m))
    {
      LucasMono(j + 1, a);
    }
  }

  lemma LeafAndNode(j: nat)
    requires 0 < j < 16
    ensures WeightAt(j) == Lucas(j) && WeightAt(L_CODES + j - 1) == Lucas(j + 1) - 1
    ensures Lucas(j) <= Lucas(j + 1) - 1
  {
    hide Lucas;
    LucasNext(j - 1);
  }

  lemma NextRoots(j: nat)
    requires j < 16
    ensures Roots(j) - {Step(j).n, Step(j).m} + {Step(j).node} == Roots(j + 1)
  {}

  lemma NextNode(j: nat)
    requires j < 16
    ensures WeightAt(Step(j).node) == WeightAt(Step(j).n) + WeightAt(Step(j).m)
  {
    hide Lucas;
    LucasTable();
    LucasNext(j);
  }

  lemma StepOk(j: nat)
    requires j < 16
    ensures var x, A := Step(j), Roots(j);
            && x.n in A && x.m in A && Lightest(A, Weights(), x)
            && Weights()[x.node] == Weights()[x.n] + Weights()[x.m]
            && Higher(Heights(), x.n, x.m, x.node) && Tied(A, Weights(), Heights(), x.n, x.m)
            && A - {x.n, x.m} + {x.node} == Roots(j + 1)
  {
    hide WeightAt, Roots;
    NextTwo(j);
    NextNode(j);
    NextRoots(j);
  }

  /** One more merge, from the roots `A` to the roots `B`. */
  lemma ChainMore(S: set<nat>, base: nat, w: seq<nat>, H: seq<nat>, ms: seq<Merge>, x: Merge, A: set<nat>,
                  B: set<nat>)
    requires MergesOk(S, base, w, ms) && Greedy(S, w, ms) && Tall(S, w, ms, H) && Active(S, ms) == A
    requires x.n in A && x.m in A && x.n != x.m && Lightest(A, w, x) && A - {x.n, x.m} + {x.node} == B
    requires x.node == base + |ms| < |w| && x.n < x.node && x.m < x.node && w[x.node] == w[x.n] + w[x.m]
    requires Higher(H, x.n, x.m, x.node) && Tied(A, w, H, x.n, x.m)
    ensures MergesOk(S, base, w, ms + [x]) && Greedy(S, w, ms + [x]) && Tall(S, w, ms + [x], H)
    ensures Active(S, ms + [x]) == B
  {
    hide MergesOk, Greedy, Active, Lightest, Higher, Tied, Pairs, Fathers;
    MergesSnoc(S, base, w, ms, x);
    assert (ms + [x])[..|ms|] == ms;
  }

  predicate ChainBuilt(j: nat) {
    && MergesOk(SYMBOLS, L_CODES, Weights(), Chain(j)) && Greedy(SYMBOLS, Weights(), Chain(j))
    && Tall(SYMBOLS, Weights(), Chain(j), Heights()) && Active(SYMBOLS, Chain(j)) == Roots(j)
  }

  lemma ChainStart()
    ensures ChainBuilt(0)
  {
    assert Chain(0) == [];
  }

  lemma ChainSnoc(j: nat)
    ensures Chain(j + 1) == Chain(j) + [Step(j)]
  {}

  lemma ChainNext(j: nat)
    requires j < 16 && ChainBuilt(j)
    ensures ChainBuilt(j + 1)
  {
    hide MergesOk, Greedy, Tall, Active, Roots, Lightest, Higher, Tied, Weights, Heights, Step, Chain;
    StepOk(j);
    StepPlaces(j);
    ChainLength(j);
    ChainMore(SYMBOLS, L_CODES, Weights(), Heights(), Chain(j), Step(j), Roots(j), Roots(j + 1));
    ChainSnoc(j);
  }

  lemma ChainLength(j: nat)
    ensures |Chain(j)| == j
  {}

  lemma {:induction false} ChainOk(j: nat)
    requires j <= 16
    ensures ChainBuilt(j)
  {
    hide ChainBuilt;
    if j == 0 {
      ChainStart();
    } else {
      ChainOk(j - 1);
      ChainNext(j - 1);
    }
  }

  lemma StepPlaces(j: nat)
    requires j < 16
    ensures var x := Step(j);
            x.n != x.m && x.n < x.node && x.m < x.node && x.node == L_CODES + j < |Weights()|
  {}

  /** The deepest leaf would need sixteen bits, but fifteen are the most there can be. */
  lemma TreeTooHigh()
    ensures var w, ms, H := Weights(), Chain(16), Heights();
            && Finished(SYMBOLS, L_CODES, w, ms) && Greedy(SYMBOLS, w, ms) && Tall(SYMBOLS, w, ms, H)
            && LeafHeights(SYMBOLS, H) && H[ms[15].node] == 16
  {
    hide MergesOk, Greedy, Tall, Active;
    ChainOk(16);
    assert Roots(16) == {L_CODES + 15};
  }

  // ---------- a block with these frequencies ----------

  function Times(b: byte, k: nat): (s: seq<byte>)
    ensures |s| == k && forall i :: 0 <= i < k ==> s[i] == b
  {
    seq(k, _ => b)
  }

  /** The bytes below `n`, each as often as it has to occur. */
  function Runs(n: nat): (data: seq<byte>)
    requires n <= 16
  {
    if n == 0 then [] else Runs(n - 1) + Times(n - 1, WeightAt(n - 1))
  }

  lemma {:induction false} OccursTimes(data: seq<byte>, b: byte, k: nat, x: nat)
    ensures Occurs(data + Times(b, k), x) == Occurs(data, x) + if x == b then k else 0
  {
    if k == 0 {
      assert data + Times(b, 0) == data;
    } else {
      OccursTimes(data, b, k - 1, x);
      var s := data + Times(b, k);
      assert s[..|s| - 1] == data + Times(b, k - 1);
    }
  }

  lemma {:induction false} OccursRuns(n: nat, x: nat)
    requires n <= 16
    ensures Occurs(Runs(n), x) == if x < n then WeightAt(x) else 0
  {
    hide WeightAt;
    if n > 0 {
      OccursRuns(n - 1, x);
      OccursTimes(Runs(n - 1), n - 1, WeightAt(n - 1), x);
    }
  }

  lemma {:induction false} RunsLength(n: nat)
    requires 1 <= n <= 16
    ensures |Runs(n)| == Lucas(n + 1) - 2
  {
    hide Lucas;
    LucasTable();
    if n > 1 {
      RunsLength(n - 1);
      LucasNext(n - 1);
    }
  }

  /** The block: 3569 literals, the byte 0 first and the most frequent one last. */
  function Skewed(): (ts: seq<Token>)
    ensures TokensOk(ts)
  {
    Literals(Runs(16))
  }

  lemma SkewedFreqs()
    ensures LFreqs(Skewed()) == Weights()[..L_CODES]
  {
    hide LFreqs, WeightAt, Occurs, Runs;
    LiteralFreqs(Runs(16));
    var f, w := LFreqs(Skewed()), Weights();
    forall x: nat | x < L_CODES
      ensures f[x] == w[x]
    {
      OccursRuns(16, x);
      if x >= 16 { EndWeight(x); }
    }
  }

  lemma EndWeight(x: nat)
    requires 16 <= x < L_CODES
    ensures WeightAt(x) == if x == END_BLOCK then 1 else 0
  {}

  lemma SeventeenSymbols()
    ensures Symbols(Weights()[..L_CODES], L_CODES) == SYMBOLS && |SYMBOLS| >= 2
    ensures forall x :: 0 <= x < L_CODES ==> (x in SYMBOLS <==> Weights()[x] > 0)
  {
    assert 0 in SYMBOLS && 1 in SYMBOLS - {0};
    assert |SYMBOLS - {0}| == |SYMBOLS| - 1;
  }

  /** Whatever tree is built for these frequencies, it is cut off, and another code is cheaper. */
  lemma AlwaysCut(lens: seq<nat>, t: Tree)
    requires HuffmanFor(LDesc(), Weights()[..L_CODES], lens, t)
    ensures CutOff(LDesc(), t) > 0
    ensures |lens| <= L_CODES && !Optimal(LDesc(), Weights()[..L_CODES], lens)
  {
    hide MergesOk, Greedy, Tall, Active, LengthsOf, Excess, Coded, ForcedSet, Optimal, Cost, CodeCost, LeafHeights;
    hide CutAt, Risen, Finished, Symbols, ForcedFreq, WeightAt, LDesc;
    var w := Weights();
    var f := w[..L_CODES];
    SeventeenSymbols();
    WeightsKept(LDesc(), f, lens, t);
    TreeTooHigh();
    var codes := ShortCostsMore(SYMBOLS, L_CODES, w, Chain(16), Heights(), LDesc(), lens, MAX_BITS);
    Cheaper(f, w, lens, codes);
    OptimalExactly(LDesc(), f, lens, t);
  }

  lemma Cheaper(f: seq<nat>, w: seq<nat>, lens: seq<nat>, codes: seq<Bits>)
    requires |f| == L_CODES <= |w| && f == w[..L_CODES] && |codes| == |lens| <= L_CODES
    requires PrefixCode(codes, w) && CodeCost(LDesc(), w, codes) < Cost(LDesc(), w, lens)
    ensures !Optimal(LDesc(), f, lens)
  {
    hide Cost, CodeCost, LDesc;
    CostPrefix(LDesc(), f, w, lens);
    CodeCostPrefix(LDesc(), f, w, codes);
    assert PrefixCode(codes, f);
  }

  /** In every dynamic block for tokens with these frequencies the literal and length code is not optimal. */
  lemma NotOptimal(b: Block)
    requires HuffmanBlock(b) && LFreqs(b.ts) == Weights()[..L_CODES]
    ensures |b.ll| <= L_CODES && !Optimal(LDesc(), LFreqs(b.ts), b.ll)
  {
    hide HuffmanFor, LFreqs, Optimal, Weights, LDesc, CutOff;
    var t :| HuffmanFor(LDesc(), LFreqs(b.ts), b.ll, t);
    AlwaysCut(b.ll, t);
  }

  lemma SkewedSmall()
    ensures |Skewed()| == 3569
  {
    hide Runs, Lucas;
    LucasTable();
    LucasNext(14);
    LucasNext(15);
    RunsLength(16);
  }

  /** A new coder that is given the 3569 literals builds such a block. */
  method BuildCut() returns (coder: BlockCoder, ghost dyn: Block)
    ensures HuffmanBlock(dyn) && dyn.ts == Skewed() && dyn.Ok([])
    ensures |dyn.ll| <= L_CODES && !Optimal(LDesc(), LFreqs(dyn.ts), dyn.ll)
  {
    hide BlockCoder.Layout, BlockCoder.Counted, BlockCoder.Buffered, Writer.Stream, Writer.Valid;
    hide Reachable, Expand, Block.Ok, Block.Encode, NearShortest, Padding, Optimal, HuffmanBlock, LFreqs;
    coder := EmptyCoder();
    coder.OwnsAll();
    SkewedSmall();
    TallyLiterals(coder, Runs(16));
    LiteralsExpand([], Runs(16));
    ghost var b;
    b, dyn := coder.FlushBlock(None, 0, true, []);
    SkewedFreqs();
    NotOptimal(dyn);
  }
}
