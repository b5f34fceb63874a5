/** Fifteen bytes that are sent as a stored block although the fixed codes would take fewer bits. */
module StoredExample {
  import opened Wrappers
  import opened Numbers
  import opened Bits
  import opened Canonical
  import opened CodeLengths
  import opened Rfc1951
  import opened LengthCoding
  import opened Blocks
  import opened Merging
  import opened TreeShape
  import opened Forcing
  import opened TreeHeight
  import opened HuffmanTrees
  import opened Frequencies
  import opened BlockCosts
  import opened BlockChoice
  import opened BitWriter
  import opened BlockCoding
  import opened LiteralBlocks
  import opened Deflation

  /** Different bytes that all have nine bits in the fixed code. */
  function Fifteen(): (data: seq<byte>)
    ensures |data| == 15 && forall i :: 0 <= i < 15 ==> data[i] == 144 + i
  {
    seq(15, i requires 0 <= i < 15 => 144 + i)
  }

  // ---------- a dynamic block takes more ----------

  /** Codes that fit the code space have 4 bits on average, or more, if there are sixteen of them. */
  lemma {:induction false} ShortCodesFill(lens: seq<nat>)
    requires LensOk(lens)
    ensures Kraft(lens) + 2048 * Sum(lens) >= 10240 * Used(lens)
  {
    if lens != [] {
      ShortCodesFill(lens[..|lens| - 1]);
      if lens[|lens| - 1] > 0 { OneCode(lens[|lens| - 1]); }
    }
  }

  lemma OneCode(l: nat)
    requires 1 <= l <= MAX_BITS
    ensures Pow2(MAX_BITS - l) + 2048 * l >= 10240
  {
    Pow2Table();
  }

  /** Each operation stands for at most eighteen lengths per bit. */
  lemma {:induction false} BitsForLengths(cl: seq<nat>, ops: seq<Op>)
    requires AllSendable(cl, ops) && LensOk(cl)
    ensures |RunAll([], ops)| <= 18 * |EncOps(cl, ops)|
  {
    hide EncOp;
    if ops != [] {
      var front, op := ops[..|ops| - 1], ops[|ops| - 1];
      BitsForLengths(cl, front);
      assert Sendable(cl, op);
      BitsForOp(cl, RunAll([], front), op);
    }
  }

  lemma BitsForOp(cl: seq<nat>, acc: seq<nat>, op: Op)
    requires Sendable(cl, op) && LensOk(cl)
    ensures |Run(acc, op)| <= |acc| + 18 * |EncOp(cl, op)|
  {
    hide Code, Lsb;
  }

  lemma TreeBits(cl: seq<nat>, lens: seq<nat>)
    requires LensOk(lens) && LensOk(cl) && AllSendable(cl, Rle(lens, 0, -1))
    ensures 18 * |EncOps(cl, Rle(lens, 0, -1))| >= |lens|
  {
    hide Rle, RunAll, EncOps, AllSendable;
    RleExpand([], lens, 0, -1);
    assert [] + lens[0..] == lens;
    BitsForLengths(cl, Rle(lens, 0, -1));
  }

  lemma {:induction false} OccursBelow(n: nat, x: nat)
    requires n <= 15
    ensures Occurs(Fifteen()[..n], x) == if 144 <= x < 144 + n then 1 else 0
  {
    if n > 0 {
      OccursBelow(n - 1, x);
      assert Fifteen()[..n][..n - 1] == Fifteen()[..n - 1];
    }
  }

  predicate Occurring(x: nat) {
    144 <= x < 159 || x == END_BLOCK
  }

  lemma FifteenFreqs(x: nat)
    requires x < L_CODES
    ensures LFreqs(Literals(Fifteen()))[x] == if Occurring(x) then 1 else 0
  {
    hide LFreqs;
    LiteralFreqs(Fifteen());
    OccursBelow(15, x);
    assert Fifteen()[..15] == Fifteen();
  }

  lemma {:induction false} UsedSixteen(lens: seq<nat>)
    requires |lens| <= 257 && forall x :: 0 <= x < |lens| ==> (lens[x] > 0 <==> Occurring(x))
    ensures Used(lens) == (if |lens| <= 144 then 0 else if |lens| < 159 then |lens| - 144 else 15)
                          + if |lens| == 257 then 1 else 0
  {
    if lens != [] { UsedSixteen(lens[..|lens| - 1]); }
  }

  lemma {:induction false} CostAtLeast(d: Desc, f: seq<nat>, lens: seq<nat>)
    requires |lens| <= |f| && |lens| <= d.extraBase + |d.extraBits|
    requires forall x :: 0 <= x < |lens| && lens[x] > 0 ==> f[x] >= 1
    ensures Cost(d, f, lens) >= Sum(lens)
  {
    if lens != [] {
      var n := |lens| - 1;
      CostAtLeast(d, f, lens[..n]);
      TermAtLeast(f[n], lens[n], d.Extra(n));
    }
  }

  lemma TermAtLeast(f: nat, l: nat, x: nat)
    requires l > 0 ==> f >= 1
    ensures Term(f, l, x) >= l
  {
    if l > 0 { MulMono(1, f, l + x); }
  }

  /** Sixteen symbols that occur once need 64 bits. */
  lemma DataBits(ll: seq<nat>)
    requires HuffmanLengths(LDesc(), LFreqs(Literals(Fifteen())), ll)
    ensures |ll| == 257 && Cost(LDesc(), LFreqs(Literals(Fifteen())), ll) >= 64
  {
    hide HuffmanFor, LFreqs, LDesc, Cost, Kraft, Used, Sum, Occurring, Pow2;
    var f := LFreqs(Literals(Fifteen()));
    var t :| HuffmanFor(LDesc(), f, ll, t);
    CodesForSixteen(f, ll, t);
    UsedSixteen(ll);
    ShortCodesFill(ll);
    Pow2Table();
    CostAtLeast(LDesc(), f, ll);
  }

  lemma CodesForSixteen(f: seq<nat>, ll: seq<nat>, t: Tree)
    requires f == LFreqs(Literals(Fifteen())) && HuffmanFor(LDesc(), f, ll, t)
    ensures |ll| == 257 && LensOk(ll) && Kraft(ll) == WHOLE
    ensures forall x :: 0 <= x < |ll| ==> (ll[x] > 0 <==> Occurring(x)) && (Occurring(x) ==> f[x] >= 1)
  {
    hide LFreqs, Kraft, Finished, Greedy, Risen, CutAt, ForcedSet, ForcedFreq;
    forall x: nat | x < L_CODES
      ensures f[x] == if Occurring(x) then 1 else 0
    {
      FifteenFreqs(x);
    }
    var S := Symbols(f, L_CODES);
    assert 144 in S && END_BLOCK in S - {144};
    assert |S - {144}| == |S| - 1;
    WeightsKept(LDesc(), f, ll, t);
  }

  /** Without a distance the distance code has two codes of one bit. */
  lemma NoDistanceCodes(f: seq<nat>, d: seq<nat>)
    requires |f| == D_CODES && (forall c :: 0 <= c < D_CODES ==> f[c] == 0) && HuffmanLengths(DDesc(), f, d)
    ensures 1 in d
  {
    hide HuffmanFor;
    var t :| HuffmanFor(DDesc(), f, d, t);
    TwoForced(f, d, t);
  }

  lemma TwoForced(f: seq<nat>, d: seq<nat>, t: Tree)
    requires |f| == D_CODES && (forall c :: 0 <= c < D_CODES ==> f[c] == 0) && HuffmanFor(DDesc(), f, d, t)
    ensures 1 in d
  {
    hide MergesOk, Active, Greedy, Risen, CutAt, ForcedFreq, Kraft;
    var S := t.leaves;
    MergeAt(S, D_CODES, t.w, t.ms, 0);
    assert t.ms[..0] == [];
    NoMerges(S);
    var a, b := t.ms[0].n, t.ms[0].m;
    assert Symbols(f, D_CODES) == {};
    OnlyTwo(S, a, b);
    TwoCodes(S, d, MAX_BITS, a, b);
  }

  lemma OnlyTwo(S: set<nat>, a: nat, b: nat)
    requires a in S && b in S && a != b && |S| <= 2
    ensures S == {a, b}
  {
    var rest := S - {a} - {b};
    assert |S - {a}| == |S| - 1 && |rest| == |S| - 2;
  }

  /** So the code for length 1 is used, which is the last but one in the order of sending. */
  lemma LateRank(cl: seq<nat>, d: seq<nat>, n: nat)
    requires LensOk(d) && 1 in d && AllSendable(cl, Rle(d, 0, -1)) && n > 0 && LastUsed(cl, n - 1)
    ensures n >= 18
  {
    hide Rle;
    SomePlain(d, 1);
    assert Sendable(cl, Plain(1));
    assert CL_ORDER[17] == 1;
  }

  /** Whatever dynamic block is built for the fifteen literals, its body has 147 bits or more. */
  lemma DynamicIsLonger(dyn: Block, out: seq<byte>)
    requires HuffmanBlock(dyn) && dyn.ts == Literals(Fifteen()) && dyn.Ok(out)
    ensures |dyn.Body(0, out)| >= 147
  {
    hide LFreqs, DFreqs, HuffmanLengths, ClTree, LastUsed, Kraft, AllSendable, Rle, EncOps, Cost, LDesc, DDesc;
    hide EncTokens, Code, AllCodable, EncTrees, Reachable;
    var ts := dyn.ts;
    DataBits(dyn.ll);
    LiteralFreqs(Fifteen());
    NoDistanceCodes(DFreqs(ts), dyn.d);
    LateRank(dyn.cl, dyn.d, dyn.n);
    TreeBits(dyn.cl, dyn.ll);
    TreeBits(dyn.cl, dyn.d);
    TreesLength(dyn.ll, dyn.d, dyn.cl, dyn.n);
    FixedCodable(ts);
    DataLength(dyn.ll, dyn.d, ts);
  }

  // ---------- what is sent ----------

  lemma FixedBits(out: seq<byte>)
    requires Fixed(Literals(Fifteen())).Ok(out)
    ensures |Fixed(Literals(Fifteen())).Body(0, out)| == 142
  {
    hide FixedLL, FixedD, EncTokens, Code;
    FixedHigh(Fifteen());
    FixedEnd(Literals(Fifteen()));
  }

  /** The bytes are stored, which takes 10 bits and the padding more than the fixed codes. */
  lemma StoredIsLonger(b: Block, dyn: Block, eof: bool, pos: nat, out: seq<byte>)
    requires Emitted(b, dyn, Some(Fifteen()), 15, Literals(Fifteen()), out)
    ensures b == Stored(Fifteen())
    ensures Fixed(Literals(Fifteen())).Ok(out)
    ensures Size(b, eof, pos, out) == Size(Fixed(Literals(Fifteen())), eof, pos, out) + 10 + PadCount(pos + 3)
    ensures !Shortest(b, dyn, Some(Fifteen()), Literals(Fifteen()), eof, pos, out)
  {
    hide Block.Body, Block.Ok, HuffmanBlock, Block.Output, Expand, Size, PadCount;
    var fixed := Fixed(Literals(Fifteen()));
    FixedBits(out);
    DynamicIsLonger(dyn, out);
    StoredSize(b, eof, pos, out);
    CodedSize(fixed, eof, pos, out);
    assert CanSend(fixed, dyn, Some(Fifteen()), Literals(Fifteen()), out);
  }

  /** A new coder that is given the fifteen bytes sends 160 bits where the fixed codes take 145. */
  method SendFifteen() returns (coder: BlockCoder)
    ensures coder.bw.Valid() && Fixed(Literals(Fifteen())).Ok([]) && Stored(Fifteen()).Ok([])
    ensures coder.bw.Stream() == Stored(Fifteen()).Encode(true, 0, [])
    ensures |coder.bw.Stream()| == 160 && |Fixed(Literals(Fifteen())).Encode(true, 0, [])| == 145
  {
    hide BlockCoder.Layout, BlockCoder.Counted, BlockCoder.Buffered, Writer.Stream, Writer.Valid;
    hide Emitted, Reachable, Expand, Block.Ok, Block.Encode, NearShortest, Padding, Size;
    coder := EmptyCoder();
    coder.OwnsAll();
    TallyLiterals(coder, Fifteen());
    LiteralsExpand([], Fifteen());
    ghost var b, dyn := coder.FlushBlock(Some(Fifteen()), 15, true, []);
    StoredIsLonger(b, dyn, true, 0, []);
    BitsSent(b);
    assert [] + b.Encode(true, 0, []) == b.Encode(true, 0, []);
    assert b.Encode(true, 0, []) + Padding(160) == b.Encode(true, 0, []) by { NoPadding(); }
  }

  lemma NoPadding()
    ensures Padding(160) == []
  {}

  /** The sizes at the beginning of the stream. */
  lemma BitsSent(b: Block)
    requires b == Stored(Fifteen()) && Fixed(Literals(Fifteen())).Ok([])
    ensures b.Ok([]) && |b.Encode(true, 0, [])| == 160
    ensures |Fixed(Literals(Fifteen())).Encode(true, 0, [])| == 145
  {
    hide Block.Encode, Block.Body;
    StoredSize(b, true, 0, []);
    FixedBits([]);
    CodedSize(Fixed(Literals(Fifteen())), true, 0, []);
  }
}
