/** Collecting the tokens of a block, building its trees, and sending it. */
module BlockCoding {
  import opened Wrappers
  import opened Numbers
  import opened Bits
  import opened Canonical
  import opened Rfc1951
  import opened LengthCoding
  import opened Blocks
  import opened CodeLengths
  import opened BitWriter
  import opened Huffman
  import opened HuffmanTrees
  import opened TreeHeight
  import opened Merging
  import opened Forcing
  import opened TreeShape
  import opened Optimality
  import opened TreeSending
  import opened Frequencies
  import opened BlockCosts
  import opened BlockChoice
  import opened Tables
  import opened TokenBuffer

  const STORED_BLOCK: nat := 0
  const STATIC_TREES: nat := 1
  const DYN_TREES: nat := 2

  /** The order in which the code length lengths are sent. */
  const BL_ORDER: seq<nat> := [16, 17, 18, 0, 8, 7, 9, 6, 10, 5, 11, 4, 12, 3, 13, 2, 14, 1, 15]

  /** It is the order in which they are read. */
  lemma OrderSame(rank: nat)
    requires rank < BL_CODES
    ensures |BL_ORDER| == BL_CODES && BL_ORDER[rank] == CL_ORDER[rank]
  {}

  class BlockCoder {
    const bw: Writer
    const ws: Workspace
    const tables: CodeTables
    const dynL: CtData
    const dynD: CtData
    const bl: CtData
    const lBuf: array<nat>
    const dBuf: array<nat>
    const flagBuf: array<nat>
    var lastLit: nat
    var lastDist: nat
    var lastFlags: nat
    var flags: nat
    var flagBit: nat
    ghost var tokens: seq<Token> // what the buffers hold
    ghost const rank: map<object, nat> // tells all arrays apart

    ghost predicate Placed(o: object, k: nat) {
      In(rank, o, k)
    }

    /** The arrays have their sizes, and no two of them are the same. */
    ghost predicate Layout() {
      && ws.Valid() && dynL.Valid(2 * L_CODES + 1) && dynD.Valid(2 * D_CODES + 1) && bl.Valid(2 * BL_CODES + 1)
      && tables.staticL.Valid(288) && tables.staticD.Valid(D_CODES)
      && lBuf.Length == LIT_BUFSIZE && dBuf.Length == DIST_BUFSIZE && flagBuf.Length == LIT_BUFSIZE / 8
      && Placed(bw.outbuf, 0) && Placed(ws.heap, 1) && Placed(ws.depth, 2) && Placed(ws.blCount, 3)
      && Placed(dynL.fc, 4) && Placed(dynL.dl, 5) && Placed(dynD.fc, 6) && Placed(dynD.dl, 7)
      && Placed(bl.fc, 8) && Placed(bl.dl, 9)
      && Placed(tables.staticL.fc, 10) && Placed(tables.staticL.dl, 11)
      && Placed(tables.staticD.fc, 12) && Placed(tables.staticD.dl, 13)
      && Placed(lBuf, 14) && Placed(dBuf, 15) && Placed(flagBuf, 16)
    }

    /** Everything the coder owns. */
    ghost function Footprint(): set<object> {
      {this, bw, ws} + rank.Keys
    }

    /** The frequencies are those of the tokens; nothing has been built from them yet. */
    ghost predicate Counted()
      reads this`tokens, ws, dynL.fc, dynD.fc, bl.fc
    {
      && Layout() && TokensOk(tokens)
      && dynL.fc[..L_CODES] == LFreqs(tokens) && dynD.fc[..D_CODES] == DFreqs(tokens)
      && (forall i :: 0 <= i < BL_CODES ==> bl.fc[i] == 0)
      && ws.optLen == 0 && ws.staticLen == 0
    }

    ghost predicate Buffered()
      reads this, lBuf, dBuf, flagBuf
    {
      Tallying(tokens, lBuf[..], dBuf[..], flagBuf[..], lastLit, lastDist, lastFlags, flags, flagBit)
    }

    /** What holds between the calls that add tokens or end a block. */
    ghost predicate Coding()
      reads Footprint()
    {
      Layout() && bw.Valid() && tables.Valid() && Counted() && Buffered()
    }

    constructor (w: Writer, s: Workspace, t: CodeTables, l: CtData, d: CtData, b: CtData,
                 lb: array<nat>, db: array<nat>, fb: array<nat>, ghost r: map<object, nat>)
      ensures bw == w && ws == s && tables == t && dynL == l && dynD == d && bl == b
      ensures lBuf == lb && dBuf == db && flagBuf == fb && rank == r
    {
      bw, ws, tables, dynL, dynD, bl, lBuf, dBuf, flagBuf, rank := w, s, t, l, d, b, lb, db, fb, r;
    }

    /** `o` is none of the arrays that the work on a block changes. */
    ghost predicate Aside(o: object) {
      && o != bw.outbuf && o != ws.heap && o != ws.depth && o != ws.blCount
      && o != dynL.fc && o != dynL.dl && o != dynD.fc && o != dynD.dl && o != bl.fc && o != bl.dl
      && o != lBuf && o != dBuf && o != flagBuf
    }

    /** The static trees are not touched by the work on a block. */
    lemma StaticApart()
      requires Layout()
      ensures Aside(tables.staticL.fc) && Aside(tables.staticL.dl) && Aside(tables.staticD.fc)
      ensures Aside(tables.staticD.dl)
    {}

    lemma TallyApart()
      requires Layout()
      ensures lBuf != dBuf && lBuf != flagBuf && dBuf != flagBuf && dynL.fc != dynD.fc && dynL.fc != bl.fc
      ensures dynD.fc != bl.fc
      ensures lBuf != dynL.fc && lBuf != dynD.fc && lBuf != bl.fc && dBuf != dynL.fc && dBuf != dynD.fc
      ensures dBuf != bl.fc
      ensures flagBuf != dynL.fc && flagBuf != dynD.fc && flagBuf != bl.fc
      ensures lBuf as object != bw.outbuf && dBuf as object != bw.outbuf && flagBuf as object != bw.outbuf
      ensures dynL.fc as object != bw.outbuf && dynD.fc as object != bw.outbuf && bl.fc as object != bw.outbuf
      ensures lBuf.Length == LIT_BUFSIZE && dBuf.Length == DIST_BUFSIZE && flagBuf.Length == LIT_BUFSIZE / 8
      ensures dynL.fc.Length == 2 * L_CODES + 1 && dynD.fc.Length == 2 * D_CODES + 1
      ensures bl.fc.Length == 2 * BL_CODES + 1
    {}

    // ---------- a new block, and its tokens ----------

    /** Starts an empty block. */
    method InitBlock()
      requires Layout() && bw.Valid() && tables.Valid()
      modifies this, ws`optLen, ws`staticLen, dynL.fc, dynD.fc, bl.fc
      ensures Coding() && tokens == []
    {
      hide Layout, CodeTables.Valid, Writer.Valid, Tallying, LFreqs, DFreqs;
      StaticApart();
      TallyApart();
      ClearTrees();
      ClearTotals();
    }

    method ClearTotals()
      requires Layout()
      modifies this, ws`optLen, ws`staticLen
      ensures ws.optLen == 0 && ws.staticLen == 0 && tokens == [] && Buffered()
    {
      hide Layout, Tallying;
      TallyApart();
      ws.optLen, ws.staticLen := 0, 0;
      lastLit, lastDist, lastFlags := 0, 0, 0;
      flags := 0;
      flagBit := 1;
      tokens := [];
      TallyStart(lBuf[..], dBuf[..], flagBuf[..]);
    }

    method ClearTrees()
      requires Layout()
      modifies dynL.fc, dynD.fc, bl.fc
      ensures TokensOk([]) && dynL.fc[..L_CODES] == LFreqs([]) && dynD.fc[..D_CODES] == DFreqs([])
      ensures forall i :: 0 <= i < BL_CODES ==> bl.fc[i] == 0
    {
      hide Layout, LFreqs, DFreqs;
      TallyApart();
      ClearFreqs(dynL.fc, L_CODES);
      ClearFreqs(dynD.fc, D_CODES);
      ClearFreqs(bl.fc, BL_CODES);
      dynL.fc[END_BLOCK] := 1;
      NoFreqs(dynL.fc[..L_CODES], dynD.fc[..D_CODES]);
    }

    /** Counts `s` once more. */
    method Bump(fc: array<nat>, ghost n: nat, s: nat)
      requires s < n <= fc.Length
      modifies fc
      ensures fc[..n] == Bumped(old(fc[..n]), s)
    {
      fc[s] := fc[s] + 1;
    }

    /** Adds a literal (`dist` zero, `lc` the byte) or a match (`lc` its length, less the shortest one). */
    method CtTally(dist: nat, lc: nat, strstart: nat, blockStart: int) returns (flush: bool)
      requires Coding() && |tokens| < LIT_BUFSIZE - 1 && lc < 256 && dist <= MAX_DISTANCE
      modifies this, dynL.fc, dynD.fc, lBuf, dBuf, flagBuf
      ensures Coding() && tokens == old(tokens) + [if dist == 0 then Literal(lc) else Match(lc + MIN_MATCH, dist)]
      ensures TokensOk(tokens)
      ensures flush <==> |tokens| == LIT_BUFSIZE - 1 || StopsHere(tokens, U(strstart - blockStart))
    {
      hide Layout, CodeTables.Valid, Writer.Valid, Tallying, LFreqs, DFreqs, LenCode, DistCode, TokensOk;
      hide Dists, EstimateBits, StopsHere;
      StaticApart();
      TallyApart();
      ghost var t := if dist == 0 then Literal(lc) else Match(lc + MIN_MATCH, dist);
      assert tables.MappingsOk() by { TablesFacts(); }
      CountToken(dist, lc, t);
      BufferToken(dist, lc, t);
      tokens := tokens + [t];
      TallyingFacts(tokens, lBuf[..], dBuf[..], flagBuf[..], lastLit, lastDist, lastFlags, flags, flagBit);
      flush := BlockFull(strstart, blockStart);
    }

    /** Whether the block ought to be ended after this token. */
    method BlockFull(strstart: nat, blockStart: int) returns (flush: bool)
      requires Counted() && lastLit == |tokens| < LIT_BUFSIZE && lastDist == |Dists(tokens)|
      ensures flush <==> |tokens| == LIT_BUFSIZE - 1 || StopsHere(tokens, U(strstart - blockStart))
    {
      hide Layout, LFreqs, DFreqs, TokensOk, Dists, EstimateBits;
      if lastLit % 0x1000 == 0 {
        var outLength := OutEstimate();
        var inLength := U(strstart - blockStart);
        if lastDist < lastLit / 2 && outLength < inLength / 2 {
          return true;
        }
      }
      return lastLit == LIT_BUFSIZE - 1 || lastDist == DIST_BUFSIZE;
    }

    lemma TablesFacts()
      requires tables.Valid()
      ensures tables.MappingsOk()
    {}

    /** A guess at the bytes the block will take. */
    method OutEstimate() returns (bytes: nat)
      requires Counted() && lastLit == |tokens| < LIT_BUFSIZE
      ensures bytes == EstimateBits(tokens) / 8
    {
      hide Layout, LFreqs, DFreqs, TokensOk, EstimateBits, DistBits, U;
      EstimateByCodes(tokens);
      TallyApart();
      ghost var w := DFreqs(tokens);
      USmall(lastLit * 8);
      bytes := U(lastLit * 8);
      var code := 0;
      DistBitsStart(w);
      while code < D_CODES
        invariant code <= D_CODES && bytes == 8 * |tokens| + DistBits(w, code)
      {
        DistBitsNext(w, code);
        DistBitsMono(w, code + 1);
        assert dynD.fc[code] == w[code] by { assert dynD.fc[..D_CODES][code] == dynD.fc[code]; }
        USmall(bytes + dynD.fc[code] * (5 + EXTRA_DBITS[code]));
        bytes := U(bytes + dynD.fc[code] * (5 + EXTRA_DBITS[code]));
        code := code + 1;
      }
      bytes := bytes / 8;
    }

    method CountToken(dist: nat, lc: nat, ghost t: Token)
      requires Layout() && tables.MappingsOk() && Counted() && lc < 256 && dist <= MAX_DISTANCE
      requires t == if dist == 0 then Literal(lc) else Match(lc + MIN_MATCH, dist)
      modifies dynL.fc, dynD.fc
      ensures TokensOk(tokens + [t]) && dynL.fc[..L_CODES] == LFreqs(tokens + [t])
      ensures dynD.fc[..D_CODES] == DFreqs(tokens + [t])
    {
      hide Layout, LFreqs, DFreqs, LenCode, DistCode, TokensOk, DCode, Ready, CodeTables.MappingsOk;
      TallyApart();
      LFreqsNext(tokens, t);
      if dist == 0 {
        Bump(dynL.fc, L_CODES, lc);
      } else {
        CountMatch(dist - 1, lc);
      }
    }

    method CountMatch(dist: nat, lc: nat)
      requires Layout() && tables.MappingsOk() && lc < 256 && dist < MAX_DISTANCE
      modifies dynL.fc, dynD.fc
      ensures dynL.fc[..L_CODES] == Bumped(old(dynL.fc[..L_CODES]), END_BLOCK + 1 + LenCode(lc + MIN_MATCH))
      ensures dynD.fc[..D_CODES] == Bumped(old(dynD.fc[..D_CODES]), DistCode(dist + 1))
    {
      hide Layout, LenCode, DistCode, DCode, CodeTables.MappingsOk;
      TallyApart();
      LengthFacts(lc);
      DistFacts(dist);
      Bump(dynL.fc, L_CODES, tables.lengthCode[lc] + LITERALS + 1);
      Bump(dynD.fc, D_CODES, DCode(tables.distCode, dist));
    }

    method BufferToken(dist: nat, lc: nat, ghost t: Token)
      requires Layout() && Buffered() && |tokens| < LIT_BUFSIZE - 1 && lc < 256 && dist <= MAX_DISTANCE
      requires t == if dist == 0 then Literal(lc) else Match(lc + MIN_MATCH, dist)
      modifies this`lastLit, this`lastDist, this`lastFlags, this`flags, this`flagBit, lBuf, dBuf, flagBuf
      ensures Tallying(tokens + [t], lBuf[..], dBuf[..], flagBuf[..], lastLit, lastDist, lastFlags, flags, flagBit)
    {
      hide Layout, Tallying, Or;
      TallyApart();
      ghost var l, d, f, n, k, g, b := lBuf[..], dBuf[..], flagBuf[..], lastLit, lastDist, lastFlags, flagBit;
      ghost var flags0 := flags;
      TallyingFacts(tokens, l, d, f, n, k, g, flags, b);
      lBuf[lastLit] := lc;
      lastLit := lastLit + 1;
      if dist != 0 {
        dBuf[lastDist] := dist - 1;
        lastDist := lastDist + 1;
        flags := Or(flags, flagBit);
      }
      assert lBuf[..] == l[n := lc] && flagBuf[..] == f;
      assert if dist == 0 then dBuf[..] == d else dBuf[..] == d[k := dBuf[k]];
      SaveFlags();
      TallyMore(tokens, l, d, f, lBuf[..], dBuf[..], flagBuf[..], n, k, g, flags0, b, t);
    }

    /** Every eighth token completes a byte of flags. */
    method SaveFlags()
      requires lastLit % 8 == 0 ==> lastFlags < flagBuf.Length
      modifies this`lastFlags, this`flags, this`flagBit, flagBuf
      ensures flagBuf[..]
           == if lastLit % 8 == 0 then old(flagBuf[..])[old(lastFlags) := old(flags)] else old(flagBuf[..])
      ensures lastFlags == old(lastFlags) + if lastLit % 8 == 0 then 1 else 0
      ensures flags == if lastLit % 8 == 0 then 0 else old(flags)
      ensures flagBit == if lastLit % 8 == 0 then 1 else 2 * old(flagBit) % 256
    {
      flagBit := 2 * flagBit % 256;
      if lastLit % 8 == 0 {
        flagBuf[lastFlags] := flags;
        lastFlags := lastFlags + 1;
        flags := 0;
        flagBit := 1;
      }
    }

    // ---------- the trees of a block ----------

    /** What building trees and scanning them may change. */
    lemma TreesApart()
      requires Layout()
      ensures ws.Valid() && ws.Apart(dynL) && ws.Apart(dynD) && ws.Apart(bl)
      ensures dynL.Valid(2 * L_CODES + 1) && dynD.Valid(2 * D_CODES + 1) && bl.Valid(2 * BL_CODES + 1)
      ensures dynL.fc != dynD.fc && dynL.fc != dynD.dl && dynL.dl != dynD.fc && dynL.dl != dynD.dl
      ensures dynL.fc != bl.fc && dynL.fc != bl.dl && dynL.dl != bl.fc && dynL.dl != bl.dl
      ensures dynD.fc != bl.fc && dynD.fc != bl.dl && dynD.dl != bl.fc && dynD.dl != bl.dl
      ensures Separate(bw, dynL) && Separate(bw, dynD) && Separate(bw, bl)
      ensures bw.outbuf as object != ws.heap && bw.outbuf as object != ws.depth && bw.outbuf as object != ws.blCount
    {}

    /** Builds the tree for the frequencies `f`, and adds what they cost to the totals. */
    method BuildFor(t: CtData, d: Desc, ghost f: seq<nat>, ghost opt: nat, ghost stat: nat)
      returns (maxCode: nat, ghost lens: seq<nat>)
      requires ws.Valid() && ws.Apart(t) && t.Valid(2 * d.elems + 1) && d.Ok() && |f| == d.elems
      requires t.fc[..d.elems] == f && Sum(f) + 2 < 0x10000
      requires ws.optLen == U(opt) && ws.staticLen == U(stat)
      modifies ws, ws.heap, ws.depth, ws.blCount, t.fc, t.dl
      ensures |lens| == maxCode + 1 <= d.elems && TreeFor(t, d, f, lens)
      ensures forall x :: maxCode < x < d.elems ==> t.dl[x] == 0
      ensures ws.optLen == U(opt + Cost(d, f, lens)) && ws.staticLen == U(stat + StaticCost(d, f, lens))
    {
      hide Symbols, SumSet, Optimal, GoodTree, GoodLengths, CodesOf, Covers, Cost, StaticCost, Sum, U, Pow2;
      hide HuffmanFor, HuffmanLengths, Fib;
      ghost var w := t.fc[..];
      assert w[..d.elems] == f;
      FewSymbols(w, f);
      ghost var tree;
      maxCode, tree := ws.BuildTree(t, d);
      lens := t.dl[..maxCode + 1];
      HuffmanFrame(d, w, f, lens, tree);
      TreeFromFreqs(d, w, f, lens);
      UAdd(opt, Cost(d, w, lens));
      UAdd(stat, StaticCost(d, w, lens));
    }

    /** Trees for the tokens, with the lengths `ll` and `d`. */
    ghost predicate TwoTrees(ll: seq<nat>, d: seq<nat>)
      reads this`tokens, dynL.fc, dynL.dl, dynD.fc, dynD.dl
    {
      && TokensOk(tokens) && |ll| < dynL.dl.Length && |d| < dynD.dl.Length
      && TreeFor(dynL, LDesc(), LFreqs(tokens), ll) && TreeFor(dynD, DDesc(), DFreqs(tokens), d)
    }

    /** Tallies the code length symbols that both trees need. */
    method ScanBoth(lMax: nat, dMax: nat, ghost ll: seq<nat>, ghost d: seq<nat>)
      requires Layout() && |ll| == lMax + 1 && |d| == dMax + 1 && TwoTrees(ll, d)
      requires forall i :: 0 <= i < BL_CODES ==> bl.fc[i] == 0
      modifies dynL.dl, dynD.dl, bl.fc
      ensures TwoTrees(ll, d) && dynL.dl[|ll|] == GUARD && dynD.dl[|d|] == GUARD
      ensures OpsOk(LengthOps(ll, d)) && bl.fc[..BL_CODES] == BlFreqs(LengthOps(ll, d))
    {
      hide HuffmanLengths, Layout, GoodLengths, CodesOf, Covers, Rle, OpsOk, Tally, BlFreqs, LFreqs, DFreqs, LDesc;
      hide DDesc, Desc.Extra, LensOk, AllAtMost;
      TreesApart();
      TreeFacts(dynL, dynD, LFreqs(tokens), DFreqs(tokens), ll, d, tokens);
      ScanTree(dynL, lMax, bl);
      assert dynL.dl[..lMax + 1] == ll;
      ScanTree(dynD, dMax, bl);
      assert dynD.dl[..dMax + 1] == d;
      BlSum(bl.fc[..], Rle(ll, 0, -1), Rle(d, 0, -1));
    }

    /** Builds the code length tree, and returns the rank of the last length of it to send. */
    method BuildBlTree(lMax: nat, dMax: nat, ghost ll: seq<nat>, ghost d: seq<nat>, ghost opt: nat, ghost stat: nat)
      returns (maxBlindex: nat, ghost cl: seq<nat>)
      requires Layout() && |ll| == lMax + 1 && |d| == dMax + 1 && TwoTrees(ll, d)
      requires forall i :: 0 <= i < BL_CODES ==> bl.fc[i] == 0
      requires ws.optLen == U(opt) && ws.staticLen == U(stat)
      modifies ws, ws.heap, ws.depth, ws.blCount, dynL.dl, dynD.dl, bl.fc, bl.dl
      ensures TwoTrees(ll, d) && dynL.dl[|ll|] == GUARD && dynD.dl[|d|] == GUARD
      ensures ClReady(bl, cl) && ClFor(cl, ll, d) && LastUsed(cl, maxBlindex)
      ensures OpsOk(LengthOps(ll, d)) && ws.staticLen == U(stat)
      ensures |cl| == BL_CODES && ws.optLen == U(opt + BlCost(cl, ll, d) + 3 * (maxBlindex + 1) + 14)
    {
      hide Layout, GoodLengths, CodesOf, Covers, Rle, OpsOk, BlFreqs, LFreqs, DFreqs, LDesc, DDesc, BlDesc, Desc.Ok;
      hide Desc.Extra, LensOk;
      hide Sum, Cost, StaticCost, TreeFor, ClFor, U, ClReady, AllAtMost, BlCost, LastUsed;
      TreesApart();
      TreeFacts(dynL, dynD, LFreqs(tokens), DFreqs(tokens), ll, d, tokens);
      ScanBoth(lMax, dMax, ll, d);
      ghost var ops := LengthOps(ll, d);
      ScanSmall(ll, d);
      DescsOk();
      var top;
      ghost var lens;
      top, lens := BuildFor(bl, BlDesc(), BlFreqs(ops), opt, stat);
      cl := bl.dl[..BL_CODES];
      BlTreeDone(lens, cl, ll, d);
      NoStatic(BlDesc(), BlFreqs(ops), lens);
      maxBlindex := LastRank(cl, ll, d);
      UAdd(opt + BlCost(cl, ll, d), 3 * (maxBlindex + 1) + 5 + 5 + 4);
      ws.optLen := U(ws.optLen + 3 * (maxBlindex + 1) + 5 + 5 + 4);
    }

    /** The code length tree, with zero lengths for the symbols after its last one. */
    lemma BlTreeDone(lens: seq<nat>, cl: seq<nat>, ll: seq<nat>, d: seq<nat>)
      requires OpsOk(LengthOps(ll, d)) && bl.Valid(2 * BL_CODES + 1)
      requires TreeFor(bl, BlDesc(), BlFreqs(LengthOps(ll, d)), lens)
      requires forall x :: |lens| <= x < BL_CODES ==> bl.dl[x] == 0
      requires cl == bl.dl[..BL_CODES]
      ensures ClReady(bl, cl) && ClFor(cl, ll, d) && 0 < |lens| <= BL_CODES
      ensures Cost(BlDesc(), BlFreqs(LengthOps(ll, d)), lens) == BlCost(cl, ll, d)
    {
      hide HuffmanLengths, ClFor, Rle, OpsOk, BlFreqs, CodesOf, GoodLengths, Covers, Cost, Desc.Extra, LensOk;
      var z := cl[|lens|..];
      assert cl == lens + z by { assert cl[..|lens|] == lens; }
      CodesTail(bl.fc[..], lens, z);
      ClForDone(lens, z, cl, ll, d);
      CostTail(BlDesc(), BlFreqs(LengthOps(ll, d)), lens, z);
    }

    /** The last rank, from 3 on, whose code length code is used. */
    method LastRank(ghost cl: seq<nat>, ghost ll: seq<nat>, ghost d: seq<nat>) returns (maxBlindex: nat)
      requires bl.Valid(2 * BL_CODES + 1) && cl == bl.dl[..BL_CODES] && ClFor(cl, ll, d) && LensOk(ll)
      requires |ll| > END_BLOCK && ll[END_BLOCK] > 0
      ensures LastUsed(cl, maxBlindex)
    {
      hide HuffmanLengths, ClTree, Rle, AllSendable, GoodLengths, LensOk;
      SomeRank(ll, cl);
      maxBlindex := BL_CODES - 1;
      while maxBlindex >= 3
        invariant 2 <= maxBlindex < BL_CODES && forall k :: maxBlindex < k < BL_CODES ==> cl[CL_ORDER[k]] == 0
      {
        OrderSame(maxBlindex);
        assert bl.dl[CL_ORDER[maxBlindex]] == cl[CL_ORDER[maxBlindex]];
        if bl.dl[BL_ORDER[maxBlindex]] != 0 {
          break;
        }
        maxBlindex := maxBlindex - 1;
      }
    }

    /** Everything a dynamic block of the tokens needs is in place, and its size is known. */
    ghost predicate TreesBuilt(ll: seq<nat>, d: seq<nat>, cl: seq<nat>, n: nat)
      reads this`tokens, dynL.fc, dynL.dl, dynD.fc, dynD.dl, bl.fc, bl.dl, ws`optLen, ws`staticLen
    {
      && TwoTrees(ll, d) && dynL.dl[|ll|] == GUARD && dynD.dl[|d|] == GUARD
      && ClReady(bl, cl) && TreesOk(ll, d, cl, n) && Measured(ll, d, tokens)
      && HuffmanBlock(Dynamic(tokens, ll, d, cl, n))
      && ws.optLen == |EncTrees(ll, d, cl, n) + EncData(ll, d, tokens)|
      && ws.staticLen == |EncData(FixedLL(), FixedD(), tokens)| <= 253928
    }

    /** Builds the three trees of a dynamic block. */
    method BuildTrees() returns (lMax: nat, dMax: nat, maxBlindex: nat, ghost ll: seq<nat>, ghost d: seq<nat>,
                      ghost cl: seq<nat>)
      requires Counted() && |tokens| < LIT_BUFSIZE
      modifies ws, ws.heap, ws.depth, ws.blCount, dynL.fc, dynL.dl, dynD.fc, dynD.dl, bl.fc, bl.dl
      ensures |ll| == lMax + 1 && |d| == dMax + 1 && TreesBuilt(ll, d, cl, maxBlindex + 1)
    {
      hide HuffmanBlock, Layout, TreeFor, ClFor, ClReady, LastUsed, LFreqs, DFreqs, Cost, StaticCost, BlCost, LDesc;
      hide DDesc, Desc.Ok, Sum, U, OpsOk;
      hide TreesOk, Measured, LengthOps, EncTrees, EncData, LensOk, TokensOk;
      TreesApart();
      DescsOk();
      FreqSums(tokens);
      UZero();
      ghost var lf, df := LFreqs(tokens), DFreqs(tokens);
      assert dynL.fc[..LDesc().elems] == lf && dynD.fc[..DDesc().elems] == df;
      lMax, ll := BuildFor(dynL, LDesc(), lf, 0, 0);
      ghost var opt, stat := Cost(LDesc(), lf, ll), StaticCost(LDesc(), lf, ll);
      dMax, d := BuildFor(dynD, DDesc(), df, opt, stat);
      opt, stat := opt + Cost(DDesc(), df, d), stat + StaticCost(DDesc(), df, d);
      maxBlindex, cl := BuildBlTree(lMax, dMax, ll, d, opt, stat);
      TreesDone(dynL, dynD, tokens, ll, d, cl, maxBlindex);
      DynamicLength(tokens, ll, d, cl, maxBlindex + 1);
      USmall(opt + BlCost(cl, ll, d) + 3 * (maxBlindex + 1) + 14);
      USmall(stat);
    }

    method SendCounts(lcodes: nat, dcodes: nat, blcodes: nat, ghost ll: seq<nat>, ghost d: seq<nat>)
      requires bw.Valid() && lcodes == |ll| && dcodes == |d| && 257 <= |ll| <= 286 && 1 <= |d| <= 30
      requires 4 <= blcodes <= 19
      modifies bw, bw.outbuf
      ensures bw.Valid() && bw.Stream() == old(bw.Stream()) + EncCounts(ll, d, blcodes)
    {
      Pow2Table();
      hide Lsb, Pow2;
      ghost var base := bw.Stream();
      bw.SendBits(lcodes - 257, 5);
      bw.SendBits(dcodes - 1, 5);
      bw.SendBits(blcodes - 4, 4);
      Assoc(base + Lsb(|ll| - 257, 5), Lsb(|d| - 1, 5), Lsb(blcodes - 4, 4));
      Assoc(base, Lsb(|ll| - 257, 5), Lsb(|d| - 1, 5) + Lsb(blcodes - 4, 4));
    }

    method SendClLengths(blcodes: nat, ghost cl: seq<nat>)
      requires bw.Valid() && ClReady(bl, cl) && blcodes <= BL_CODES && Separate(bw, bl)
      modifies bw, bw.outbuf
      ensures bw.Valid() && bw.Stream() == old(bw.Stream()) + EncCl(cl, blcodes)
    {
      Pow2Table();
      hide Lsb, Pow2, EncCl, ClReady;
      ghost var base := bw.Stream();
      ClAt(bl, cl, 0);
      NoCl(cl);
      var rank := 0;
      while rank < blcodes
        invariant rank <= blcodes && bw.Valid() && bw.Stream() == base + EncCl(cl, rank)
        invariant ClReady(bl, cl)
      {
        ClAt(bl, cl, CL_ORDER[rank]);
        NextCl(cl, rank);
        Assoc(base, EncCl(cl, rank), Lsb(cl[CL_ORDER[rank]], 3));
        OrderSame(rank);
        bw.SendBits(bl.dl[BL_ORDER[rank]], 3);
        rank := rank + 1;
      }
    }

    /** Sends the lengths of all three trees. */
    method SendAllTrees(lcodes: nat, dcodes: nat, blcodes: nat, ghost ll: seq<nat>, ghost d: seq<nat>,
                        ghost cl: seq<nat>)
      requires Layout() && bw.Valid() && TreesBuilt(ll, d, cl, blcodes) && lcodes == |ll| && dcodes == |d|
      modifies bw, bw.outbuf
      ensures bw.Valid() && bw.Stream() == old(bw.Stream()) + EncTrees(ll, d, cl, blcodes)
    {
      hide HuffmanBlock, Layout, TreeFor, ClReady, LFreqs, DFreqs, LDesc, DDesc, Measured, EncData, LensOk;
      hide TokensOk, EncOps, Lsb;
      hide Rle, AllSendable, GoodLengths, EncCl, EncCounts;
      TreesApart();
      TreeLengths(dynL, LDesc(), LFreqs(tokens), ll);
      TreeLengths(dynD, DDesc(), DFreqs(tokens), d);
      ghost var base := bw.Stream();
      SendCounts(lcodes, dcodes, blcodes, ll, d);
      SendClLengths(blcodes, cl);
      SendTree(dynL, lcodes - 1, bl, bw, cl);
      SendTree(dynD, dcodes - 1, bl, bw, cl);
      FiveParts(base, EncCounts(ll, d, blcodes), EncCl(cl, blcodes),
                      EncOps(cl, Rle(ll, 0, -1)), EncOps(cl, Rle(d, 0, -1)));
    }

    // ---------- sending tokens ----------

    /** Sends the code of symbol `c`. */
    method SendSymbol(t: CtData, c: nat, ghost lens: seq<nat>)
      requires bw.Valid() && Separate(bw, t) && t.fc.Length == t.dl.Length && Ready(t, lens)
      requires c < |lens| && c < t.fc.Length && 0 < lens[c] <= MAX_BITS
      modifies bw, bw.outbuf
      ensures bw.Valid() && bw.Stream() == old(bw.Stream()) + Code(lens, c)
    {
      hide Code, Lsb;
      assert CodeAt(t.fc[c], lens, c);
      bw.SendBits(t.fc[c], t.dl[c]);
    }

    /** Sends a code and its extra bits, if it has any. */
    method SendCoded(t: CtData, c: nat, value: int, extra: nat, ghost lens: seq<nat>, ghost v: nat)
      requires bw.Valid() && Separate(bw, t) && t.fc.Length == t.dl.Length && Ready(t, lens)
      requires c < |lens| && c < t.fc.Length && 0 < lens[c] <= MAX_BITS
      requires extra <= 13 && (extra > 0 ==> v == value && v < Pow2(extra))
      modifies bw, bw.outbuf
      ensures bw.Valid() && bw.Stream() == old(bw.Stream()) + (Code(lens, c) + Lsb(v, extra))
    {
      hide Code, Lsb, Pow2, Ready;
      ghost var base := bw.Stream();
      NoBits(v, extra);
      Assoc(base, Code(lens, c), Lsb(v, extra));
      SendSymbol(t, c, lens);
      if extra != 0 {
        bw.SendBits(value, extra);
      } else {
        assert bw.Stream() + [] == bw.Stream();
      }
    }

    lemma LengthFacts(lc: nat)
      requires tables.MappingsOk() && lc <= MAX_MATCH - MIN_MATCH
      ensures |tables.lengthCode| == 256 && |tables.baseLength| == LENGTH_CODES
      ensures tables.lengthCode[lc] == LenCode(lc + MIN_MATCH) < LENGTH_CODES
      ensures var c := LenCode(lc + MIN_MATCH);
              && EXTRA_LBITS[c] == LenExtra(c) <= 5
              && (LenExtra(c) > 0 ==> tables.baseLength[c] == LenBase(c) - MIN_MATCH)
    {
      hide LenBase, LenCode, DCode;
      assert tables.lengthCode[lc + MIN_MATCH - MIN_MATCH] == LenCode(lc + MIN_MATCH);
      LExtra(LenCode(lc + MIN_MATCH));
      ExtraBound(LenCode(lc + MIN_MATCH), 0);
    }

    lemma DistFacts(dist: nat)
      requires tables.MappingsOk() && dist < MAX_DISTANCE
      ensures |tables.distCode| == 512 && |tables.baseDist| == D_CODES
      ensures DCode(tables.distCode, dist) == DistCode(dist + 1) < D_CODES
      ensures var c := DistCode(dist + 1);
              EXTRA_DBITS[c] == DistExtra(c) <= 13 && tables.baseDist[c] == DistBase(c) - 1
    {
      hide DistBase, DistExtra, DistCode, DCode;
      DExtra(DistCode(dist + 1));
      ExtraBound(0, DistCode(dist + 1));
    }

    method SendLength(ltree: CtData, lc: nat, ghost ll: seq<nat>, ghost d: seq<nat>, ghost t: Token)
      requires tables.MappingsOk() && bw.Valid() && Separate(bw, ltree) && Ready(ltree, ll)
      requires LensOk(ll) && ltree.fc.Length == ltree.dl.Length >= L_CODES
      requires t.Match? && Codable(ll, d, t) && lc == t.len - MIN_MATCH
      modifies bw, bw.outbuf
      ensures bw.Valid() && bw.Stream() == old(bw.Stream()) + EncLen(ll, t.len)
    {
      hide Code, Lsb, LenBase, LenExtra, LenCode, DistCode, Pow2, Ready, CodeTables.MappingsOk, LensOk;
      LengthFacts(lc);
      LenBound(ll, END_BLOCK + 1 + LenCode(lc + MIN_MATCH));
      var code := tables.lengthCode[lc];
      ghost var v: nat := lc + MIN_MATCH - LenBase(code);
      SendCoded(ltree, code + LITERALS + 1, lc - tables.baseLength[code], EXTRA_LBITS[code], ll, v);
    }

    method SendDistance(dtree: CtData, dist: nat, ghost ll: seq<nat>, ghost d: seq<nat>, ghost t: Token)
      requires tables.MappingsOk() && bw.Valid() && Separate(bw, dtree) && Ready(dtree, d)
      requires LensOk(d) && dtree.fc.Length == dtree.dl.Length >= D_CODES
      requires t.Match? && Codable(ll, d, t) && dist == t.dist - 1
      modifies bw, bw.outbuf
      ensures bw.Valid() && bw.Stream() == old(bw.Stream()) + EncDist(d, t.dist)
    {
      hide Code, Lsb, DistBase, DistExtra, LenCode, DistCode, Pow2, Ready, DCode, CodeTables.MappingsOk, LensOk;
      DistFacts(dist);
      LenBound(d, DistCode(dist + 1));
      var code := DCode(tables.distCode, dist);
      ghost var v: nat := dist + 1 - DistBase(code);
      SendCoded(dtree, code, dist - tables.baseDist[code], EXTRA_DBITS[code], d, v);
    }

    /** The trees can code the tokens. */
    ghost predicate Sends(ltree: CtData, dtree: CtData, ll: seq<nat>, d: seq<nat>)
      reads this`tokens, ltree.fc, ltree.dl, dtree.fc, dtree.dl
    {
      && Separate(bw, ltree) && Ready(ltree, ll) && LensOk(ll) && ltree.fc.Length == ltree.dl.Length >= L_CODES
      && Separate(bw, dtree) && Ready(dtree, d) && LensOk(d) && dtree.fc.Length == dtree.dl.Length >= D_CODES
      && 257 <= |ll| && ll[END_BLOCK] > 0 && AllCodable(ll, d, tokens)
    }

    ghost predicate BuffersSaved()
      reads this`tokens, this`lastLit, lBuf, dBuf, flagBuf
    {
      lastLit == |tokens| && Saved(tokens, lBuf[..], dBuf[..], flagBuf[..])
    }

    /** Sends the token `t`: a literal, or the length and the distance of a match. */
    method SendToken(ltree: CtData, dtree: CtData, lc: nat, isMatch: bool, dist: nat, ghost t: Token,
                     ghost ll: seq<nat>, ghost d: seq<nat>)
      requires tables.MappingsOk() && bw.Valid() && Sends(ltree, dtree, ll, d)
      requires Codable(ll, d, t) && isMatch == t.Match? && lc == Lc(t) && (isMatch ==> dist == t.dist - 1)
      modifies bw, bw.outbuf
      ensures bw.Valid() && bw.Stream() == old(bw.Stream()) + EncToken(ll, d, t)
    {
      hide Code, EncLen, EncDist, LenCode, DistCode, Ready, AllCodable;
      ghost var base := bw.Stream();
      if !isMatch {
        SendSymbol(ltree, lc, ll);
      } else {
        SendLength(ltree, lc, ll, d, t);
        SendDistance(dtree, dist, ll, d, t);
        Assoc(base, EncLen(ll, t.len), EncDist(d, t.dist));
      }
    }

    /** Every eighth token starts a new byte of flags. */
    method NextFlag(lx: nat, dx: nat, fx0: nat, flag0: nat) returns (fx: nat, flag: nat)
      requires lBuf.Length == LIT_BUFSIZE && BuffersSaved() && lx < |tokens|
      requires Unpacking(tokens, lx, dx, fx0, flag0)
      ensures TokensOk(tokens) && dx == |Dists(tokens[..lx])| && fx == (lx + 8) / 8
      ensures flag == Flags(Ahead(tokens, lx))
    {
      hide Unpacking, Saved;
      ReadFlags(tokens, lBuf[..], dBuf[..], flagBuf[..], lx, dx, fx0, flag0);
      NextByte(tokens, lx, dx, fx0, flag0);
      fx, flag := fx0, flag0;
      if lx % 8 == 0 {
        flag := flagBuf[fx];
        fx := fx + 1;
      }
    }

    /** Sends all tokens of the block, and the end-of-block code. */
    method CompressBlock(ltree: CtData, dtree: CtData, ghost ll: seq<nat>, ghost d: seq<nat>)
      requires Layout() && tables.MappingsOk() && bw.Valid() && BuffersSaved() && Sends(ltree, dtree, ll, d)
      modifies bw, bw.outbuf
      ensures bw.Valid() && bw.Stream() == old(bw.Stream()) + EncData(ll, d, tokens)
    {
      hide Code, EncTokens, EncToken, Codable, Saved, Unpacking, Ready, LensOk, CodeTables.MappingsOk;
      hide Dists, Flags, Ahead;
      ghost var ts, base, l0, d0, f0 := tokens, bw.Stream(), lBuf[..], dBuf[..], flagBuf[..];
      var lx, dx, fx, flag := 0, 0, 0, 0;
      SavedFacts(ts, l0, d0, f0);
      ReadStart(ts);
      NoTokens(ll, d);
      assert ts[..0] == [];
      while lx < lastLit
        invariant lx <= |ts| && bw.Valid() && Unpacking(ts, lx, dx, fx, flag)
        invariant lBuf[..] == l0 && dBuf[..] == d0 && flagBuf[..] == f0 && Sends(ltree, dtree, ll, d)
        invariant bw.Stream() == base + EncTokens(ll, d, ts[..lx])
      {
        fx, flag := NextFlag(lx, dx, fx, flag);
        ReadToken(ts, l0, d0, f0, lx, dx, fx, flag);
        ghost var t := ts[lx];
        var lc := lBuf[lx];
        lx := lx + 1;
        TokensNext(ll, d, ts[..lx - 1], t);
        assert ts[..lx - 1] + [t] == ts[..lx];
        Assoc(base, EncTokens(ll, d, ts[..lx - 1]), EncToken(ll, d, t));
        var dist := 0;
        if flag % 2 != 0 {
          dist := dBuf[dx];
          dx := dx + 1;
        }
        SendToken(ltree, dtree, lc, flag % 2 != 0, dist, t, ll, d);
        flag := flag / 2;
      }
      assert ts[..lx] == ts;
      Assoc(base, EncTokens(ll, d, ts), Code(ll, END_BLOCK));
      LenBound(ll, END_BLOCK);
      SendSymbol(ltree, END_BLOCK, ll);
    }

    // ---------- ending a block ----------

    /** Sends the type of a block and whether it is the last one. */
    method SendKind(kind: nat, eof: bool)
      requires bw.Valid() && kind < 3
      modifies bw, bw.outbuf
      ensures bw.Valid() && bw.Stream() == old(bw.Stream()) + KindBits(kind, eof)
      ensures |bw.Stream()| == |old(bw.Stream())| + 3
    {
      Pow2Table();
      hide Pow2, Lsb;
      bw.SendBits(2 * kind + (if eof then 1 else 0), 3);
    }

    method SendStored(buf: seq<byte>, eof: bool, ghost out: seq<byte>)
      requires bw.Valid() && |buf| <= 0xffff
      modifies bw, bw.outbuf
      ensures bw.Valid() && bw.Stream() == old(bw.Stream()) + Stored(buf).Encode(eof, |old(bw.Stream())|, out)
    {
      hide Lsb, ByteBits, PadCount, Padding;
      ghost var base := bw.Stream();
      SendKind(STORED_BLOCK, eof);
      bw.CopyBlock(buf);
      StoredEncoding(base, Stored(buf), eof, out);
    }

    method SendFixed(eof: bool, ghost out: seq<byte>)
      requires Layout() && bw.Valid() && tables.Valid() && BuffersSaved() && Fixed(tokens).Ok(out)
      modifies bw, bw.outbuf
      ensures bw.Valid() && bw.Stream() == old(bw.Stream()) + Fixed(tokens).Encode(eof, |old(bw.Stream())|, out)
    {
      hide Layout, Lsb, EncData, AllCodable, Reachable, Saved, Ready, FixedLL, FixedD, LensOk, GoodLengths;
      hide CodeTables.MappingsOk;
      ghost var base := bw.Stream();
      SendKind(STATIC_TREES, eof);
      StaticSends();
      CompressBlock(tables.staticL, tables.staticD, FixedLL(), FixedD());
      FixedEncoding(base, tokens, eof, out);
    }

    lemma StaticSends()
      requires Layout() && tables.Valid() && AllCodable(FixedLL(), FixedD(), tokens)
      ensures Sends(tables.staticL, tables.staticD, FixedLL(), FixedD())
    {
      FixedGood();
      GoodIsOk(FixedLL());
      GoodIsOk(FixedD());
      hide Ready, AllCodable, LensOk, Kraft;
    }

    lemma DynamicSends(ll: seq<nat>, d: seq<nat>, cl: seq<nat>, n: nat)
      requires Layout() && TreesBuilt(ll, d, cl, n)
      ensures Sends(dynL, dynD, ll, d)
    {
      hide HuffmanLengths, HuffmanBlock, EncTrees, EncData, AllCodable, Kraft, LFreqs, DFreqs, CodesOf, AllSendable;
      hide Rle, Ready, LensOk, FixedLL, FixedD;
      TreeLengths(dynL, LDesc(), LFreqs(tokens), ll);
      TreeLengths(dynD, DDesc(), DFreqs(tokens), d);
      AllReady(dynL, |ll|, ll);
      AllReady(dynD, |d|, d);
    }

    method SendDynamic(eof: bool, lMax: nat, dMax: nat, maxBlindex: nat, ghost ll: seq<nat>, ghost d: seq<nat>,
                       ghost cl: seq<nat>, ghost out: seq<byte>)
      requires Layout() && bw.Valid() && tables.Valid() && BuffersSaved() && TreesBuilt(ll, d, cl, maxBlindex + 1)
      requires |ll| == lMax + 1 && |d| == dMax + 1 && Dynamic(tokens, ll, d, cl, maxBlindex + 1).Ok(out)
      modifies bw, bw.outbuf
      ensures bw.Valid()
      ensures bw.Stream() == old(bw.Stream())
              + Dynamic(tokens, ll, d, cl, maxBlindex + 1).Encode(eof, |old(bw.Stream())|, out)
    {
      hide Layout, Lsb, EncData, EncTrees, AllCodable, Reachable, Saved, Ready, LensOk, TreesBuilt, TreesOk;
      hide CodeTables.MappingsOk;
      ghost var base := bw.Stream();
      SendKind(DYN_TREES, eof);
      TreesApart();
      SendAllTrees(lMax + 1, dMax + 1, maxBlindex + 1, ll, d, cl);
      DynamicSends(ll, d, cl, maxBlindex + 1);
      CompressBlock(dynL, dynD, ll, d);
      DynamicEncoding(base, tokens, ll, d, cl, maxBlindex + 1, eof, out);
    }

    /** Saves the flags of the last tokens. */
    method FinishBuffers()
      requires Layout() && Buffered()
      modifies flagBuf
      ensures BuffersSaved() && |tokens| < LIT_BUFSIZE
    {
      hide Layout, Saved;
      TallyEnd(tokens, lBuf[..], dBuf[..], flagBuf[..], lastLit, lastDist, lastFlags, flags, flagBit);
      flagBuf[lastFlags] := flags;
      TallyApart();
    }

    /** Compares the sizes of the possible blocks in bytes, and sends one. */
    method SendChosen(buf: Option<seq<byte>>, storedLen: nat, eof: bool, lMax: nat, dMax: nat, maxBlindex: nat,
                        ghost ll: seq<nat>, ghost d: seq<nat>, ghost cl: seq<nat>, ghost out: seq<byte>)
      returns (ghost b: Block)
      requires Layout() && bw.Valid() && tables.Valid() && BuffersSaved() && TreesBuilt(ll, d, cl, maxBlindex + 1)
      requires |ll| == lMax + 1 && |d| == dMax + 1 && Reachable(out, tokens)
      requires buf.Some? ==> |buf.value| == storedLen && out + buf.value == Expand(out, tokens)
      modifies bw, bw.outbuf
      ensures bw.Valid() && Emitted(b, Dynamic(tokens, ll, d, cl, maxBlindex + 1), buf, storedLen, tokens, out)
      ensures bw.Stream() == old(bw.Stream()) + b.Encode(eof, |old(bw.Stream())|, out)
    {
      hide Layout, Lsb, EncData, EncTrees, AllCodable, Reachable, Saved, Ready, LensOk, TreesBuilt, TreesOk;
      hide Measured, Expand;
      hide CodeTables.Valid, Emitted, Block.Encode;
      BuiltFacts(ll, d, cl, maxBlindex + 1, buf, storedLen, out);
      var optLenb := (ws.optLen + 3 + 7) / 8;
      var staticLenb := (ws.staticLen + 3 + 7) / 8;
      if staticLenb <= optLenb {
        optLenb := staticLenb;
      }
      if storedLen + 4 <= optLenb && buf.Some? {
        b := Stored(buf.value);
        SendStored(buf.value, eof, out);
      } else if staticLenb == optLenb {
        b := Fixed(tokens);
        SendFixed(eof, out);
      } else {
        b := Dynamic(tokens, ll, d, cl, maxBlindex + 1);
        SendDynamic(eof, lMax, dMax, maxBlindex, ll, d, cl, out);
      }
    }

    lemma BuiltFacts(ll: seq<nat>, d: seq<nat>, cl: seq<nat>, n: nat, buf: Option<seq<byte>>, storedLen: nat,
                     out: seq<byte>)
      requires Layout() && TreesBuilt(ll, d, cl, n) && Reachable(out, tokens)
      requires buf.Some? ==> |buf.value| == storedLen && out + buf.value == Expand(out, tokens)
      ensures Fixed(tokens).Ok(out) && Dynamic(tokens, ll, d, cl, n).Ok(out) && ws.staticLen <= 253928
      ensures Emitted(Pick(buf, storedLen, (ws.staticLen + 3 + 7) / 8, (ws.optLen + 3 + 7) / 8,
                           tokens, Dynamic(tokens, ll, d, cl, n)),
                      Dynamic(tokens, ll, d, cl, n), buf, storedLen, tokens, out)
    {
      hide HuffmanBlock, Layout, EncData, EncTrees, AllCodable, Reachable, TreesOk, Expand, TwoTrees, ClReady;
      hide Codable;
    }

    /** Builds the trees and sends the block. */
    method EmitBlock(buf: Option<seq<byte>>, storedLen: nat, eof: bool, ghost out: seq<byte>)
      returns (ghost b: Block, ghost dyn: Block)
      requires Coding() && Reachable(out, tokens)
      requires buf.Some? ==> |buf.value| == storedLen && out + buf.value == Expand(out, tokens)
      modifies bw, bw.outbuf, ws, ws.heap, ws.depth, ws.blCount,
               dynL.fc, dynL.dl, dynD.fc, dynD.dl, bl.fc, bl.dl, flagBuf
      ensures bw.Valid() && tables.Valid() && Emitted(b, dyn, buf, storedLen, tokens, out)
      ensures bw.Stream() == old(bw.Stream()) + b.Encode(eof, |old(bw.Stream())|, out)
    {
      hide Layout, Reachable, Saved, TreesBuilt, Tallying, LFreqs, DFreqs, TokensOk, CodeTables.Valid, Writer.Valid;
      hide Emitted, Block.Encode, Expand;
      TreesApart();
      TallyApart();
      StaticApart();
      BuffersApart();
      FinishBuffers();
      var lMax, dMax, maxBlindex;
      ghost var ll, d, cl;
      lMax, dMax, maxBlindex, ll, d, cl := BuildTrees();
      dyn := Dynamic(tokens, ll, d, cl, maxBlindex + 1);
      b := SendChosen(buf, storedLen, eof, lMax, dMax, maxBlindex, ll, d, cl, out);
    }

    lemma BuffersApart()
      requires Layout()
      ensures lBuf != ws.heap && lBuf != ws.depth && lBuf != ws.blCount && dBuf != ws.heap && dBuf != ws.depth
      ensures dBuf != ws.blCount
      ensures flagBuf != ws.heap && flagBuf != ws.depth && flagBuf != ws.blCount
      ensures lBuf != dynL.dl && lBuf != dynD.dl && lBuf != bl.dl && dBuf != dynL.dl && dBuf != dynD.dl
      ensures dBuf != bl.dl
      ensures flagBuf != dynL.dl && flagBuf != dynD.dl && flagBuf != bl.dl
    {}

    /**
     * Sends the tokens as one of the three kinds of block, and starts a new block. A block that is not
     * stored is shorter than a stored one, and at most 7 bits longer than the third one; a stored block
     * is at most 17 bits longer than another one, since the code does not count its header and padding.
     */
    method FlushBlock(buf: Option<seq<byte>>, storedLen: nat, eof: bool, ghost out: seq<byte>)
      returns (ghost b: Block, ghost dyn: Block)
      requires Coding() && Reachable(out, tokens)
      requires buf.Some? ==> |buf.value| == storedLen && out + buf.value == Expand(out, tokens)
      modifies Footprint()
      ensures Coding() && tokens == []
      ensures Emitted(b, dyn, buf, storedLen, old(tokens), out)
      ensures NearShortest(b, dyn, buf, old(tokens), eof, |old(bw.Stream())|, out)
      ensures bw.Stream() == Ended(old(bw.Stream()) + b.Encode(eof, |old(bw.Stream())|, out), eof)
      ensures eof ==> bw.biValid == 0
    {
      hide Layout, Reachable, Counted, Buffered, CodeTables.Valid, Writer.Valid, Emitted, Block.Encode, Expand;
      hide Padding, NearShortest;
      TallyApart();
      StaticApart();
      OwnsAll();
      ghost var pos := |bw.Stream()|;
      b, dyn := EmitBlock(buf, storedLen, eof, out);
      ChosenIsNear(b, dyn, buf, storedLen, tokens, eof, pos, out);
      InitBlock();
      if eof {
        PadEnd();
      }
    }

    method PadEnd()
      requires Coding()
      modifies bw, bw.outbuf
      ensures Coding() && bw.Stream() == Ended(old(bw.Stream()), true) && bw.biValid == 0
    {
      hide Layout, Tallying, LFreqs, DFreqs, TokensOk, CodeTables.Valid, Writer.Valid, Padding;
      TallyApart();
      StaticApart();
      bw.BiWindup();
    }

    lemma OwnsAll()
      requires Layout()
      ensures bw in Footprint() && ws in Footprint() && this in Footprint()
      ensures bw.outbuf in Footprint() && ws.heap in Footprint() && ws.depth in Footprint()
      ensures ws.blCount in Footprint()
      ensures dynL.fc in Footprint() && dynL.dl in Footprint() && dynD.fc in Footprint() && dynD.dl in Footprint()
      ensures bl.fc in Footprint() && bl.dl in Footprint() && lBuf in Footprint() && dBuf in Footprint()
      ensures flagBuf in Footprint()
    {}
  }

  ghost predicate In(r: map<object, nat>, o: object, k: nat) {
    o in r && r[o] == k
  }

  lemma PlaceFirst(a: object) returns (q: map<object, nat>)
    ensures In(q, a, 0) && q.Keys == {a}
  {
    q := map[a := 0];
  }

  /** Numbers two new arrays. */
  lemma PlaceTwo(r: map<object, nat>, a: object, b: object, k: nat) returns (q: map<object, nat>)
    requires a !in r && b !in r && a != b
    ensures In(q, a, k) && In(q, b, k + 1) && Extends(r, q, {a, b})
  {
    q := r[a := k][b := k + 1];
  }

  ghost predicate Extends(r: map<object, nat>, q: map<object, nat>, s: set<object>) {
    q.Keys == r.Keys + s && Keeps(r, q)
  }

  ghost predicate Keeps(r: map<object, nat>, q: map<object, nat>) {
    forall o :: o in r ==> In(q, o, r[o])
  }

  /** The writer, the work space and the tables. */
  method NewParts() returns (w: Writer, s: Workspace, t: CodeTables, ghost r: map<object, nat>)
    ensures fresh(w) && fresh(s) && fresh(r.Keys) && w.Valid() && w.Stream() == [] && s.Valid() && t.Valid()
    ensures t.staticL.Valid(288) && t.staticD.Valid(D_CODES)
    ensures In(r, w.outbuf, 0) && In(r, s.heap, 1) && In(r, s.depth, 2) && In(r, s.blCount, 3)
    ensures In(r, t.staticL.fc, 10) && In(r, t.staticL.dl, 11) && In(r, t.staticD.fc, 12) && In(r, t.staticD.dl, 13)
  {
    hide CodeTables.Valid, CodeTables.MappingsOk, Ready, Writer.Valid, Writer.Stream;
    w := new Writer();
    r := PlaceFirst(w.outbuf);
    s := new Workspace();
    r := PlaceTwo(r, s.heap, s.depth, 1);
    r := PlaceOne(r, s.blCount, 3);
    t := new CodeTables(s);
    r := PlaceTwo(r, t.staticL.fc, t.staticL.dl, 10);
    r := PlaceTwo(r, t.staticD.fc, t.staticD.dl, 12);
  }

  lemma PlaceOne(r: map<object, nat>, a: object, k: nat) returns (q: map<object, nat>)
    requires a !in r
    ensures In(q, a, k) && Extends(r, q, {a})
  {
    q := r[a := k];
  }

  method NewTrees(ghost r0: map<object, nat>) returns (l: CtData, d: CtData, b: CtData, ghost r: map<object, nat>)
    ensures l.Valid(2 * L_CODES + 1) && d.Valid(2 * D_CODES + 1) && b.Valid(2 * BL_CODES + 1)
    ensures fresh(r.Keys - r0.Keys)
    ensures In(r, l.fc, 4) && In(r, l.dl, 5) && In(r, d.fc, 6) && In(r, d.dl, 7) && In(r, b.fc, 8) && In(r, b.dl, 9)
    ensures Keeps(r0, r)
    ensures forall i :: 0 <= i < BL_CODES ==> b.fc[i] == 0
  {
    l := new CtData(2 * L_CODES + 1);
    r := PlaceTwo(r0, l.fc, l.dl, 4);
    d := new CtData(2 * D_CODES + 1);
    r := PlaceTwo(r, d.fc, d.dl, 6);
    b := new CtData(2 * BL_CODES + 1);
    r := PlaceTwo(r, b.fc, b.dl, 8);
  }

  method NewBuffers(ghost r0: map<object, nat>) returns (lb: array<nat>, db: array<nat>, fb: array<nat>,
                    ghost r: map<object, nat>)
    ensures lb.Length == LIT_BUFSIZE && db.Length == DIST_BUFSIZE && fb.Length == LIT_BUFSIZE / 8
    ensures fresh(r.Keys - r0.Keys)
    ensures In(r, lb, 14) && In(r, db, 15) && In(r, fb, 16)
    ensures Keeps(r0, r)
  {
    lb := new nat[LIT_BUFSIZE](_ => 0);
    db := new nat[DIST_BUFSIZE](_ => 0);
    fb := new nat[LIT_BUFSIZE / 8](_ => 0);
    r := PlaceTwo(r0, lb, db, 14);
    r := PlaceOne(r, fb, 16);
  }

  /** A coder with its tables filled. */
  method NewCoder() returns (c: BlockCoder)
    ensures fresh(c) && fresh(c.Footprint()) && c.Layout() && c.bw.Valid() && c.bw.Stream() == [] && c.tables.Valid()
  {
    hide CodeTables.Valid, CodeTables.MappingsOk, Ready, Writer.Valid, Writer.Stream;
    var w, s, t, r := NewParts();
    var l, d, b, r1 := NewTrees(r);
    var lb, db, fb, r2 := NewBuffers(r1);
    c := new BlockCoder(w, s, t, l, d, b, lb, db, fb, r2);
  }

  /** The frequencies after one more `s`. */
  function Bumped(w: seq<nat>, s: nat): seq<nat> {
    if s < |w| then w[s := w[s] + 1] else w
  }

  method ClearFreqs(fc: array<nat>, n: nat)
    requires n <= fc.Length
    modifies fc
    ensures forall i :: 0 <= i < n ==> fc[i] == 0
  {
    var i := 0;
    while i < n
      invariant i <= n && forall j :: 0 <= j < i ==> fc[j] == 0
    {
      fc[i] := 0;
      i := i + 1;
    }
  }

  lemma NoFreqs(l: seq<nat>, d: seq<nat>)
    requires |l| == L_CODES && forall i :: 0 <= i < L_CODES ==> l[i] == if i == END_BLOCK then 1 else 0
    requires |d| == D_CODES && forall i :: 0 <= i < D_CODES ==> d[i] == 0
    ensures TokensOk([]) && l == LFreqs([]) && d == DFreqs([])
  {}

  lemma TallyingFacts(ts: seq<Token>, l: seq<nat>, d: seq<nat>, f: seq<nat>,
                      lastLit: nat, lastDist: nat, lastFlags: nat, flags: nat, flagBit: nat)
    requires Tallying(ts, l, d, f, lastLit, lastDist, lastFlags, flags, flagBit)
    ensures TokensOk(ts) && |l| == LIT_BUFSIZE && |d| == DIST_BUFSIZE && |f| == LIT_BUFSIZE / 8
    ensures lastLit == |ts| < LIT_BUFSIZE && lastDist == |Dists(ts)| <= lastLit && lastFlags == |ts| / 8
    ensures (lastLit + 1) % 8 != 0 ==> 2 * flagBit < 256
  {
    hide Flags;
    if (lastLit + 1) % 8 != 0 { Pow2Table(); Pow2Mono(|ts| % 8, 6); }
  }

  /** The tree `t` codes the frequencies `f` with the lengths `lens`. */
  ghost predicate TreeFor(t: CtData, d: Desc, f: seq<nat>, lens: seq<nat>)
    reads t.fc, t.dl
  {
    && 0 < |lens| <= d.elems < t.dl.Length && t.dl[..|lens|] == lens && CodesOf(t.fc[..], lens)
    && GoodLengths(lens) && Covers(lens, f) && AllAtMost(lens, d.maxLength) && HuffmanLengths(d, f, lens)
  }

  /** The code length code `cl` is a Huffman code that can send the lengths of both trees. */
  ghost predicate ClFor(cl: seq<nat>, ll: seq<nat>, d: seq<nat>) {
    && |cl| == BL_CODES && (exists m :: ClTree(cl, ll, d, m)) && GoodLengths(cl) && AllAtMost(cl, 7)
    && AllSendable(cl, Rle(ll, 0, -1)) && AllSendable(cl, Rle(d, 0, -1))
  }

  lemma ClTreeIs(cl: seq<nat>, ll: seq<nat>, d: seq<nat>, m: nat)
    requires OpsOk(LengthOps(ll, d)) && m <= |cl| && HuffmanLengths(BlDesc(), BlFreqs(LengthOps(ll, d)), cl[..m])
    requires forall x :: m <= x < |cl| ==> cl[x] == 0
    ensures ClTree(cl, ll, d, m)
  {
    hide HuffmanLengths, OpsOk, BlFreqs, BlDesc;
  }

  lemma ClForDone(lens: seq<nat>, z: seq<nat>, cl: seq<nat>, ll: seq<nat>, d: seq<nat>)
    requires OpsOk(LengthOps(ll, d)) && cl == lens + z && |cl| == BL_CODES && forall k :: 0 <= k < |z| ==> z[k] == 0
    requires GoodLengths(lens) && AllAtMost(lens, 7) && Covers(lens, BlFreqs(LengthOps(ll, d)))
    requires HuffmanLengths(BlDesc(), BlFreqs(LengthOps(ll, d)), lens)
    ensures ClFor(cl, ll, d)
  {
    hide HuffmanLengths, ClTree, Rle, OpsOk, BlFreqs, GoodLengths, Covers, BlDesc, AllSendable;
    var a, b := Rle(ll, 0, -1), Rle(d, 0, -1);
    GoodTail(lens, z);
    CoversTail(lens, z, BlFreqs(a + b));
    CoversSendable(cl, a + b);
    SendableParts(cl, a, b);
    assert cl[..|lens|] == lens;
    ClTreeIs(cl, ll, d, |lens|);
  }

  lemma BlSum(fc: seq<nat>, a: seq<Op>, b: seq<Op>)
    requires |fc| >= BL_CODES && OpsOk(a) && OpsOk(b)
    requires forall s :: 0 <= s < BL_CODES ==> fc[s] == Tally(a, s) + Tally(b, s)
    ensures OpsOk(a + b) && fc[..BL_CODES] == BlFreqs(a + b)
  {
    hide OpsOk, Tally, BlFreqs;
    BothOk(a, b);
    forall s | 0 <= s < BL_CODES
      ensures fc[s] == BlFreqs(a + b)[s]
    {
      TallyConcat(a, b, s);
      BlFreqsTally(a + b, s);
    }
  }

  lemma ScanSmall(ll: seq<nat>, d: seq<nat>)
    requires OpsOk(LengthOps(ll, d)) && |ll| <= L_CODES && |d| <= D_CODES
    ensures Sum(BlFreqs(LengthOps(ll, d))) + 2 < 0x10000
  {
    hide Rle, OpsOk, BlFreqs, Sum;
    BlFreqsSum(LengthOps(ll, d));
    RleShort(ll, 0, -1);
    RleShort(d, 0, -1);
  }

  lemma GoodTail(a: seq<nat>, z: seq<nat>)
    requires GoodLengths(a) && forall k :: 0 <= k < |z| ==> z[k] == 0
    ensures GoodLengths(a + z)
  {
    KraftTail(a, z);
  }

  lemma CoversTail(a: seq<nat>, z: seq<nat>, f: seq<nat>)
    requires Covers(a, f)
    ensures Covers(a + z, f)
  {}

  lemma TreeFacts(l: CtData, d: CtData, lf: seq<nat>, df: seq<nat>, ll: seq<nat>, dd: seq<nat>, ts: seq<Token>)
    requires TokensOk(ts) && lf == LFreqs(ts) && df == DFreqs(ts)
    requires TreeFor(l, LDesc(), lf, ll) && TreeFor(d, DDesc(), df, dd)
    ensures END_BLOCK < |ll| <= L_CODES && ll[END_BLOCK] > 0 && 0 < |dd| <= D_CODES && LensOk(ll) && LensOk(dd)
  {
    hide LFreqs, DFreqs, Kraft, CodesOf;
    LFreqsPositive(ts, 0);
  }

  /** At a multiple of 4096 tokens, less than half of them matches, the block seems to halve the input. */
  predicate StopsHere(ts: seq<Token>, inLength: nat)
    requires TokensOk(ts)
  {
    |ts| % 0x1000 == 0 && |Dists(ts)| < |ts| / 2 && EstimateBits(ts) / 8 < inLength / 2
  }

  lemma DistBitsStart(w: seq<nat>)
    requires |w| <= D_CODES
    ensures DistBits(w, 0) == 0
  {}

  lemma DistBitsNext(w: seq<nat>, n: nat)
    requires n < |w| <= D_CODES
    ensures DistBits(w, n + 1) == DistBits(w, n) + w[n] * (5 + EXTRA_DBITS[n])
  {}

  lemma UZero()
    ensures U(0) == 0
  {}

  lemma USmall(v: nat)
    ensures v < U32 ==> U(v) == v
  {}

  lemma TreesDone(l: CtData, dd: CtData, ts: seq<Token>, ll: seq<nat>, d: seq<nat>, cl: seq<nat>, m: nat)
    requires TokensOk(ts) && TreeFor(l, LDesc(), LFreqs(ts), ll) && TreeFor(dd, DDesc(), DFreqs(ts), d)
    requires ClFor(cl, ll, d) && LastUsed(cl, m)
    ensures TreesOk(ll, d, cl, m + 1) && Measured(ll, d, ts)
    ensures HuffmanBlock(Dynamic(ts, ll, d, cl, m + 1))
  {
    hide HuffmanLengths, ClTree, LFreqs, DFreqs, AllSendable, Rle, CodesOf, Kraft, Codable, LDesc, DDesc, FixedLL;
    hide FixedD;
    TreeFacts(l, dd, LFreqs(ts), DFreqs(ts), ll, d, ts);
    CoversCodable(ll, d, ts);
    FixedCodable(ts);
  }

  lemma TreeLengths(t: CtData, d: Desc, f: seq<nat>, lens: seq<nat>)
    requires TreeFor(t, d, f, lens)
    ensures |lens| < t.dl.Length && t.dl[..|lens|] == lens && LensOk(lens)
  {
    hide Kraft, CodesOf;
  }

  lemma NoCl(cl: seq<nat>)
    requires |cl| == BL_CODES
    ensures EncCl(cl, 0) == []
  {}

  lemma NextCl(cl: seq<nat>, k: nat)
    requires |cl| == BL_CODES && k < BL_CODES
    ensures EncCl(cl, k + 1) == EncCl(cl, k) + Lsb(cl[CL_ORDER[k]], 3)
  {
    hide Lsb;
  }

  lemma ClAt(bl: CtData, cl: seq<nat>, i: nat)
    requires ClReady(bl, cl) && i < BL_CODES
    ensures |cl| == BL_CODES <= bl.dl.Length && bl.dl[i] == cl[i] <= 7
  {
    hide CodesOf;
    assert bl.dl[..BL_CODES][i] == bl.dl[i];
  }

  lemma FiveParts(base: Bits, a: Bits, b: Bits, c: Bits, e: Bits)
    ensures base + a + b + c + e == base + (a + (b + (c + e)))
  {}

  /** The final stream is padded to whole bytes. */
  function Ended(s: Bits, eof: bool): Bits {
    if eof then s + Padding(|s|) else s
  }

  /** The three bits that start a block. */
  function KindBits(kind: nat, eof: bool): (b: Bits)
    ensures |b| == 3
  {
    Lsb((if eof then 1 else 0) + 2 * kind, 3)
  }

  lemma SixParts(a: Bits, b: Bits, c: Bits, d: Bits, e: Bits, f: Bits)
    ensures a + b + c + d + e + f == a + (b + (c + (d + (e + f))))
  {
    Assoc(a + b + c + d, e, f);
    FiveParts(a, b, c, d, e + f);
  }

  lemma StoredEncoding(base: Bits, b: Block, eof: bool, out: seq<byte>)
    requires b.Stored? && b.Ok(out)
    ensures base + KindBits(STORED_BLOCK, eof) + Padding(|base| + 3)
              + Lsb(|b.data|, 16) + Lsb(0xffff - |b.data|, 16) + ByteBits(b.data)
         == base + b.Encode(eof, |base|, out)
  {
    hide Lsb, ByteBits, Padding, PadCount, Block.Body;
    StoredParts(|base| + 3, out, b);
    SixParts(base, KindBits(STORED_BLOCK, eof), Padding(|base| + 3),
             Lsb(|b.data|, 16), Lsb(0xffff - |b.data|, 16), ByteBits(b.data));
  }

  lemma FixedEncoding(base: Bits, ts: seq<Token>, eof: bool, out: seq<byte>)
    requires Fixed(ts).Ok(out)
    ensures base + KindBits(STATIC_TREES, eof) + EncData(FixedLL(), FixedD(), ts)
         == base + Fixed(ts).Encode(eof, |base|, out)
  {
    hide Lsb, EncData, AllCodable, Reachable;
    Assoc(base, KindBits(STATIC_TREES, eof), EncData(FixedLL(), FixedD(), ts));
  }

  lemma DynamicEncoding(base: Bits, ts: seq<Token>, ll: seq<nat>, d: seq<nat>, cl: seq<nat>, n: nat, eof: bool,
                        out: seq<byte>)
    requires Dynamic(ts, ll, d, cl, n).Ok(out)
    ensures base + KindBits(DYN_TREES, eof) + EncTrees(ll, d, cl, n) + EncData(ll, d, ts)
         == base + Dynamic(ts, ll, d, cl, n).Encode(eof, |base|, out)
  {
    TreesAreGood(ll, d, cl, n);
    hide Lsb, EncData, EncTrees, AllCodable, Reachable, TreesOk;
    var kind := KindBits(DYN_TREES, eof);
    Assoc(base + kind, EncTrees(ll, d, cl, n), EncData(ll, d, ts));
    Assoc(base, kind, EncTrees(ll, d, cl, n) + EncData(ll, d, ts));
  }

  lemma SavedFacts(ts: seq<Token>, l: seq<nat>, d: seq<nat>, f: seq<nat>)
    requires Saved(ts, l, d, f)
    ensures TokensOk(ts) && |ts| <= |l|
  {}

  lemma NextByte(ts: seq<Token>, lx: nat, dx: nat, fx: nat, flag: nat)
    requires Unpacking(ts, lx, dx, fx, flag) && lx < |ts|
    ensures fx == (lx + 7) / 8 && TokensOk(ts) && dx == |Dists(ts[..lx])|
    ensures lx % 8 == 0 ==> fx + 1 == (lx + 8) / 8
    ensures lx % 8 != 0 ==> fx == (lx + 8) / 8 && flag == Flags(Ahead(ts, lx))
  {}
}
