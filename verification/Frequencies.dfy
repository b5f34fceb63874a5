/** Symbol frequencies of a block, and how many bits the block takes. */
module Frequencies {
  import opened Wrappers
  import opened Numbers
  import opened Bits
  import opened Canonical
  import opened Rfc1951
  import opened Blocks
  import opened CodeLengths
  import opened Forcing

  const BL_CODES := 19
  const MAX_BL_BITS := 7

  // The tables of extra bits as the compressor declares them.
  const EXTRA_LBITS: seq<nat> := [
    0, 0, 0, 0, 0, 0, 0, 0, 1, 1, 1, 1, 2, 2, 2, 2, 3, 3, 3, 3, 4, 4, 4, 4, 5, 5, 5, 5, 0]
  const EXTRA_DBITS: seq<nat> := [
    0, 0, 0, 0, 1, 1, 2, 2, 3, 3, 4, 4, 5, 5, 6, 6, 7, 7, 8, 8, 9, 9, 10, 10, 11, 11, 12, 12, 13, 13]
  const EXTRA_BLBITS: seq<nat> := [0, 0, 0, 0, 0, 0, 0, 0, 0, 0, 0, 0, 0, 0, 0, 0, 2, 3, 7]

  function LDesc(): (d: Desc)
    ensures d.extraBase == 257 && |d.extraBits| == 29 && d.elems == L_CODES && d.maxLength == MAX_BITS
    ensures d.staticLens == Some(FixedLL())
  {
    Desc(EXTRA_LBITS, LITERALS + 1, L_CODES, MAX_BITS, Some(FixedLL()))
  }

  function DDesc(): (d: Desc)
    ensures d.extraBase == 0 && |d.extraBits| == 30 && d.elems == D_CODES && d.maxLength == MAX_BITS
    ensures d.staticLens == Some(FixedD()[..D_CODES])
  {
    Desc(EXTRA_DBITS, 0, D_CODES, MAX_BITS, Some(FixedD()[..D_CODES]))
  }

  function BlDesc(): (d: Desc)
    ensures d.extraBase == 0 && |d.extraBits| == 19 && d.elems == BL_CODES && d.maxLength == MAX_BL_BITS
    ensures d.staticLens == None
  {
    Desc(EXTRA_BLBITS, 0, BL_CODES, MAX_BL_BITS, None)
  }

  const LITERALS := 256

  lemma LExtra(c: nat)
    requires c < LENGTH_CODES
    ensures EXTRA_LBITS[c] == LenExtra(c) && LDesc().Extra(257 + c) == LenExtra(c)
  {}

  lemma LExtraLow(c: nat)
    requires c <= END_BLOCK
    ensures LDesc().Extra(c) == 0
  {}

  lemma DExtra(c: nat)
    requires c < D_CODES
    ensures EXTRA_DBITS[c] == DistExtra(c) && DDesc().Extra(c) == DistExtra(c)
  {}

  lemma DescsOk()
    ensures LDesc().Ok() && DDesc().Ok() && BlDesc().Ok()
  {
    Pow2Table();
    hide Pow2, FixedLL, FixedD;
    LExtraLow(0); LExtraLow(1); LExtraLow(2);
  }

  /** Frequencies of the literal/length symbols, with one end-of-block code. */
  function LFreqs(ts: seq<Token>): (w: seq<nat>)
    requires TokensOk(ts)
    ensures |w| == L_CODES
  {
    if ts == [] then seq(L_CODES, i => if i == END_BLOCK then 1 else 0) else
    var w, s := LFreqs(ts[..|ts| - 1]), LSymbol(ts[|ts| - 1]);
    w[s := w[s] + 1]
  }

  /** Frequencies of the distance symbols. */
  function DFreqs(ts: seq<Token>): (w: seq<nat>)
    requires TokensOk(ts)
    ensures |w| == D_CODES
  {
    if ts == [] then seq(D_CODES, i => 0) else
    var w, t := DFreqs(ts[..|ts| - 1]), ts[|ts| - 1];
    if t.Literal? then w else w[DistCode(t.dist) := w[DistCode(t.dist)] + 1]
  }

  function LSymbol(t: Token): (s: nat)
    requires t.Ok()
    ensures s < L_CODES
  {
    match t
    case Literal(b) => b
    case Match(len, _) => END_BLOCK + 1 + LenCode(len)
  }

  /** Codes for every symbol that occurs. */
  predicate Covers(lens: seq<nat>, w: seq<nat>) {
    forall x :: 0 <= x < |w| && w[x] > 0 ==> x < |lens| && lens[x] > 0
  }

  lemma {:induction false} LFreqsPositive(ts: seq<Token>, k: nat)
    requires TokensOk(ts)
    ensures LFreqs(ts)[END_BLOCK] >= 1
    ensures k < |ts| ==> LFreqs(ts)[LSymbol(ts[k])] >= 1
    ensures k < |ts| && ts[k].Match? ==> DFreqs(ts)[DistCode(ts[k].dist)] >= 1
  {
    hide LenCode, DistCode;
    if ts != [] {
      LFreqsPositive(ts[..|ts| - 1], k);
    }
  }

  /** A code for every symbol that occurs can code the tokens. */
  lemma CoversCodable(ll: seq<nat>, d: seq<nat>, ts: seq<Token>)
    requires TokensOk(ts) && Covers(ll, LFreqs(ts)) && Covers(d, DFreqs(ts)) && |ll| >= 257
    ensures ll[END_BLOCK] > 0 && AllCodable(ll, d, ts)
  {
    hide LFreqs, DFreqs;
    LFreqsPositive(ts, 0);
    forall k | 0 <= k < |ts|
      ensures Codable(ll, d, ts[k])
    {
      LFreqsPositive(ts, k);
    }
  }

  lemma {:induction false} FixedCodable(ts: seq<Token>)
    requires TokensOk(ts)
    ensures AllCodable(FixedLL(), FixedD(), ts)
  {}

  // ---------- the cost of a block ----------

  lemma TokenLength(ll: seq<nat>, d: seq<nat>, t: Token)
    requires Codable(ll, d, t)
    ensures |EncToken(ll, d, t)| == ll[LSymbol(t)] + LDesc().Extra(LSymbol(t))
              + (if t.Literal? then 0 else d[DistCode(t.dist)] + DDesc().Extra(DistCode(t.dist)))
  {
    hide Code, Lsb, LenCode, DistCode, LenExtra, DistExtra, LDesc, DDesc, Desc.Extra;
    match t
    case Literal(b) => LExtraLow(b);
    case Match(len, dist) =>
      LExtra(LenCode(len));
      DExtra(DistCode(dist));
  }

  /** One more occurrence of a symbol costs its code and its extra bits. */
  lemma CostMore(d: Desc, w: seq<nat>, l: seq<nat>, i: nat)
    requires i < |l| <= |w| && |l| <= d.extraBase + |d.extraBits| && l[i] > 0
    ensures Cost(d, w[i := w[i] + 1], l) == Cost(d, w, l) + l[i] + d.Extra(i)
  {
    hide Cost, Term, Desc.Extra;
    CostWeight(d, w, l, i, w[i] + 1);
    TermMore(w[i], l[i], d.Extra(i));
  }

  lemma TermMore(f: nat, l: nat, x: nat)
    requires l > 0
    ensures Term(f + 1, l, x) == Term(f, l, x) + l + x
  {
    Distribute(f, 1, l + x);
  }

  lemma StaticMore(d: Desc, w: seq<nat>, l: seq<nat>, i: nat)
    requires i < |l| <= |w| && |l| <= d.extraBase + |d.extraBits| && l[i] > 0
    requires d.staticLens.Some? && |l| <= |d.staticLens.value|
    ensures StaticCost(d, w[i := w[i] + 1], l) == StaticCost(d, w, l) + d.staticLens.value[i] + d.Extra(i)
  {
    hide StaticCost, Desc.Extra;
    var z := w[i := 0];
    assert z[i := w[i]] == w && z[i := w[i] + 1] == w[i := w[i] + 1];
    StaticWeight(d, z, l, i, w[i]);
    StaticWeight(d, z, l, i, w[i] + 1);
    Distribute(w[i], 1, d.staticLens.value[i] + d.Extra(i));
  }

  lemma {:induction false} ZeroCost(d: Desc, w: seq<nat>, l: seq<nat>)
    requires |l| <= |w| && |l| <= d.extraBase + |d.extraBits| && forall i :: 0 <= i < |l| ==> w[i] == 0
    requires d.staticLens.Some? ==> |l| <= |d.staticLens.value|
    ensures Cost(d, w, l) == 0 && StaticCost(d, w, l) == 0
  {
    if l != [] { ZeroCost(d, w, l[..|l| - 1]); }
  }

  /** The bits of an empty block are those of its end-of-block code. */
  lemma EmptyCost(ll: seq<nat>)
    requires 257 <= |ll| <= L_CODES && ll[END_BLOCK] > 0
    ensures Cost(LDesc(), LFreqs([]), ll) == ll[END_BLOCK]
    ensures StaticCost(LDesc(), LFreqs([]), ll) == FixedLL()[END_BLOCK]
  {
    var d, w := LDesc(), LFreqs([]);
    var z := w[END_BLOCK := 0];
    assert z[END_BLOCK := z[END_BLOCK] + 1] == w;
    hide LFreqs, LDesc, Desc.Extra;
    ZeroCost(d, z, ll);
    CostMore(d, z, ll, END_BLOCK);
    StaticMore(d, z, ll, END_BLOCK);
    LExtraLow(END_BLOCK);
  }

  predicate Measured(ll: seq<nat>, d: seq<nat>, ts: seq<Token>)
  {
    && TokensOk(ts) && 257 <= |ll| <= L_CODES && |d| <= D_CODES && ll[END_BLOCK] > 0
    && AllCodable(ll, d, ts) && AllCodable(FixedLL(), FixedD(), ts)
  }

  /** The bits of the tokens are what the construction of the trees adds up. */
  lemma {:induction false} DataLength(ll: seq<nat>, d: seq<nat>, ts: seq<Token>)
    requires Measured(ll, d, ts)
    ensures |EncTokens(ll, d, ts)| + ll[END_BLOCK] == Cost(LDesc(), LFreqs(ts), ll) + Cost(DDesc(), DFreqs(ts), d)
    ensures |EncTokens(FixedLL(), FixedD(), ts)| + FixedLL()[END_BLOCK]
         == StaticCost(LDesc(), LFreqs(ts), ll) + StaticCost(DDesc(), DFreqs(ts), d)
    ensures |EncTokens(FixedLL(), FixedD(), ts)| <= 31 * |ts|
    ensures LensOk(ll) && LensOk(d) ==> |EncTokens(ll, d, ts)| <= 48 * |ts|
  {
    hide Cost, StaticCost, EncToken, LDesc, DDesc, FixedLL, FixedD, Desc.Extra, Codable, LFreqs, DFreqs, LensOk;
    hide EncTokens;
    if ts == [] {
      EmptyCost(ll);
      NoDistances();
      ZeroCost(DDesc(), DFreqs([]), d);
      NoTokens(ll, d);
      NoTokens(FixedLL(), FixedD());
    } else {
      var front, t := ts[..|ts| - 1], ts[|ts| - 1];
      assert front + [t] == ts;
      DataLength(ll, d, front);
      LStep(ll, d, front, t);
      DStep(ll, d, front, t);
      TokenLength(ll, d, t);
      TokenLength(FixedLL(), FixedD(), t);
      TokensNext(ll, d, front, t);
      TokensNext(FixedLL(), FixedD(), front, t);
      TokenBounds(ll, d, t);
    }
  }

  lemma NoTokens(ll: seq<nat>, d: seq<nat>)
    ensures AllCodable(ll, d, []) && EncTokens(ll, d, []) == []
  {}

  lemma TokensNext(ll: seq<nat>, d: seq<nat>, front: seq<Token>, t: Token)
    requires AllCodable(ll, d, front) && Codable(ll, d, t)
    ensures AllCodable(ll, d, front + [t])
    ensures EncTokens(ll, d, front + [t]) == EncTokens(ll, d, front) + EncToken(ll, d, t)
  {
    hide EncToken, Codable;
    assert (front + [t])[..|front|] == front;
  }

  lemma NoDistances()
    ensures forall i :: 0 <= i < D_CODES ==> DFreqs([])[i] == 0
  {}

  lemma LFreqsNext(front: seq<Token>, t: Token)
    requires TokensOk(front) && t.Ok()
    ensures TokensOk(front + [t])
    ensures LFreqs(front + [t]) == LFreqs(front)[LSymbol(t) := LFreqs(front)[LSymbol(t)] + 1]
    ensures DFreqs(front + [t])
         == if t.Literal? then DFreqs(front)
               else DFreqs(front)[DistCode(t.dist) := DFreqs(front)[DistCode(t.dist)] + 1]
  {
    hide LSymbol, DistCode;
    assert (front + [t])[..|front|] == front;
  }

  lemma LStep(ll: seq<nat>, d: seq<nat>, front: seq<Token>, t: Token)
    requires TokensOk(front) && Codable(ll, d, t) && |ll| <= L_CODES
    ensures TokensOk(front + [t])
    ensures Cost(LDesc(), LFreqs(front + [t]), ll)
         == Cost(LDesc(), LFreqs(front), ll) + ll[LSymbol(t)] + LDesc().Extra(LSymbol(t))
    ensures StaticCost(LDesc(), LFreqs(front + [t]), ll)
         == StaticCost(LDesc(), LFreqs(front), ll) + FixedLL()[LSymbol(t)] + LDesc().Extra(LSymbol(t))
  {
    hide Cost, StaticCost, LDesc, LenCode, DistCode, Desc.Extra, LFreqs, DFreqs;
    LFreqsNext(front, t);
    CostMore(LDesc(), LFreqs(front), ll, LSymbol(t));
    StaticMore(LDesc(), LFreqs(front), ll, LSymbol(t));
  }

  lemma DStep(ll: seq<nat>, d: seq<nat>, front: seq<Token>, t: Token)
    requires TokensOk(front) && Codable(ll, d, t) && |d| <= D_CODES
    ensures TokensOk(front + [t])
    ensures t.Literal? ==> DFreqs(front + [t]) == DFreqs(front)
    ensures t.Match? ==> var c := DistCode(t.dist);
              && Cost(DDesc(), DFreqs(front + [t]), d) == Cost(DDesc(), DFreqs(front), d) + d[c] + DDesc().Extra(c)
              && StaticCost(DDesc(), DFreqs(front + [t]), d)
                 == StaticCost(DDesc(), DFreqs(front), d) + FixedD()[c] + DDesc().Extra(c)
  {
    hide Cost, StaticCost, DDesc, LenCode, DistCode, Desc.Extra, LFreqs, DFreqs;
    LFreqsNext(front, t);
    if t.Match? {
      CostMore(DDesc(), DFreqs(front), d, DistCode(t.dist));
      StaticMore(DDesc(), DFreqs(front), d, DistCode(t.dist));
    }
  }

  lemma TokenBounds(ll: seq<nat>, d: seq<nat>, t: Token)
    requires Codable(ll, d, t) && Codable(FixedLL(), FixedD(), t)
    ensures |EncToken(FixedLL(), FixedD(), t)| <= 31
    ensures LensOk(ll) && LensOk(d) ==> |EncToken(ll, d, t)| <= 48
  {
    hide EncToken, LDesc, DDesc, LenCode, DistCode, LenExtra, DistExtra, Desc.Extra;
    TokenLength(ll, d, t);
    TokenLength(FixedLL(), FixedD(), t);
    match t
    case Literal(b) => LExtraLow(b);
    case Match(len, dist) =>
      LExtra(LenCode(len));
      DExtra(DistCode(dist));
      ExtraBound(LenCode(len), DistCode(dist));
      FixedLow(END_BLOCK + 1 + LenCode(len));
  }

  lemma FixedLow(c: nat)
    requires END_BLOCK <= c < 288
    ensures FixedLL()[c] <= 8
  {}

  lemma ExtraBound(c: nat, k: nat)
    requires c < LENGTH_CODES && k < D_CODES
    ensures LenExtra(c) <= 5 && DistExtra(k) <= 13
  {}

  // ---------- the guess at the size of a block ----------

  /** Eight bits for each token, and for each match five and the extra bits of its distance. */
  function EstimateBits(ts: seq<Token>): (r: nat)
    requires TokensOk(ts)
  {
    if ts == [] then 0 else
    var t := ts[|ts| - 1];
    EstimateBits(ts[..|ts| - 1]) + 8 + if t.Match? then 5 + DistExtra(DistCode(t.dist)) else 0
  }

  /** The bits for the distances, code by code, for the codes below `n`. */
  function DistBits(w: seq<nat>, n: nat): nat
    requires n <= |w| <= D_CODES
  {
    if n == 0 then 0 else DistBits(w, n - 1) + w[n - 1] * (5 + EXTRA_DBITS[n - 1])
  }

  lemma {:induction false} DistBitsMore(w: seq<nat>, c: nat, n: nat)
    requires n <= |w| <= D_CODES && c < |w|
    ensures DistBits(w[c := w[c] + 1], n) == DistBits(w, n) + if c < n then 5 + EXTRA_DBITS[c] else 0
  {
    if n > 0 {
      DistBitsMore(w, c, n - 1);
      Distribute(w[n - 1], 1, 5 + EXTRA_DBITS[n - 1]);
    }
  }

  lemma {:induction false} DistBitsMono(w: seq<nat>, n: nat)
    requires n <= |w| <= D_CODES
    ensures DistBits(w, n) <= DistBits(w, |w|)
    decreases |w| - n
  {
    if n < |w| { DistBitsMono(w, n + 1); }
  }

  lemma {:induction false} NoDistBits(w: seq<nat>, n: nat)
    requires n <= |w| <= D_CODES && forall i :: 0 <= i < n ==> w[i] == 0
    ensures DistBits(w, n) == 0
  {
    if n > 0 { NoDistBits(w, n - 1); }
  }

  lemma EstimateNext(front: seq<Token>, t: Token)
    requires TokensOk(front + [t])
    ensures TokensOk(front) && t.Ok()
    ensures EstimateBits(front + [t])
         == EstimateBits(front) + 8 + if t.Match? then 5 + DistExtra(DistCode(t.dist)) else 0
  {
    hide DistCode, DistExtra;
    var ts := front + [t];
    assert ts[..|ts| - 1] == front && ts[|ts| - 1] == t;
    forall i | 0 <= i < |front|
      ensures front[i].Ok()
    {
      assert ts[i] == front[i];
    }
  }

  lemma DistBitsToken(front: seq<Token>, t: Token)
    requires TokensOk(front) && t.Ok() && TokensOk(front + [t])
    ensures var more := if t.Match? then 5 + DistExtra(DistCode(t.dist)) else 0;
            DistBits(DFreqs(front + [t]), D_CODES) == DistBits(DFreqs(front), D_CODES) + more && more <= 18
  {
    hide DistBits, DFreqs, DistCode, DistExtra, TokensOk;
    LFreqsNext(front, t);
    if t.Match? {
      DistBitsMore(DFreqs(front), DistCode(t.dist), D_CODES);
      DExtra(DistCode(t.dist));
      ExtraBound(0, DistCode(t.dist));
    }
  }

  lemma NoDistBitsAtAll()
    ensures TokensOk([]) && EstimateBits([]) == 0 && DistBits(DFreqs([]), D_CODES) == 0
  {
    hide DistBits;
    NoDistances();
    NoDistBits(DFreqs([]), D_CODES);
  }

  /** Adding up by distance codes is adding up by tokens. */
  lemma {:induction false} EstimateByCodes(ts: seq<Token>)
    requires TokensOk(ts)
    ensures EstimateBits(ts) == 8 * |ts| + DistBits(DFreqs(ts), D_CODES) <= 26 * |ts|
  {
    hide DistBits, DFreqs, DistCode, DistExtra, EstimateBits, TokensOk;
    if ts == [] {
      NoDistBitsAtAll();
    } else {
      var front, t := ts[..|ts| - 1], ts[|ts| - 1];
      assert front + [t] == ts;
      EstimateNext(front, t);
      EstimateByCodes(front);
      DistBitsToken(front, t);
    }
  }
}
