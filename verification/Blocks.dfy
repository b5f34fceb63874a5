/** What the compressor writes, block by block, and that section 3.2 of RFC 1951 reads it back. */
module Blocks {
  import opened Wrappers
  import opened Numbers
  import opened Bits
  import opened Canonical
  import opened Rfc1951
  import opened Decoding
  import opened LengthCoding

  const MIN_MATCH := 3
  const MAX_MATCH := 258
  const MAX_DISTANCE := 0x8000

  /** A literal byte, or `len` bytes that stand `dist` bytes back. */
  datatype Token = Literal(b: byte) | Match(len: nat, dist: nat) {
    predicate Ok() {
      Match? ==> MIN_MATCH <= len <= MAX_MATCH && 1 <= dist <= MAX_DISTANCE
    }
  }

  predicate TokensOk(ts: seq<Token>) {
    forall i :: 0 <= i < |ts| ==> ts[i].Ok()
  }

  function Apply(out: seq<byte>, t: Token): seq<byte> {
    match t
    case Literal(b) => out + [b]
    case Match(len, dist) => if 1 <= dist <= |out| then Copy(out, len, dist) else out
  }

  /** The bytes `ts` stand for, after `out`. */
  function Expand(out: seq<byte>, ts: seq<Token>): seq<byte> {
    if ts == [] then out else Apply(Expand(out, ts[..|ts| - 1]), ts[|ts| - 1])
  }

  /** No distance reaches back before the first output byte. */
  predicate Reachable(out: seq<byte>, ts: seq<Token>) {
    ts == [] ||
    (Reachable(out, ts[..|ts| - 1]) &&
     (ts[|ts| - 1].Match? ==> ts[|ts| - 1].dist <= |Expand(out, ts[..|ts| - 1])|))
  }

  // ---------- length and distance codes ----------

  /** The length code, at most `c`, whose range holds `len`. */
  function LenCodeFrom(len: nat, c: nat): (r: nat)
    requires len >= MIN_MATCH
    ensures r <= c && LenBase(r) <= len
    ensures r < c ==> len < LenBase(r + 1)
  {
    if c == 0 || LenBase(c) <= len then c else LenCodeFrom(len, c - 1)
  }

  function LenCode(len: nat): (r: nat)
    requires MIN_MATCH <= len <= MAX_MATCH
    ensures r < LENGTH_CODES && LenBase(r) <= len < LenBase(r) + Pow2(LenExtra(r))
  {
    LenRange(len);
    LenCodeFrom(len, LENGTH_CODES - 1)
  }

  lemma LenRange(len: nat)
    requires MIN_MATCH <= len <= MAX_MATCH
    ensures var r := LenCodeFrom(len, LENGTH_CODES - 1); len < LenBase(r) + Pow2(LenExtra(r))
  {
    var r := LenCodeFrom(len, LENGTH_CODES - 1);
    if r == 27 {
      LenTable();
    } else if r < 27 {
      assert LenBase(r + 1) == LenBase(r) + Pow2(LenExtra(r));
    } else {
      assert Pow2(LenExtra(28)) == 1;
    }
  }

  /** Codes from 8 on come in groups of four with the same number of extra bits. */
  lemma LenGroup(g: nat)
    requires 2 <= g <= 6
    ensures LenBase(4 * g + 3) == LenBase(4 * g) + 3 * Pow2(g - 1)
    ensures g < 6 ==> LenBase(4 * g + 4) == LenBase(4 * g) + 4 * Pow2(g - 1)
  {
    var c := 4 * g;
    assert LenExtra(c) == g - 1 && LenExtra(c + 1) == g - 1 && LenExtra(c + 2) == g - 1 && LenExtra(c + 3) == g - 1;
    hide LenExtra, Pow2;
    assert LenBase(c + 1) == LenBase(c) + Pow2(g - 1);
    assert LenBase(c + 2) == LenBase(c + 1) + Pow2(g - 1);
    assert LenBase(c + 3) == LenBase(c + 2) + Pow2(g - 1);
    if g < 6 { assert LenBase(c + 4) == LenBase(c + 3) + Pow2(g - 1); }
  }

  lemma LenStart()
    ensures LenBase(8) == 11 && LenExtra(27) == 5
  {
    assert LenBase(4) == 7;
  }

  /** The last regular code ends just above the longest match. */
  lemma LenTable()
    ensures LenBase(27) == 227 && LenExtra(27) == 5 && Pow2(5) == 32
  {
    LenStart();
    hide LenBase, LenExtra, Pow2;
    Pow2Table();
    LenGroup(2); LenGroup(3); LenGroup(4); LenGroup(5); LenGroup(6);
  }

  function DistCodeFrom(dist: nat, c: nat): (r: nat)
    requires dist >= 1
    ensures r <= c && DistBase(r) <= dist
    ensures r < c ==> dist < DistBase(r + 1)
  {
    if c == 0 || DistBase(c) <= dist then c else DistCodeFrom(dist, c - 1)
  }

  function DistCode(dist: nat): (r: nat)
    requires 1 <= dist <= MAX_DISTANCE
    ensures r < D_CODES && DistBase(r) <= dist < DistBase(r) + Pow2(DistExtra(r))
  {
    DistRange(dist);
    DistCodeFrom(dist, D_CODES - 1)
  }

  lemma DistRange(dist: nat)
    requires 1 <= dist <= MAX_DISTANCE
    ensures var r := DistCodeFrom(dist, D_CODES - 1); dist < DistBase(r) + Pow2(DistExtra(r))
  {
    var r := DistCodeFrom(dist, D_CODES - 1);
    assert DistBase(r + 1) == DistBase(r) + Pow2(DistExtra(r));
    if r == 29 { DistTable(); }
  }

  lemma DistTable()
    ensures DistBase(30) == 0x8001
  {
    assert DistBase(4) == 5 && DistBase(8) == 17 && DistBase(12) == 65 && DistBase(16) == 257;
    assert DistBase(20) == 1025 && DistBase(24) == 4097 && DistBase(28) == 16385;
  }

  // ---------- tokens as bits ----------

  /** The codes a token needs are there. */
  predicate Codable(ll: seq<nat>, d: seq<nat>, t: Token) {
    && t.Ok()
    && |ll| >= 257 && ll[END_BLOCK] > 0
    && match t
       case Literal(b) => ll[b] > 0
       case Match(len, dist) =>
         && END_BLOCK + 1 + LenCode(len) < |ll| && ll[END_BLOCK + 1 + LenCode(len)] > 0
         && DistCode(dist) < |d| && d[DistCode(dist)] > 0
  }

  predicate AllCodable(ll: seq<nat>, d: seq<nat>, ts: seq<Token>) {
    forall i :: 0 <= i < |ts| ==> Codable(ll, d, ts[i])
  }

  function EncLen(ll: seq<nat>, len: nat): Bits
    requires MIN_MATCH <= len <= MAX_MATCH && END_BLOCK + 1 + LenCode(len) < |ll|
  {
    Code(ll, END_BLOCK + 1 + LenCode(len)) + Lsb(len - LenBase(LenCode(len)), LenExtra(LenCode(len)))
  }

  function EncDist(d: seq<nat>, dist: nat): Bits
    requires 1 <= dist <= MAX_DISTANCE && DistCode(dist) < |d|
  {
    Code(d, DistCode(dist)) + Lsb(dist - DistBase(DistCode(dist)), DistExtra(DistCode(dist)))
  }

  function EncToken(ll: seq<nat>, d: seq<nat>, t: Token): Bits
    requires Codable(ll, d, t)
  {
    match t
    case Literal(b) => Code(ll, b)
    case Match(len, dist) => EncLen(ll, len) + EncDist(d, dist)
  }

  function EncTokens(ll: seq<nat>, d: seq<nat>, ts: seq<Token>): Bits
    requires AllCodable(ll, d, ts)
  {
    if ts == [] then [] else EncTokens(ll, d, ts[..|ts| - 1]) + EncToken(ll, d, ts[|ts| - 1])
  }

  /** The body of a compressed block, with its end-of-block code. */
  function EncData(ll: seq<nat>, d: seq<nat>, ts: seq<Token>): Bits
    requires AllCodable(ll, d, ts) && |ll| >= 257
  {
    EncTokens(ll, d, ts) + Code(ll, END_BLOCK)
  }

  lemma DecodeLiteral(ll: seq<nat>, d: seq<nat>, s: Bits, pos: nat, out: seq<byte>, b: byte)
    requires GoodLengths(ll) && Codable(ll, d, Literal(b)) && At(s, pos, Code(ll, b))
    ensures DecodeData(ll, d, s, pos, out) == DecodeData(ll, d, s, pos + |Code(ll, b)|, out + [b])
  {
    hide Code, At, Kraft;
    SymbolAt(ll, s, pos, b);
  }

  lemma DecodeMatch(ll: seq<nat>, d: seq<nat>, s: Bits, pos: nat, out: seq<byte>, len: nat, dist: nat)
    requires GoodLengths(ll) && GoodLengths(d) && Codable(ll, d, Match(len, dist)) && dist <= |out|
    requires At(s, pos, EncLen(ll, len) + EncDist(d, dist))
    ensures DecodeData(ll, d, s, pos, out)
         == DecodeData(ll, d, s, pos + |EncLen(ll, len)| + |EncDist(d, dist)|, Copy(out, len, dist))
  {
    hide At, Code, Kraft, Lsb, LenBase, LenExtra, DistBase, DistExtra, LenCode, DistCode, Symbol, GetBits, Copy, Pow2;
    AtConcat(s, pos, EncLen(ll, len), EncDist(d, dist));
    var c, k := LenCode(len), DistCode(dist);
    var sym := END_BLOCK + 1 + c;
    var lx, dx := Lsb(len - LenBase(c), LenExtra(c)), Lsb(dist - DistBase(k), DistExtra(k));
    AtConcat(s, pos, Code(ll, sym), lx);
    SymbolAt(ll, s, pos, sym);
    var p := pos + ll[sym];
    GetBitsAt(s, p, len - LenBase(c), LenExtra(c));
    var q := p + LenExtra(c);
    AtConcat(s, q, Code(d, k), dx);
    SymbolAt(d, s, q, k);
    GetBitsAt(s, q + d[k], dist - DistBase(k), DistExtra(k));
  }

  lemma {:induction false} DecodeTokens(ll: seq<nat>, d: seq<nat>, s: Bits, pos: nat, out: seq<byte>, ts: seq<Token>)
    requires GoodLengths(ll) && GoodLengths(d) && AllCodable(ll, d, ts) && Reachable(out, ts)
    requires At(s, pos, EncTokens(ll, d, ts))
    ensures DecodeData(ll, d, s, pos, out)
         == DecodeData(ll, d, s, pos + |EncTokens(ll, d, ts)|, Expand(out, ts))
  {
    hide At, GoodLengths, DecodeData, EncLen, EncDist, Code, Copy, LenCode, DistCode;
    if ts != [] {
      var front, t := ts[..|ts| - 1], ts[|ts| - 1];
      AtConcat(s, pos, EncTokens(ll, d, front), EncToken(ll, d, t));
      DecodeTokens(ll, d, s, pos, out, front);
      var p, o := pos + |EncTokens(ll, d, front)|, Expand(out, front);
      match t
      case Literal(b) => DecodeLiteral(ll, d, s, p, o, b);
      case Match(len, dist) => DecodeMatch(ll, d, s, p, o, len, dist);
    }
  }

  /** Decoding a block's body gives back the bytes its tokens stand for. */
  lemma DecodeBody(ll: seq<nat>, d: seq<nat>, s: Bits, pos: nat, out: seq<byte>, ts: seq<Token>)
    requires GoodLengths(ll) && GoodLengths(d) && AllCodable(ll, d, ts) && Reachable(out, ts)
    requires |ll| >= 257 && ll[END_BLOCK] > 0
    requires At(s, pos, EncData(ll, d, ts))
    ensures DecodeData(ll, d, s, pos, out) == Some((Expand(out, ts), pos + |EncData(ll, d, ts)|))
  {
    hide At, GoodLengths, EncTokens, Code, Expand, Reachable, AllCodable;
    AtConcat(s, pos, EncTokens(ll, d, ts), Code(ll, END_BLOCK));
    DecodeTokens(ll, d, s, pos, out, ts);
    SymbolAt(ll, s, pos + |EncTokens(ll, d, ts)|, END_BLOCK);
  }

  // ---------- the codes of a dynamic block ----------

  predicate TreesOk(ll: seq<nat>, d: seq<nat>, cl: seq<nat>, n: nat) {
    && 257 <= |ll| <= 286 && 1 <= |d| <= 30 && |cl| == 19 && 4 <= n <= 19
    && GoodLengths(ll) && GoodLengths(d) && GoodLengths(cl)
    && (forall i :: 0 <= i < 19 ==> cl[i] < 8)
    && (forall k :: n <= k < 19 ==> cl[CL_ORDER[k]] == 0)
    && AllSendable(cl, Rle(ll, 0, -1)) && AllSendable(cl, Rle(d, 0, -1))
  }

  /** The first `n` code length code lengths, in the order they are sent. */
  function EncCl(cl: seq<nat>, n: nat): (b: Bits)
    requires |cl| == 19 && n <= 19
    ensures |b| == 3 * n
  {
    if n == 0 then [] else EncCl(cl, n - 1) + Lsb(cl[CL_ORDER[n - 1]], 3)
  }

  function EncCounts(ll: seq<nat>, d: seq<nat>, n: nat): (b: Bits)
    requires |ll| >= 257 && |d| >= 1 && n >= 4
    ensures |b| == 14
  {
    Lsb(|ll| - 257, 5) + (Lsb(|d| - 1, 5) + Lsb(n - 4, 4))
  }

  function EncTrees(ll: seq<nat>, d: seq<nat>, cl: seq<nat>, n: nat): Bits
    requires TreesOk(ll, d, cl, n)
  {
    EncCounts(ll, d, n) + (EncCl(cl, n) + (EncOps(cl, Rle(ll, 0, -1)) + EncOps(cl, Rle(d, 0, -1))))
  }

  /** The code length code lengths known after `k` of them. */
  function KnownCl(cl: seq<nat>, k: nat): (r: seq<nat>)
    requires |cl| == 19 && k <= 19
    ensures |r| == 19
  {
    if k == 0 then Repeat(0, 19) else KnownCl(cl, k - 1)[CL_ORDER[k - 1] := cl[CL_ORDER[k - 1]]]
  }

  lemma {:induction false} DecodeCl(s: Bits, pos: nat, cl: seq<nat>, k: nat, n: nat)
    requires |cl| == 19 && k <= n <= 19 && forall i :: 0 <= i < 19 ==> cl[i] < 8
    requires At(s, pos, EncCl(cl, k))
    ensures DecodeClLengths(s, pos, 0, n, Repeat(0, 19)) == DecodeClLengths(s, pos + 3 * k, k, n, KnownCl(cl, k))
    decreases k
  {
    hide Repeat, At, Lsb, GetBits, DecodeClLengths, EncCl;
    if k > 0 {
      EncClParts(s, pos, cl, k);
      DecodeCl(s, pos, cl, k - 1, n);
      DecodeClStep(s, pos + 3 * (k - 1), cl, k, n);
    }
  }

  lemma EncClParts(s: Bits, pos: nat, cl: seq<nat>, k: nat)
    requires |cl| == 19 && 0 < k <= 19 && At(s, pos, EncCl(cl, k))
    ensures At(s, pos, EncCl(cl, k - 1)) && At(s, pos + 3 * (k - 1), Lsb(cl[CL_ORDER[k - 1]], 3))
  {
    hide At, Lsb;
    AtConcat(s, pos, EncCl(cl, k - 1), Lsb(cl[CL_ORDER[k - 1]], 3));
  }

  /** Reading the next code length code length. */
  lemma DecodeClStep(s: Bits, pos: nat, cl: seq<nat>, k: nat, n: nat)
    requires |cl| == 19 && 0 < k <= n <= 19 && cl[CL_ORDER[k - 1]] < 8 && At(s, pos, Lsb(cl[CL_ORDER[k - 1]], 3))
    ensures DecodeClLengths(s, pos, k - 1, n, KnownCl(cl, k - 1)) == DecodeClLengths(s, pos + 3, k, n, KnownCl(cl, k))
  {
    Pow2Table();
    hide Repeat, At, Lsb, GetBits, Pow2;
    GetBitsAt(s, pos, cl[CL_ORDER[k - 1]], 3);
  }

  /** Where each symbol stands in the order of section 3.2.7. */
  const CL_POS: seq<nat> := [3, 17, 15, 13, 11, 9, 7, 5, 4, 6, 8, 10, 12, 14, 16, 18, 0, 1, 2]

  lemma OrderIsPermutation()
    ensures forall j :: 0 <= j < 19 ==> 0 <= CL_POS[j] < 19 && CL_ORDER[CL_POS[j]] == j
    ensures forall k :: 0 <= k < 19 ==> 0 <= CL_ORDER[k] < 19 && CL_POS[CL_ORDER[k]] == k
  {}

  lemma {:induction false} KnownClAt(cl: seq<nat>, k: nat, j: nat)
    requires |cl| == 19 && k <= 19 && j < 19
    ensures KnownCl(cl, k)[j] == if CL_POS[j] < k then cl[j] else 0
  {
    OrderIsPermutation();
    if k > 0 { KnownClAt(cl, k - 1, j); }
  }

  /** The lengths that are not sent are zero, so every length arrives. */
  lemma KnownClAll(cl: seq<nat>, n: nat)
    requires |cl| == 19 && n <= 19 && forall k :: n <= k < 19 ==> cl[CL_ORDER[k]] == 0
    ensures KnownCl(cl, n) == cl
  {
    OrderIsPermutation();
    forall j | 0 <= j < 19
      ensures KnownCl(cl, n)[j] == cl[j]
    {
      KnownClAt(cl, n, j);
      var k := CL_POS[j];
      assert CL_ORDER[k] == j;
    }
  }

  lemma DecodeCounts(s: Bits, pos: nat, ll: seq<nat>, d: seq<nat>, n: nat)
    requires 257 <= |ll| <= 286 && 1 <= |d| <= 30 && 4 <= n <= 19
    requires At(s, pos, EncCounts(ll, d, n))
    ensures GetBits(s, pos, 5) == Some(|ll| - 257)
    ensures GetBits(s, pos + 5, 5) == Some(|d| - 1)
    ensures GetBits(s, pos + 10, 4) == Some(n - 4)
  {
    hide At, Lsb, GetBits, Pow2;
    Pow2Table();
    AtConcat(s, pos, Lsb(|ll| - 257, 5), Lsb(|d| - 1, 5) + Lsb(n - 4, 4));
    AtConcat(s, pos + 5, Lsb(|d| - 1, 5), Lsb(n - 4, 4));
    GetBitsAt(s, pos, |ll| - 257, 5);
    GetBitsAt(s, pos + 5, |d| - 1, 5);
    GetBitsAt(s, pos + 10, n - 4, 4);
  }

  /** The two trees are sent one after the other but read as a single sequence. */
  lemma DecodeBoth(s: Bits, pos: nat, ll: seq<nat>, d: seq<nat>, cl: seq<nat>)
    requires |cl| == 19 && GoodLengths(cl) && LensOk(ll) && LensOk(d) && ll != [] && d != []
    requires AllSendable(cl, Rle(ll, 0, -1)) && AllSendable(cl, Rle(d, 0, -1))
    requires At(s, pos, EncOps(cl, Rle(ll, 0, -1)) + EncOps(cl, Rle(d, 0, -1)))
    ensures DecodeLengths(cl, s, pos, |ll| + |d|, [])
         == Some((ll + d, pos + |EncOps(cl, Rle(ll, 0, -1)) + EncOps(cl, Rle(d, 0, -1))|))
  {
    hide At, EncOps, RunAll, Rle, AllSendable, GoodLengths;
    var a, b := Rle(ll, 0, -1), Rle(d, 0, -1);
    RleExpand([], ll, 0, -1);
    RleExpand(ll, d, 0, -1);
    assert [] + ll[0..] == ll && ll + d[0..] == ll + d;
    FirstOp(ll);
    AtConcat(s, pos, EncOps(cl, a), EncOps(cl, b));
    DecodeOps(cl, s, pos, |ll| + |d|, [], a);
    DecodeOps(cl, s, pos + |EncOps(cl, a)|, |ll| + |d|, ll, b);
  }

  lemma FirstOp(lens: seq<nat>)
    requires lens != []
    ensures Rle(lens, 0, -1) != [] ==> !Rle(lens, 0, -1)[0].Again?
  {
    RleStep(lens, 0, -1);
  }

  /** The decoder recovers exactly the code lengths the block was coded with. */
  lemma DecodeHeader(s: Bits, pos: nat, ll: seq<nat>, d: seq<nat>, cl: seq<nat>, n: nat)
    requires TreesOk(ll, d, cl, n) && At(s, pos, EncTrees(ll, d, cl, n))
    ensures DecodeTrees(s, pos) == Some((ll, d, pos + |EncTrees(ll, d, cl, n)|))
  {
    hide At, EncOps, Rle, AllSendable, GoodLengths, GetBits, DecodeClLengths, DecodeLengths, EncCl, EncCounts;
    hide Repeat, KnownCl, LensOk;
    var ops := EncOps(cl, Rle(ll, 0, -1)) + EncOps(cl, Rle(d, 0, -1));
    AtConcat(s, pos, EncCounts(ll, d, n), EncCl(cl, n) + ops);
    AtConcat(s, pos + 14, EncCl(cl, n), ops);
    DecodeCounts(s, pos, ll, d, n);
    DecodeCl(s, pos + 14, cl, n, n);
    KnownClAll(cl, n);
    ClEnd(s, pos + 14 + 3 * n, n, cl);
    GoodIsOk(ll); GoodIsOk(d);
    DecodeBoth(s, pos + 14 + 3 * n, ll, d, cl);
    assert (ll + d)[..|ll|] == ll && (ll + d)[|ll|..] == d;
  }

  lemma ClEnd(s: Bits, pos: nat, n: nat, acc: seq<nat>)
    requires n <= 19 && |acc| == 19
    ensures DecodeClLengths(s, pos, n, n, acc) == Some((acc, pos))
  {}

  lemma GoodIsOk(lens: seq<nat>)
    requires GoodLengths(lens)
    ensures LensOk(lens)
  {}

  // ---------- blocks ----------

  datatype Block =
    | Stored(data: seq<byte>)
    | Fixed(ts: seq<Token>)
    | Dynamic(ts: seq<Token>, ll: seq<nat>, d: seq<nat>, cl: seq<nat>, n: nat)
  {
    /** A block that can follow the output `out`. */
    predicate Ok(out: seq<byte>) {
      match this
      case Stored(data) => |data| <= 0xffff
      case Fixed(ts) => AllCodable(FixedLL(), FixedD(), ts) && Reachable(out, ts)
      case Dynamic(ts, ll, d, cl, n) =>
        && TreesOk(ll, d, cl, n) && ll[END_BLOCK] > 0
        && AllCodable(ll, d, ts) && Reachable(out, ts)
    }

    function Kind(): nat {
      match this
      case Stored(_) => 0
      case Fixed(_) => 1
      case Dynamic(_, _, _, _, _) => 2
    }

    /** The output after this block. */
    function Output(out: seq<byte>): seq<byte> {
      match this
      case Stored(data) => out + data
      case Fixed(ts) => Expand(out, ts)
      case Dynamic(ts, _, _, _, _) => Expand(out, ts)
    }

    /** The block after its three header bits, from bit position `pos`. */
    function Body(pos: nat, out: seq<byte>): Bits
      requires Ok(out)
    {
      match this
      case Stored(data) => Padding(pos) + (Lsb(|data|, 16) + (Lsb(0xffff - |data|, 16) + ByteBits(data)))
      case Fixed(ts) => EncData(FixedLL(), FixedD(), ts)
      case Dynamic(ts, ll, d, cl, n) => EncTrees(ll, d, cl, n) + EncData(ll, d, ts)
    }

    function Encode(final: bool, pos: nat, out: seq<byte>): (b: Bits)
      requires Ok(out)
    {
      Lsb((if final then 1 else 0) + 2 * Kind(), 3) + Body(pos + 3, out)
    }
  }

  lemma {:induction false} KraftConcat(a: seq<nat>, b: seq<nat>)
    requires LensOk(a) && LensOk(b)
    ensures LensOk(a + b) && Kraft(a + b) == Kraft(a) + Kraft(b)
  {
    if b == [] {
      assert a + b == a;
    } else {
      assert (a + b)[..|a + b| - 1] == a + b[..|b| - 1];
      KraftConcat(a, b[..|b| - 1]);
    }
  }

  lemma {:induction false} KraftRepeat(v: nat, n: nat)
    requires 0 < v <= MAX_BITS
    ensures LensOk(Repeat(v, n)) && Kraft(Repeat(v, n)) == n * Pow2(MAX_BITS - v)
  {
    if n > 0 {
      KraftRepeat(v, n - 1);
      assert Repeat(v, n)[..n - 1] == Repeat(v, n - 1);
      Distribute(n - 1, 1, Pow2(MAX_BITS - v));
    }
  }

  /** The fixed codes fill the code space exactly. */
  lemma FixedGood()
    ensures GoodLengths(FixedLL()) && GoodLengths(FixedD())
    ensures Kraft(FixedLL()) == WHOLE && Kraft(FixedD()) == WHOLE
  {
    Pow2Table();
    hide Repeat, Kraft, Pow2, LensOk;
    var a, b, c, e := Repeat(8, 144), Repeat(9, 112), Repeat(7, 24), Repeat(8, 8);
    KraftRepeat(8, 144); KraftRepeat(9, 112); KraftRepeat(7, 24); KraftRepeat(8, 8); KraftRepeat(5, 32);
    KraftConcat(a, b);
    KraftConcat(a + b, c);
    KraftConcat(a + b + c, e);
    assert FixedLL() == a + b + c + e;
    assert FixedD() == Repeat(5, 32);
  }

  lemma {:induction false} GetBytesAt(s: Bits, pos: nat, data: seq<byte>)
    requires At(s, pos, ByteBits(data))
    ensures GetBytes(s, pos, |data|) == data
  {
    hide Lsb, Value;
    if data != [] {
      var n := |data| - 1;
      AtConcat(s, pos, ByteBits(data[..n]), Lsb(data[n], 8));
      GetBytesAt(s, pos, data[..n]);
      assert Pow2(8) == 256;
      LsbValue(data[n], 8);
      assert s[pos + 8 * n..pos + 8 * n + 8] == Lsb(data[n], 8);
    }
  }

  lemma DecodeStoredBlock(s: Bits, pos: nat, out: seq<byte>, b: Block)
    requires b.Stored? && b.Ok(out) && At(s, pos, b.Body(pos, out))
    ensures DecodeStored(s, pos, out) == Some((b.Output(out), pos + |b.Body(pos, out)|))
  {
    hide At, Lsb, ByteBits, PadCount, GetBits, GetBytes, Padding, Block.Body, DecodeStored;
    StoredParts(pos, out, b);
    var n, k := |b.data|, PadCount(pos);
    AtFour(s, pos, Padding(pos), Lsb(n, 16), Lsb(0xffff - n, 16), ByteBits(b.data));
    Get16(s, pos + k, n);
    Get16(s, pos + k + 16, 0xffff - n);
    GetBytesAt(s, pos + k + 32, b.data);
    AtEnd(s, pos + k + 32, ByteBits(b.data));
    StoredResult(s, pos, out, b.data);
  }

  lemma Get16(s: Bits, pos: nat, v: nat)
    requires v <= 0xffff && At(s, pos, Lsb(v, 16))
    ensures GetBits(s, pos, 16) == Some(v)
  {
    Pow2Sixteen();
    hide At, Lsb, GetBits, Pow2;
    GetBitsAt(s, pos, v, 16);
  }

  lemma AtFour(s: Bits, pos: nat, a: Bits, b: Bits, c: Bits, e: Bits)
    requires At(s, pos, a + (b + (c + e)))
    ensures At(s, pos, a) && At(s, pos + |a|, b) && At(s, pos + |a| + |b|, c) && At(s, pos + |a| + |b| + |c|, e)
  {
    hide At;
    AtConcat(s, pos, a, b + (c + e));
    AtConcat(s, pos + |a|, b, c + e);
    AtConcat(s, pos + |a| + |b|, c, e);
  }

  lemma StoredResult(s: Bits, pos: nat, out: seq<byte>, data: seq<byte>)
    requires var p := pos + PadCount(pos);
             && GetBits(s, p, 16) == Some(|data|) && GetBits(s, p + 16, 16) == Some(0xffff - |data|)
             && p + 32 + 8 * |data| <= |s| && GetBytes(s, p + 32, |data|) == data
    ensures DecodeStored(s, pos, out) == Some((out + data, pos + PadCount(pos) + 32 + 8 * |data|))
  {
    hide PadCount, GetBits, GetBytes;
  }

  lemma StoredParts(pos: nat, out: seq<byte>, b: Block)
    requires b.Stored? && b.Ok(out)
    ensures b.Body(pos, out) == Padding(pos) + (Lsb(|b.data|, 16) + (Lsb(0xffff - |b.data|, 16) + ByteBits(b.data)))
    ensures |Padding(pos)| == PadCount(pos) && |b.Body(pos, out)| == PadCount(pos) + 32 + 8 * |b.data|
  {
    hide Lsb, ByteBits, PadCount;
  }

  lemma AtEnd(s: Bits, pos: nat, enc: Bits)
    requires At(s, pos, enc)
    ensures pos + |enc| <= |s|
  {}

  /** The three header bits of a block. */
  lemma DecodeKind(s: Bits, pos: nat, final: bool, kind: nat)
    requires kind < 4 && At(s, pos, Lsb((if final then 1 else 0) + 2 * kind, 3))
    ensures GetBits(s, pos, 1) == Some(if final then 1 else 0)
    ensures GetBits(s, pos + 1, 2) == Some(kind)
  {
    assert Pow2(1) == 2 && Pow2(2) == 4;
    var f := if final then 1 else 0;
    assert Shl(kind, 1) == 2 * kind;
    hide At, Lsb, GetBits, Pow2, Shl;
    LsbAppend(f, 1, kind, 2);
    AtConcat(s, pos, Lsb(f, 1), Lsb(kind, 2));
    GetBitsAt(s, pos, f, 1);
    GetBitsAt(s, pos + 1, kind, 2);
  }

  lemma DecodeFixedBlock(s: Bits, pos: nat, out: seq<byte>, ts: seq<Token>)
    requires AllCodable(FixedLL(), FixedD(), ts) && Reachable(out, ts)
    requires At(s, pos, Fixed(ts).Body(pos, out))
    ensures DecodeData(FixedLL(), FixedD(), s, pos, out) == Some((Expand(out, ts), pos + |Fixed(ts).Body(pos, out)|))
  {
    hide At, EncData, AllCodable, Reachable, GoodLengths, DecodeData, Repeat;
    FixedGood();
    DecodeBody(FixedLL(), FixedD(), s, pos, out, ts);
  }

  lemma DecodeDynamicBlock(s: Bits, pos: nat, out: seq<byte>, ts: seq<Token>, ll: seq<nat>, d: seq<nat>,
                           cl: seq<nat>, n: nat)
    requires Dynamic(ts, ll, d, cl, n).Ok(out)
    requires At(s, pos, Dynamic(ts, ll, d, cl, n).Body(pos, out))
    ensures DecodeTrees(s, pos) == Some((ll, d, pos + |EncTrees(ll, d, cl, n)|))
    ensures DecodeData(ll, d, s, pos + |EncTrees(ll, d, cl, n)|, out)
         == Some((Expand(out, ts), pos + |Dynamic(ts, ll, d, cl, n).Body(pos, out)|))
  {
    hide At, EncData, EncTrees, TreesOk, AllCodable, Reachable, GoodLengths, DecodeData, DecodeTrees;
    TreesAreGood(ll, d, cl, n);
    AtConcat(s, pos, EncTrees(ll, d, cl, n), EncData(ll, d, ts));
    DecodeHeader(s, pos, ll, d, cl, n);
    DecodeBody(ll, d, s, pos + |EncTrees(ll, d, cl, n)|, out, ts);
  }

  /** Section 3.2.3's decoder reads a block as the compressor wrote it. */
  lemma DecodeBlockAt(s: Bits, pos: nat, out: seq<byte>, final: bool, b: Block)
    requires b.Ok(out) && At(s, pos, b.Encode(final, pos, out))
    ensures DecodeBlock(s, pos, out) == Some(BlockResult(final, b.Output(out), pos + |b.Encode(final, pos, out)|))
  {
    hide At, Lsb, GetBits, DecodeStored, DecodeData, DecodeTrees, Block.Body;
    hide TreesOk, AllCodable, Reachable;
    var head, body := Lsb((if final then 1 else 0) + 2 * b.Kind(), 3), b.Body(pos + 3, out);
    AtConcat(s, pos, head, body);
    DecodeKind(s, pos, final, b.Kind());
    match b
    case Stored(_) => DecodeStoredBlock(s, pos + 3, out, b);
    case Fixed(ts) => DecodeFixedBlock(s, pos + 3, out, ts);
    case Dynamic(ts, ll, d, cl, n) => DecodeDynamicBlock(s, pos + 3, out, ts, ll, d, cl, n);
  }

  lemma TreesAreGood(ll: seq<nat>, d: seq<nat>, cl: seq<nat>, n: nat)
    requires TreesOk(ll, d, cl, n)
    ensures GoodLengths(ll) && GoodLengths(d) && |ll| >= 257
  {}

  // ---------- whole streams ----------

  /** Every block can follow the output of those before it. */
  predicate StreamOk(bs: seq<Block>) {
    bs == [] || (StreamOk(bs[..|bs| - 1]) && bs[|bs| - 1].Ok(Content(bs[..|bs| - 1])))
  }

  /** The bytes a stream of blocks stands for. */
  function Content(bs: seq<Block>): seq<byte> {
    if bs == [] then [] else bs[|bs| - 1].Output(Content(bs[..|bs| - 1]))
  }

  /** Blocks that are not the last of their stream, from bit position `pos`. */
  function EncBlocks(bs: seq<Block>, pos: nat): Bits
    requires StreamOk(bs)
  {
    if bs == [] then [] else
    var front := EncBlocks(bs[..|bs| - 1], pos);
    front + bs[|bs| - 1].Encode(false, pos + |front|, Content(bs[..|bs| - 1]))
  }

  lemma {:induction false} InflateBlocks(s: Bits, pos: nat, bs: seq<Block>)
    requires StreamOk(bs) && At(s, pos, EncBlocks(bs, pos))
    ensures Inflate(s, pos, []) == Inflate(s, pos + |EncBlocks(bs, pos)|, Content(bs))
  {
    hide At, DecodeBlock, Block.Encode, Block.Ok, Block.Output;
    if bs != [] {
      var front, b := bs[..|bs| - 1], bs[|bs| - 1];
      var p := pos + |EncBlocks(front, pos)|;
      AtConcat(s, pos, EncBlocks(front, pos), b.Encode(false, p, Content(front)));
      InflateBlocks(s, pos, front);
      DecodeBlockAt(s, p, Content(front), false, b);
    }
  }

  /** A complete stream: `bs` are all its blocks, the last of them marked final. */
  function EncStream(bs: seq<Block>, pos: nat): Bits
    requires bs != [] && StreamOk(bs)
  {
    var front := EncBlocks(bs[..|bs| - 1], pos);
    front + bs[|bs| - 1].Encode(true, pos + |front|, Content(bs[..|bs| - 1]))
  }

  /** Inflating a stream gives back its content, and stops where the stream stops. */
  lemma InflateStream(s: Bits, pos: nat, bs: seq<Block>)
    requires bs != [] && StreamOk(bs) && At(s, pos, EncStream(bs, pos))
    ensures Inflate(s, pos, []) == Some((Content(bs), pos + |EncStream(bs, pos)|))
  {
    hide At, DecodeBlock, EncBlocks, Block.Encode, Block.Ok, Block.Output;
    var front, b := bs[..|bs| - 1], bs[|bs| - 1];
    var p := pos + |EncBlocks(front, pos)|;
    AtConcat(s, pos, EncBlocks(front, pos), b.Encode(true, p, Content(front)));
    InflateBlocks(s, pos, front);
    DecodeBlockAt(s, p, Content(front), true, b);
  }
}
