/** The DEFLATE format as RFC 1951 defines it: a decoder over a bit string. */
module Rfc1951 {
  import opened Wrappers
  import opened Numbers
  import opened Bits
  import opened Canonical

  const END_BLOCK := 256

  const LENGTH_CODES := 29
  const D_CODES := 30

  /** Extra bits of a length code (section 3.2.5). */
  function LenExtra(c: nat): nat {
    if c < 8 || c == 28 then 0 else c / 4 - 1
  }

  /** The smallest match length of a length code. */
  function LenBase(c: nat): nat {
    if c == 0 then 3 else if c == 28 then 258 else LenBase(c - 1) + Pow2(LenExtra(c - 1))
  }

  function DistExtra(c: nat): nat {
    if c < 4 then 0 else c / 2 - 1
  }

  /** The smallest distance of a distance code. */
  function DistBase(c: nat): nat {
    if c == 0 then 1 else DistBase(c - 1) + Pow2(DistExtra(c - 1))
  }

  // Section 3.2.7: the order in which code length code lengths are sent.
  const CL_ORDER: seq<nat> := [16, 17, 18, 0, 8, 7, 9, 6, 10, 5, 11, 4, 12, 3, 13, 2, 14, 1, 15]

  /** Section 3.2.6: the code lengths of the fixed Huffman codes. */
  function FixedLL(): (r: seq<nat>)
    ensures |r| == 288
    ensures forall i :: 0 <= i < 288 ==> r[i] == if i < 144 then 8
                  else if i < 256 then 9 else if i < 280 then 7 else 8
  {
    seq(288, i => if i < 144 then 8 else if i < 256 then 9 else if i < 280 then 7 else 8)
  }

  function FixedD(): (r: seq<nat>)
    ensures |r| == 32 && forall i :: 0 <= i < 32 ==> r[i] == 5
  {
    seq(32, i => 5)
  }

  /** An `n`-bit number, least significant bit first (section 3.1.1). */
  ghost function GetBits(s: Bits, pos: nat, n: nat): Option<nat> {
    if pos + n <= |s| then Some(Value(s[pos..pos + n])) else None
  }

  /** The first symbol, from `k` on, whose code stands at `pos`. */
  ghost function SymbolFrom(lens: seq<nat>, s: Bits, pos: nat, k: nat): (r: Option<nat>)
    ensures r.Some? ==> k <= r.value < |lens| && lens[r.value] > 0 && pos + lens[r.value] <= |s|
    decreases |lens| - k
  {
    if k >= |lens| then None
    else if lens[k] > 0 && At(s, pos, Code(lens, k)) then Some(k)
    else SymbolFrom(lens, s, pos, k + 1)
  }

  ghost function Symbol(lens: seq<nat>, s: Bits, pos: nat): (r: Option<nat>)
    ensures r.Some? ==> r.value < |lens| && lens[r.value] > 0 && pos + lens[r.value] <= |s|
  {
    SymbolFrom(lens, s, pos, 0)
  }

  /** Appends `len` bytes, each copied from `dist` bytes before the end. */
  function Copy(out: seq<byte>, len: nat, dist: nat): (r: seq<byte>)
    requires 1 <= dist <= |out|
    ensures |r| == |out| + len
    decreases len
  {
    if len == 0 then out else Copy(out + [out[|out| - dist]], len - 1, dist)
  }

  /** Compressed data up to and including the end-of-block code (section 3.2.3). */
  ghost function DecodeData(ll: seq<nat>, d: seq<nat>, s: Bits, pos: nat,
                            out: seq<byte>): (r: Option<(seq<byte>, nat)>)
    ensures r.Some? ==> pos < r.value.1 <= |s|
    decreases |s| - pos
  {
    var sym :- Symbol(ll, s, pos);
    var p := pos + ll[sym];
    if sym < END_BLOCK then DecodeData(ll, d, s, p, out + [sym])
    else if sym == END_BLOCK then Some((out, p))
    else
      var c := sym - END_BLOCK - 1;
      if c >= LENGTH_CODES then None else
      var e :- GetBits(s, p, LenExtra(c));
      var q := p + LenExtra(c);
      var dsym :- Symbol(d, s, q);
      var u := q + d[dsym];
      if dsym >= D_CODES then None else
      var x :- GetBits(s, u, DistExtra(dsym));
      var dist := DistBase(dsym) + x;
      if dist > |out| then None else
      DecodeData(ll, d, s, u + DistExtra(dsym), Copy(out, LenBase(c) + e, dist))
  }

  /** Run-length coded code lengths, until `n` of them are known (section 3.2.7). */
  ghost function DecodeLengths(cl: seq<nat>, s: Bits, pos: nat, n: nat, acc: seq<nat>): (r: Option<(seq<nat>, nat)>)
    ensures r.Some? ==> pos <= r.value.1 && |r.value.0| == n
    decreases |s| - pos
  {
    if |acc| >= n then (if |acc| == n then Some((acc, pos)) else None)
    else
      var sym :- Symbol(cl, s, pos);
      var p := pos + cl[sym];
      if sym <= 15 then DecodeLengths(cl, s, p, n, acc + [sym])
      else if sym == 16 then
        var e :- GetBits(s, p, 2);
        if acc == [] then None else
        DecodeLengths(cl, s, p + 2, n, acc + Repeat(acc[|acc| - 1], 3 + e))
      else if sym == 17 then
        var e :- GetBits(s, p, 3);
        DecodeLengths(cl, s, p + 3, n, acc + Repeat(0, 3 + e))
      else
        var e :- GetBits(s, p, 7);
        DecodeLengths(cl, s, p + 7, n, acc + Repeat(0, 11 + e))
  }

  /** The lengths of the code length codes, `n - k` of them still to read. */
  ghost function DecodeClLengths(s: Bits, pos: nat, k: nat, n: nat, acc: seq<nat>): (r: Option<(seq<nat>, nat)>)
    requires k <= n <= 19 && |acc| == 19
    ensures r.Some? ==> r.value.1 == pos + 3 * (n - k) && |r.value.0| == 19
    decreases n - k
  {
    if k == n then Some((acc, pos)) else
    var v :- GetBits(s, pos, 3);
    DecodeClLengths(s, pos + 3, k + 1, n, acc[CL_ORDER[k] := v])
  }

  predicate GoodLengths(lens: seq<nat>) {
    LensOk(lens) && Kraft(lens) <= WHOLE
  }

  /** The codes of a block with dynamic Huffman codes (section 3.2.7). */
  ghost function DecodeTrees(s: Bits, pos: nat): (r: Option<(seq<nat>, seq<nat>, nat)>)
    ensures r.Some? ==> pos <= r.value.2
  {
    var hlit :- GetBits(s, pos, 5);
    var hdist :- GetBits(s, pos + 5, 5);
    var hclen :- GetBits(s, pos + 10, 4);
    if hlit + 257 > 286 || hdist + 1 > 30 || hclen + 4 > 19 then None else
    var (cl, p) :- DecodeClLengths(s, pos + 14, 0, hclen + 4, Repeat(0, 19));
    if !GoodLengths(cl) then None else
    var n := hlit + 257 + hdist + 1;
    var (lens, q) :- DecodeLengths(cl, s, p, n, []);
    var ll, d := lens[..hlit + 257], lens[hlit + 257..];
    if GoodLengths(ll) && GoodLengths(d) then Some((ll, d, q)) else None
  }

  ghost function GetBytes(s: Bits, pos: nat, n: nat): (r: seq<byte>)
    requires pos + 8 * n <= |s|
    ensures |r| == n
  {
    if n == 0 then [] else
    var b := s[pos + 8 * (n - 1)..pos + 8 * n];
    ValueSmall(b);
    GetBytes(s, pos, n - 1) + [Value(b)]
  }

  lemma ValueSmall(b: Bits)
    requires |b| == 8
    ensures Value(b) < 256
  {
    ValueBound(b);
    assert Pow2(8) == 256;
  }

  lemma {:induction false} ValueBound(b: Bits)
    ensures Value(b) < Pow2(|b|)
  {
    if b != [] { ValueBound(b[1..]); }
  }

  /** A stored block (section 3.2.4). */
  ghost function DecodeStored(s: Bits, pos: nat, out: seq<byte>): (r: Option<(seq<byte>, nat)>)
    ensures r.Some? ==> pos < r.value.1 <= |s|
  {
    var p := pos + PadCount(pos);
    var len :- GetBits(s, p, 16);
    var nlen :- GetBits(s, p + 16, 16);
    if len + nlen != 0xffff || p + 32 + 8 * len > |s| then None else
    Some((out + GetBytes(s, p + 32, len), p + 32 + 8 * len))
  }

  datatype BlockResult = BlockResult(final: bool, out: seq<byte>, pos: nat)

  /** One block, after the output `out` of the blocks before it (section 3.2.3). */
  ghost function DecodeBlock(s: Bits, pos: nat, out: seq<byte>): (r: Option<BlockResult>)
    ensures r.Some? ==> pos < r.value.pos <= |s|
  {
    var final :- GetBits(s, pos, 1);
    var kind :- GetBits(s, pos + 1, 2);
    var p := pos + 3;
    if kind == 0 then
      var (o, q) :- DecodeStored(s, p, out);
      Some(BlockResult(final == 1, o, q))
    else if kind == 1 then
      var (o, q) :- DecodeData(FixedLL(), FixedD(), s, p, out);
      Some(BlockResult(final == 1, o, q))
    else if kind == 2 then
      var (ll, d, t) :- DecodeTrees(s, p);
      var (o, q) :- DecodeData(ll, d, s, t, out);
      Some(BlockResult(final == 1, o, q))
    else None
  }

  /** Blocks up to and including the final one; the result is the output and where it ends. */
  ghost function Inflate(s: Bits, pos: nat, out: seq<byte>): (r: Option<(seq<byte>, nat)>)
    decreases |s| - pos
  {
    var b :- DecodeBlock(s, pos, out);
    if b.final then Some((b.out, b.pos)) else Inflate(s, b.pos, b.out)
  }
}
