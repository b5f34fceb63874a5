/** The tables the compressor fills once, before the first block. */
module Tables {
  import opened Numbers
  import opened Bits
  import opened Canonical
  import opened Rfc1951
  import opened Blocks
  import opened CodeLengths
  import opened BitWriter
  import opened Huffman
  import opened Frequencies

  // ---------- which code a length or a distance has ----------

  lemma {:induction false} DistBaseMono(a: nat, b: nat)
    requires a <= b
    ensures DistBase(a) <= DistBase(b)
  {
    if a < b { DistBaseMono(a, b - 1); }
  }

  /** The ranges of the distance codes do not overlap. */
  lemma DistCodeIs(dist: nat, c: nat)
    requires 1 <= dist <= MAX_DISTANCE && c < D_CODES && DistBase(c) <= dist < DistBase(c) + Pow2(DistExtra(c))
    ensures DistCode(dist) == c
  {
    var r := DistCode(dist);
    hide DistBase, DistExtra, DistCode, Pow2;
    DistStep(c);
    DistStep(r);
    if r < c { DistBaseMono(r + 1, c); }
    if c < r { DistBaseMono(c + 1, r); }
  }

  lemma {:induction false} LenBaseMono(a: nat, b: nat)
    requires a <= b < LENGTH_CODES - 1
    ensures LenBase(a) <= LenBase(b)
  {
    if a < b { LenBaseMono(a, b - 1); }
  }

  predicate InLenRange(len: nat, c: nat) {
    c < LENGTH_CODES - 1 && LenBase(c) <= len < LenBase(c) + Pow2(LenExtra(c))
  }

  /** Only the longest match has two candidate codes. */
  lemma LenCodeIs(len: nat, c: nat)
    requires MIN_MATCH <= len < MAX_MATCH && InLenRange(len, c)
    ensures LenCode(len) == c
  {
    var r := LenCode(len);
    LastLen();
    if r < c {
      assert LenBase(r + 1) == LenBase(r) + Pow2(LenExtra(r));
      hide LenBase, LenExtra, LenCode, Pow2;
      LenBaseMono(r + 1, c);
    }
    if c < r {
      assert LenBase(c + 1) == LenBase(c) + Pow2(LenExtra(c));
      hide LenBase, LenExtra, LenCode, Pow2;
      LenBaseMono(c + 1, r);
    }
  }

  lemma LastLen()
    ensures LenBase(28) == MAX_MATCH && LenCode(MAX_MATCH) == 28
  {}

  /** Where the range of code `c` ends. */
  lemma LenNext(c: nat)
    requires c < LENGTH_CODES - 1
    ensures LenBase(c) + Pow2(LenExtra(c)) == if c == 27 then MAX_MATCH + 1 else LenBase(c + 1)
    ensures 3 <= LenBase(c) && LenBase(c) + Pow2(LenExtra(c)) <= MAX_MATCH + 1
  {
    LenTable();
    if c < 27 {
      hide LenExtra, Pow2;
      assert LenBase(c + 1) == LenBase(c) + Pow2(LenExtra(c));
      LenBaseMono(c + 1, 27);
    }
    LenBaseMono(0, c);
  }

  /** Fills the mapping from match lengths to length codes. */
  method LengthTables() returns (lengthCode: array<nat>, baseLength: array<nat>)
    ensures fresh(lengthCode) && fresh(baseLength) && lengthCode.Length == 256 && baseLength.Length == LENGTH_CODES
    ensures forall len :: MIN_MATCH <= len <= MAX_MATCH ==> lengthCode[len - MIN_MATCH] == LenCode(len)
    ensures forall c :: 0 <= c < LENGTH_CODES - 1 ==> baseLength[c] == LenBase(c) - MIN_MATCH
  {
    hide LenBase, LenExtra, LenCode, Pow2, Shl;
    lengthCode := new nat[256](_ => 0);
    baseLength := new nat[LENGTH_CODES](_ => 0);
    var length, code := 0, 0;
    assert LenBase(0) == 3 by { FirstLen(); }
    while code < LENGTH_CODES - 1
      invariant code <= LENGTH_CODES - 1
      invariant length == if code == LENGTH_CODES - 1 then 256 else LenBase(code) - MIN_MATCH
      invariant 0 <= length <= 256
      invariant forall x :: 0 <= x < length ==> InLenRange(x + MIN_MATCH, lengthCode[x])
      invariant forall c :: 0 <= c < code ==> baseLength[c] == LenBase(c) - MIN_MATCH
    {
      baseLength[code] := length;
      LExtra(code);
      ShlOne(EXTRA_LBITS[code]);
      LenNext(code);
      var n := 0;
      while n < Shl(1, EXTRA_LBITS[code])
        invariant n <= Pow2(LenExtra(code)) && length == LenBase(code) - MIN_MATCH + n
        invariant forall x :: 0 <= x < length ==> InLenRange(x + MIN_MATCH, lengthCode[x])
        invariant forall c :: 0 <= c <= code ==> baseLength[c] == LenBase(c) - MIN_MATCH
      {
        lengthCode[length] := code;
        length := length + 1;
        n := n + 1;
      }
      code := code + 1;
    }
    forall len | MIN_MATCH <= len < MAX_MATCH
      ensures lengthCode[len - MIN_MATCH] == LenCode(len)
    {
      assert InLenRange(len - MIN_MATCH + MIN_MATCH, lengthCode[len - MIN_MATCH]);
      LenCodeIs(len, lengthCode[len - MIN_MATCH]);
    }
    // The longest match has a code of its own, without extra bits.
    lengthCode[length - 1] := code;
    LastLen();
  }

  lemma FirstLen()
    ensures LenBase(0) == 3
  {}

  /** The distance code of `dist`, by way of the two halves of the table. */
  function DCode(distCode: seq<nat>, dist: nat): nat
    requires |distCode| == 512 && dist < MAX_DISTANCE
  {
    if dist < 256 then distCode[dist] else distCode[256 + dist / 128]
  }

  predicate InDistRange(dist: nat, c: nat) {
    c < D_CODES && DistBase(c) <= dist < DistBase(c) + Pow2(DistExtra(c))
  }

  lemma DistNext(c: nat)
    requires c < D_CODES
    ensures DistBase(c) + Pow2(DistExtra(c)) == DistBase(c + 1)
    ensures 1 <= DistBase(c) && DistBase(c + 1) <= MAX_DISTANCE + 1
    ensures c < 16 ==> DistBase(c + 1) <= 257
  {
    hide DistExtra, Pow2;
    DistTable();
    DistMiddle();
    hide DistBase;
    DistBaseMono(0, c);
    DistBaseMono(c + 1, 30);
    if c < 16 { DistBaseMono(c + 1, 16); }
    DistStep(c);
  }

  lemma DistStep(c: nat)
    ensures DistBase(c + 1) == DistBase(c) + Pow2(DistExtra(c)) && DistBase(0) == 1
  {}

  lemma DistMiddle()
    ensures DistBase(16) == 257
  {
    assert DistBase(4) == 5 && DistBase(8) == 17 && DistBase(12) == 65;
  }

  /** Distance codes from 16 on cover whole multiples of 128. */
  lemma {:induction false} CoarseBase(c: nat)
    requires 16 <= c <= D_CODES
    ensures (DistBase(c) - 1) % 128 == 0
    ensures c < D_CODES ==> DistExtra(c) >= 7 && Pow2(DistExtra(c)) == 128 * Pow2(DistExtra(c) - 7)
  {
    hide DistBase, DistExtra, Pow2;
    CoarseExtra(c);
    if c > 16 {
      CoarseBase(c - 1);
      DistStep(c - 1);
      Multiple(DistBase(c - 1) - 1, Pow2(DistExtra(c - 1) - 7));
    } else {
      DistMiddle();
    }
  }

  lemma Multiple(a: nat, p: nat)
    requires a % 128 == 0
    ensures (a + 128 * p) % 128 == 0
  {}

  lemma CoarseExtra(c: nat)
    requires 16 <= c
    ensures DistExtra(c) >= 7 && Pow2(DistExtra(c)) == 128 * Pow2(DistExtra(c) - 7)
  {
    By128(DistExtra(c));
  }

  lemma By128(k: nat)
    requires k >= 7
    ensures Pow2(k) == 128 * Pow2(k - 7)
  {
    Pow2Table();
    hide Pow2, Shl;
    Pow2Add(k - 7, 7);
    ShlMul(Pow2(k - 7), 7);
  }

  /** Distances that share their high bits share their code. */
  lemma CoarseRange(dist: nat, c: nat)
    requires 16 <= c < D_CODES && InDistRange(128 * (dist / 128) + 1, c)
    ensures InDistRange(dist + 1, c)
  {
    hide DistBase, DistExtra, Pow2;
    CoarseBase(c);
    var b, p, q := DistBase(c) - 1, Pow2(DistExtra(c) - 7), dist / 128;
    assert b <= 128 * q < b + 128 * p;
    assert 128 * q + 128 <= b + 128 * p by {
      assert b == 128 * (b / 128);
      assert q < b / 128 + p;
    }
  }

  /** Fills the mapping from distances to distance codes. */
  method DistanceTables() returns (distCode: array<nat>, baseDist: array<nat>)
    ensures fresh(distCode) && fresh(baseDist) && distCode.Length == 512 && baseDist.Length == D_CODES
    ensures forall dist: nat :: dist < MAX_DISTANCE ==> DCode(distCode[..], dist) == DistCode(dist + 1)
    ensures forall c :: 0 <= c < D_CODES ==> baseDist[c] == DistBase(c) - 1
  {
    hide DistBase, DistExtra, DistCode, Pow2, Shl, DCode;
    distCode := new nat[512](_ => 0);
    baseDist := new nat[D_CODES](_ => 0);
    var code := FineDistances(distCode, baseDist);
    var dist := 256 / 128;
    assert DistBase(30) == 0x8001 by { DistTable(); }
    while code < D_CODES
      invariant 16 <= code <= D_CODES && 128 * dist + 1 == DistBase(code) && 0 <= dist <= 256
      invariant forall x :: 0 <= x < 256 ==> InDistRange(x + 1, distCode[x])
      invariant forall x :: 258 <= x < 256 + dist ==>
                  distCode[x] >= 16 && InDistRange(128 * (x - 256) + 1, distCode[x])
      invariant forall c :: 0 <= c < code ==> baseDist[c] == DistBase(c) - 1
    {
      baseDist[code] := 128 * dist;
      DExtra(code);
      CoarseBase(code);
      DistNext(code);
      ShlOne(EXTRA_DBITS[code] - 7);
      var n, start := 0, dist;
      while n < Shl(1, EXTRA_DBITS[code] - 7)
        invariant n <= Pow2(DistExtra(code) - 7) && dist == start + n
        invariant forall x :: 0 <= x < 256 ==> InDistRange(x + 1, distCode[x])
        invariant forall x :: 258 <= x < 256 + dist ==>
                    distCode[x] >= 16 && InDistRange(128 * (x - 256) + 1, distCode[x])
        invariant forall c :: 0 <= c <= code ==> baseDist[c] == DistBase(c) - 1
      {
        distCode[256 + dist] := code;
        assert InDistRange(128 * dist + 1, code);
        dist := dist + 1;
        n := n + 1;
      }
      code := code + 1;
    }
    forall x: nat | x < MAX_DISTANCE
      ensures DCode(distCode[..], x) == DistCode(x + 1)
    {
      DCodeIs(distCode[..], x);
    }
  }

  lemma DCodeIs(distCode: seq<nat>, x: nat)
    requires |distCode| == 512 && x < MAX_DISTANCE
    requires x < 256 ==> InDistRange(x + 1, distCode[x])
    requires x >= 256 ==> var c := distCode[256 + x / 128]; c >= 16 && InDistRange(128 * (x / 128) + 1, c)
    ensures DCode(distCode, x) == DistCode(x + 1)
  {
    hide DistBase, DistExtra, DistCode, Pow2;
    if x >= 256 { CoarseRange(x, distCode[256 + x / 128]); }
    DistCodeIs(x + 1, DCode(distCode, x));
  }

  /** The distances up to 256, each with an entry of its own. */
  method FineDistances(distCode: array<nat>, baseDist: array<nat>) returns (code: nat)
    requires distCode.Length == 512 && baseDist.Length == D_CODES && distCode != baseDist
    modifies distCode, baseDist
    ensures code == 16 && DistBase(16) == 257
    ensures forall x :: 0 <= x < 256 ==> InDistRange(x + 1, distCode[x])
    ensures forall c :: 0 <= c < 16 ==> baseDist[c] == DistBase(c) - 1
  {
    hide DistBase, DistExtra, DistCode, Pow2, Shl;
    var dist := 0;
    code := 0;
    DistStep(0);
    while code < 16
      invariant code <= 16 && dist + 1 == DistBase(code) && 0 <= dist <= 256
      invariant forall x :: 0 <= x < dist ==> InDistRange(x + 1, distCode[x])
      invariant forall c :: 0 <= c < code ==> baseDist[c] == DistBase(c) - 1
    {
      baseDist[code] := dist;
      DExtra(code);
      DistNext(code);
      ShlOne(EXTRA_DBITS[code]);
      var n := 0;
      while n < Shl(1, EXTRA_DBITS[code])
        invariant n <= Pow2(DistExtra(code)) && dist + 1 == DistBase(code) + n
        invariant forall x :: 0 <= x < dist ==> InDistRange(x + 1, distCode[x])
        invariant forall c :: 0 <= c <= code ==> baseDist[c] == DistBase(c) - 1
      {
        distCode[dist] := code;
        dist := dist + 1;
        n := n + 1;
      }
      code := code + 1;
    }
    DistMiddle();
  }

  // ---------- the static trees ----------

  /** The tree `t` gives every symbol of `lens` it has room for its length and its code. */
  ghost predicate Ready(t: CtData, lens: seq<nat>)
    reads t.fc, t.dl
  {
    forall i :: 0 <= i < |lens| && lens[i] > 0 && i < t.fc.Length && i < t.dl.Length ==>
      t.dl[i] == lens[i] && CodeAt(t.fc[i], lens, i)
  }

  lemma {:induction false} CountConcat(a: seq<nat>, b: seq<nat>, v: nat)
    ensures Count(a + b, v) == Count(a, v) + Count(b, v)
  {
    if b == [] {
      assert a + b == a;
    } else {
      assert (a + b)[..|a + b| - 1] == a + b[..|b| - 1];
      CountConcat(a, b[..|b| - 1], v);
    }
  }

  lemma {:induction false} CountSame(a: seq<nat>, l: nat, v: nat)
    requires forall i :: 0 <= i < |a| ==> a[i] == l
    ensures Count(a, v) == if v == l then |a| else 0
  {
    if a != [] { CountSame(a[..|a| - 1], l, v); }
  }

  lemma FixedCounts(b: nat)
    ensures Count(FixedLL(), b) == if b == 7 then 24 else if b == 8 then 152 else if b == 9 then 112 else 0
  {
    hide Count, FixedLL;
    var f := FixedLL();
    CountSame(f[..144], 8, b);
    CountSame(f[144..256], 9, b);
    CountSame(f[256..280], 7, b);
    CountSame(f[280..], 8, b);
    assert f == f[..144] + f[144..256] + f[256..280] + f[280..];
    CountConcat(f[..144] + f[144..256] + f[256..280], f[280..], b);
    CountConcat(f[..144] + f[144..256], f[256..280], b);
    CountConcat(f[..144], f[144..256], b);
  }

  method StaticLengths(dl: array<nat>)
    requires dl.Length == 288
    modifies dl
    ensures dl[..288] == FixedLL()
  {
    hide FixedLL;
    var n := 0;
    while n <= 143
      invariant n <= 144 && forall i :: 0 <= i < n ==> dl[i] == 8
    {
      dl[n] := 8;
      n := n + 1;
    }
    while n <= 255
      invariant 144 <= n <= 256 && forall i :: 0 <= i < n ==> dl[i] == if i < 144 then 8 else 9
    {
      dl[n] := 9;
      n := n + 1;
    }
    while n <= 279
      invariant 256 <= n <= 280 && forall i :: 0 <= i < n ==> dl[i] == if i < 144 then 8 else if i < 256 then 9 else 7
    {
      dl[n] := 7;
      n := n + 1;
    }
    while n <= 287
      invariant 280 <= n <= 288
      invariant forall i :: 0 <= i < n ==> dl[i] == if i < 144 then 8
                          else if i < 256 then 9 else if i < 280 then 7 else 8
    {
      dl[n] := 8;
      n := n + 1;
    }
  }

  /** The codes of the static literal tree. */
  method StaticLTree(ws: Workspace) returns (t: CtData)
    requires ws.Valid() && forall b :: 0 <= b < 16 ==> ws.blCount[b] == 0
    modifies ws.blCount
    ensures t.Valid(288) && fresh(t) && fresh(t.fc) && fresh(t.dl) && Ready(t, FixedLL())
  {
    hide FixedLL, GoodLengths, CodesOf, CodeAt, Count;
    t := new CtData(288);
    StaticLengths(t.dl);
    ws.blCount[7] := 279 - 255;
    ws.blCount[8] := (143 + 1) + (287 - 279);
    ws.blCount[9] := 255 - 143;
    forall b | 1 <= b <= MAX_BITS
      ensures ws.blCount[b] == Count(t.dl[..288], b)
    {
      FixedCounts(b);
    }
    FixedGood();
    ws.GenCodes(t, L_CODES + 1);
    AllReady(t, 288, FixedLL());
  }

  lemma AllReady(t: CtData, n: nat, lens: seq<nat>)
    requires n <= t.dl.Length && t.dl[..n] == lens && CodesOf(t.fc[..], lens)
    ensures Ready(t, lens)
  {
    hide CodeAt;
    forall i | 0 <= i < |lens| && lens[i] > 0
      ensures t.dl[i] == lens[i] && CodeAt(t.fc[i], lens, i)
    {
      assert t.dl[i] == t.dl[..n][i] && t.fc[i] == t.fc[..][i];
    }
  }

  /** The fixed distance codes are the symbols themselves. */
  lemma FixedDCode(n: nat)
    requires n < 32
    ensures CodeOf(FixedD(), n) == n
  {
    hide Count, FixedD, FirstCode;
    NoShortCodes(5);
    CountSame(FixedD()[..n], 5, 5);
  }

  lemma {:induction false} NoShortCodes(b: nat)
    requires b <= 5
    ensures FirstCode(FixedD(), b) == 0
  {
    hide FixedD;
    if b > 1 {
      NoShortCodes(b - 1);
      CountSame(FixedD(), 5, b - 1);
    }
  }

  method StaticDTree() returns (t: CtData)
    ensures t.Valid(D_CODES) && fresh(t) && fresh(t.fc) && fresh(t.dl) && Ready(t, FixedD())
  {
    hide FixedD, CodeOf, Msb, Lsb;
    Pow2Table();
    hide Pow2;
    t := new CtData(D_CODES);
    var n := 0;
    while n < D_CODES
      invariant n <= D_CODES
      invariant forall i :: 0 <= i < n ==> t.dl[i] == 5 && CodeAt(t.fc[i], FixedD(), i)
    {
      FixedDCode(n);
      t.dl[n] := 5;
      var r := BiReverse(n, 5);
      t.fc[n] := r;
      n := n + 1;
    }
  }

  /** Everything that is computed once, before the first block. */
  class CodeTables {
    const lengthCode: seq<nat>
    const baseLength: seq<nat>
    const distCode: seq<nat>
    const baseDist: seq<nat>
    const staticL: CtData
    const staticD: CtData

    ghost predicate MappingsOk() {
      && |lengthCode| == 256 && |baseLength| == LENGTH_CODES && |distCode| == 512 && |baseDist| == D_CODES
      && (forall len :: MIN_MATCH <= len <= MAX_MATCH ==> lengthCode[len - MIN_MATCH] == LenCode(len))
      && (forall c :: 0 <= c < LENGTH_CODES - 1 ==> baseLength[c] == LenBase(c) - MIN_MATCH)
      && (forall dist: nat :: dist < MAX_DISTANCE ==> DCode(distCode, dist) == DistCode(dist + 1))
      && (forall c :: 0 <= c < D_CODES ==> baseDist[c] == DistBase(c) - 1)
    }

    ghost predicate Valid()
      reads staticL.fc, staticL.dl, staticD.fc, staticD.dl
    {
      MappingsOk() && staticL.Valid(288) && staticD.Valid(D_CODES)
      && Ready(staticL, FixedLL()) && Ready(staticD, FixedD())
    }

    constructor (ws: Workspace)
      requires ws.Valid() && forall b :: 0 <= b < 16 ==> ws.blCount[b] == 0
      modifies ws.blCount
      ensures staticL.Valid(288) && staticD.Valid(D_CODES)
      ensures Valid() && fresh(staticL) && fresh(staticL.fc) && fresh(staticL.dl)
      ensures fresh(staticD) && fresh(staticD.fc) && fresh(staticD.dl)
      ensures staticL.fc != staticD.fc && staticL.fc != staticD.dl && staticL.dl != staticD.fc
      ensures staticL.dl != staticD.dl
    {
      hide Ready, DCode, FixedLL, FixedD, LenCode, LenBase, DistCode, DistBase;
      var lc, bl := LengthTables();
      var dc, bd := DistanceTables();
      lengthCode, baseLength, distCode, baseDist := lc[..], bl[..], dc[..], bd[..];
      var l := StaticLTree(ws);
      var d := StaticDTree();
      staticL, staticD := l, d;
    }
  }
}
