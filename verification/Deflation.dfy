/** The compressor: lazy matching over the sliding window, block by block. */
module Deflation {
  import opened Wrappers
  import opened Numbers
  import opened Bits
  import opened Rfc1951
  import opened Blocks
  import opened CodeLengths
  import opened BitWriter
  import opened TokenBuffer
  import opened Tables
  import opened BlockChoice
  import opened BlockCoding
  import opened HashChains
  import opened Parsing
  import opened Window
  import opened Searching

  const TOO_FAR: nat := 4096

  // ---------- what the tokens stand for ----------

  /** Copying repeats what the input repeats. */
  lemma {:induction false} CopyRepeats(data: seq<byte>, a: nat, dist: nat, len: nat)
    requires Repeats(data, a, dist, len) && dist >= 1
    ensures Copy(data[..a], len, dist) == data[..a + len]
    decreases len
  {
    if len > 0 {
      assert data[..a] + [data[a - dist]] == data[..a + 1];
      CopyRepeats(data, a + 1, dist, len - 1);
    }
  }

  /** How many bytes the tokens stand for. */
  function Bytes(ts: seq<Token>): nat {
    if ts == [] then 0 else
    var t := ts[|ts| - 1];
    Bytes(ts[..|ts| - 1]) + if t.Match? then t.len else 1
  }

  /** The blocks and then the tokens stand for the first `cur` bytes; the blocks alone for the first `from`. */
  ghost predicate Represents(bs: seq<Block>, ts: seq<Token>, data: seq<byte>, from: int, cur: int) {
    && 0 <= from <= cur <= |data| && cur - from == Bytes(ts) <= MAX_MATCH * |ts|
    && StreamOk(bs) && Content(bs) == data[..from]
    && Reachable(Content(bs), ts) && Expand(Content(bs), ts) == data[..cur]
  }

  lemma ExpandSnoc(out: seq<byte>, ts: seq<Token>, t: Token)
    ensures Expand(out, ts + [t]) == Apply(Expand(out, ts), t)
    ensures Reachable(out, ts + [t]) <==> Reachable(out, ts) && (t.Match? ==> t.dist <= |Expand(out, ts)|)
  {
    assert (ts + [t])[..|ts|] == ts;
  }

  lemma TakeLiteral(bs: seq<Block>, ts: seq<Token>, data: seq<byte>, from: int, cur: int)
    requires Represents(bs, ts, data, from, cur) && cur < |data|
    ensures Represents(bs, ts + [Literal(data[cur])], data, from, cur + 1)
  {
    hide Content, StreamOk;
    assert (ts + [Literal(data[cur])])[..|ts|] == ts;
    ExpandSnoc(Content(bs), ts, Literal(data[cur]));
    assert data[..cur] + [data[cur]] == data[..cur + 1];
  }

  lemma TakeMatch(bs: seq<Block>, ts: seq<Token>, data: seq<byte>, from: int, cur: int, len: nat, dist: nat)
    requires Represents(bs, ts, data, from, cur) && dist >= 1 && len <= MAX_MATCH && Repeats(data, cur, dist, len)
    ensures Represents(bs, ts + [Match(len, dist)], data, from, cur + len)
  {
    hide Content, StreamOk, Copy, Expand, Reachable;
    assert (ts + [Match(len, dist)])[..|ts|] == ts;
    ExpandSnoc(Content(bs), ts, Match(len, dist));
    CopyRepeats(data, cur, dist, len);
  }

  lemma NextBlock(bs: seq<Block>, ts: seq<Token>, data: seq<byte>, from: int, cur: int, b: Block)
    requires Represents(bs, ts, data, from, cur) && b.Ok(Content(bs))
    requires b.Output(Content(bs)) == Expand(Content(bs), ts)
    ensures StreamOk(bs + [b]) && Content(bs + [b]) == data[..cur]
    ensures Represents(bs + [b], [], data, cur, cur)
  {
    hide Block.Ok, Block.Output;
    assert (bs + [b])[..|bs|] == bs;
  }

  lemma NoBlocks(data: seq<byte>)
    ensures Represents([], [], data, 0, 0)
  {}

  lemma SliceOfSlice<T>(s: seq<T>, a: nat, b: nat, i: nat, j: nat)
    requires a <= b <= |s| && i <= j <= b - a
    ensures s[a..b][i..j] == s[a + i..a + j]
  {
    forall k | 0 <= k < j - i
      ensures s[a..b][i..j][k] == s[a + i..a + j][k]
    {
      assert s[a..b][i + k] == s[a + i + k];
    }
  }

  lemma Joined<T>(s: seq<T>, i: nat, j: nat)
    requires i <= j <= |s|
    ensures s[..i] + s[i..j] == s[..j]
  {}

  /** One more block that is not the last. */
  lemma BlocksNext(bs: seq<Block>, b: Block, pos: nat)
    requires StreamOk(bs) && b.Ok(Content(bs))
    ensures StreamOk(bs + [b])
    ensures EncBlocks(bs + [b], pos) == EncBlocks(bs, pos) + b.Encode(false, pos + |EncBlocks(bs, pos)|, Content(bs))
    ensures EncStream(bs + [b], pos) == EncBlocks(bs, pos) + b.Encode(true, pos + |EncBlocks(bs, pos)|, Content(bs))
  {
    hide Block.Ok, Block.Output, Block.Encode;
    assert (bs + [b])[..|bs|] == bs;
  }

  /** The distance computed modulo 2^32 is the real one, wherever the window has moved. */
  lemma RealDistance(strstart: nat, matchStart: nat, base: nat, dist: int)
    requires 0 <= dist < U32 && strstart >= 1 && U(matchStart + base) == U(base + strstart - 1 - dist)
    ensures U(strstart - 1 - matchStart) == dist
  {
    var q := (matchStart + base) / U32 - (base + strstart - 1 - dist) / U32;
    assert matchStart + base - (base + strstart - 1 - dist) == q * U32;
    assert strstart - 1 - matchStart == -q * U32 + dist;
    DivMod(strstart - 1 - matchStart, U32, -q, dist);
  }

  /**
   * The `len` bytes at `a` repeat those at `from`, of which `u` is what 32 bits hold, and `ahead +
   * 1` bytes can be used.
   */
  predicate Waiting(data: seq<byte>, a: int, len: nat, from: int, ahead: nat, u: nat) {
    && MIN_MATCH <= len <= MAX_MATCH && len <= ahead + 1 && u == U(from)
    && 0 <= from < a <= from + MAX_DIST && Repeats(data, a, a - from, len)
  }

  lemma WaitingStill(data: seq<byte>, a: int, len: nat, from: int, ahead: nat, more: nat, u: nat)
    requires ahead <= more
    ensures Waiting(data, a, len, from, ahead, u) ==> Waiting(data, a, len, from, more, u)
  {}

  // ---------- the tokens of each block ----------

  function Flat(gs: seq<seq<Token>>): seq<Token> {
    if gs == [] then [] else Flat(gs[..|gs| - 1]) + gs[|gs| - 1]
  }

  lemma FlatSnoc(gs: seq<seq<Token>>, g: seq<Token>)
    ensures Flat(gs + [g]) == Flat(gs) + g
  {
    assert (gs + [g])[..|gs|] == gs;
  }

  /** After these tokens the block is ended: the input up to the first byte of the last one is compared. */
  predicate Full(g: seq<Token>) {
    && g != [] && TokensOk(g)
    && (|g| == 8191 || StopsHere(g, Bytes(g[..|g| - 1]) + 1))
  }

  /** It was not ended before. */
  predicate OpenBefore(g: seq<Token>) {
    forall k :: 0 < k < |g| ==> !Full(g[..k])
  }

  predicate Open(g: seq<Token>) {
    OpenBefore(g) && !Full(g)
  }

  lemma OpenNext(g: seq<Token>, t: Token)
    requires Open(g)
    ensures OpenBefore(g + [t])
  {
    hide Full;
    var h := g + [t];
    forall k | 0 < k < |h|
      ensures !Full(h[..k])
    {
      assert h[..k] == g[..k];
      if k == |g| { assert g[..k] == g; }
    }
  }

  lemma NoneOpen()
    ensures Open([])
  {}

  /** The block is the one that the code chooses for the tokens; its bytes are gone only if they are many. */
  ghost predicate BlockFor(b: Block, g: seq<Token>, out: seq<byte>) {
    exists dyn, buf :: Emitted(b, dyn, buf, Bytes(g), g, out) && (buf.None? ==> Bytes(g) > MAX_DIST)
  }

  /** Each block is the one for its tokens, and was not to be ended before. */
  ghost predicate BlocksFor(bs: seq<Block>, gs: seq<seq<Token>>) {
    && StreamOk(bs) && |gs| == |bs|
    && forall i :: 0 <= i < |bs| ==> BlockFor(bs[i], gs[i], Content(bs[..i])) && OpenBefore(gs[i])
  }

  predicate AllFull(gs: seq<seq<Token>>) {
    forall i :: 0 <= i < |gs| ==> Full(gs[i])
  }

  lemma BlocksForSnoc(bs: seq<Block>, gs: seq<seq<Token>>, b: Block, g: seq<Token>)
    requires BlocksFor(bs, gs) && StreamOk(bs + [b]) && BlockFor(b, g, Content(bs)) && OpenBefore(g)
    ensures BlocksFor(bs + [b], gs + [g])
  {
    hide StreamOk, Content, BlockFor, OpenBefore;
    var cs, hs := bs + [b], gs + [g];
    forall i | 0 <= i < |cs|
      ensures BlockFor(cs[i], hs[i], Content(cs[..i])) && OpenBefore(hs[i])
    {
      assert cs[..i] == bs[..i];
      if i == |bs| { assert bs[..i] == bs; }
    }
  }

  lemma AllFullSnoc(gs: seq<seq<Token>>, g: seq<Token>)
    requires AllFull(gs) && Full(g)
    ensures AllFull(gs + [g])
  {
    hide Full;
  }

  /**
   * The tokens are what lazy matching makes of the input, and the blocks are those for them; all but the last
   * are full, and the last one at most by the last byte.
   */
  ghost predicate Compressed(data: seq<byte>, bs: seq<Block>, gs: seq<seq<Token>>) {
    && Parses(data, Flat(gs)) && BlocksFor(bs, gs) && gs != [] && AllFull(gs[..|gs| - 1])
    && var last := gs[|gs| - 1];
       Full(last) ==> last[|last| - 1].Literal?
  }

  class Deflater {
    const m: Matcher
    const coder: BlockCoder
    ghost var blocks: seq<Block> // the blocks sent so far
    ghost var groups: seq<seq<Token>> // and the tokens of each
    ghost var points: seq<Point> // the searches that all tokens so far come from

    constructor (m: Matcher, coder: BlockCoder)
      ensures this.m == m && this.coder == coder && blocks == [] && groups == [] && points == []
    {
      this.m, this.coder, blocks, groups, points := m, coder, [], [], [];
    }

    /** All tokens so far. */
    ghost function Tokens(): seq<Token>
      reads this`groups, coder
    {
      Flat(groups) + coder.tokens
    }

    /** The tokens so far, after which `a` is next, and has to find more than `prev` bytes. */
    ghost predicate Running(a: int, prev: nat)
      reads this`groups, this`points, coder
    {
      a >= 0 && Run(m.input.data, points, Tokens(), a, prev)
    }

    /** The blocks so far are full, and each is the one for its tokens. */
    ghost predicate Grouped()
      reads this`blocks, this`groups
    {
      BlocksFor(blocks, groups) && AllFull(groups)
    }

    /** The window is not part of the coder. */
    ghost predicate Distinct() {
      && m.Shape() && m.window !in coder.Footprint() && m.prev !in coder.Footprint()
      && m !in coder.Footprint() && m.input !in coder.Footprint() && this !in coder.Footprint()
    }

    /** After `s0`, the blocks have been sent and nothing else. */
    ghost predicate Sent(s0: Bits)
      reads this`blocks, coder.Footprint(), coder, coder.bw, coder.bw.outbuf
    {
      coder.Coding() && StreamOk(blocks) && coder.bw.Stream() == s0 + EncBlocks(blocks, |s0|)
    }

    /** The bytes below `cur` are in the blocks or in the tokens. */
    ghost predicate Taken(cur: int)
      reads this`blocks, coder, m
    {
      Represents(blocks, coder.tokens, m.input.data, m.base + m.blockStart, cur)
    }

    /** The block is not full, and so has room for one more token at least. */
    ghost predicate Room()
      reads coder
    {
      |coder.tokens| < LIT_BUFSIZE - 1 && Open(coder.tokens)
    }

    /** Adds the token that the search `x` leads to. */
    method Tally(dist: nat, lc: nat, ghost x: Point, ghost a: nat, ghost prev: nat, ghost s0: Bits)
      returns (flush: bool)
      requires Distinct() && Sent(s0) && Room() && lc < 256 && dist <= MAX_DISTANCE
      requires m.strstart - m.blockStart == Bytes(coder.tokens) + 1 <= MAX_MATCH * LIT_BUFSIZE
      requires Running(x.a, x.prev)
      requires Sends(m.input.data, x, if dist == 0 then Literal(lc) else Match(lc + MIN_MATCH, dist), a, prev)
      modifies this`points, coder.Footprint()
      ensures Sent(s0)
      ensures coder.tokens == old(coder.tokens) + [if dist == 0 then Literal(lc) else Match(lc + MIN_MATCH, dist)]
      ensures OpenBefore(coder.tokens) && (flush <==> Full(coder.tokens)) && (!flush ==> Room())
      ensures |coder.tokens| < LIT_BUFSIZE && Running(a, prev)
    {
      hide Run, Sends, Flat;
      hide Bytes, StopsHere, Full, OpenBefore;
      hide BlockCoder.Layout, BlockCoder.Footprint, BlockCoder.Counted, BlockCoder.Buffered, Writer.Valid;
      hide EncBlocks, StreamOk;
      coder.OwnsAll();
      coder.TallyApart();
      ghost var ts := coder.tokens;
      flush := coder.CtTally(dist, lc, m.strstart, m.blockStart);
      OpenNext(ts, coder.tokens[|ts|]);
      FullIs(ts, coder.tokens[|ts|], m.strstart - m.blockStart);
      Assoc(Flat(groups), ts, [coder.tokens[|ts|]]);
      RunSnoc(m.input.data, points, Flat(groups) + ts, x, coder.tokens[|ts|], a, prev);
      points := points + [x];
    }

    lemma FullIs(ts: seq<Token>, t: Token, n: nat)
      requires TokensOk(ts + [t]) && n == Bytes(ts) + 1 < U32
      ensures U(n) == n && (Full(ts + [t]) <==> |ts + [t]| == LIT_BUFSIZE - 1 || StopsHere(ts + [t], U(n)))
    {
      hide StopsHere, Bytes;
      assert (ts + [t])[..|ts|] == ts;
    }

    lemma WindowSlice(i: nat, j: nat)
      requires m.Filled() && i <= j <= m.End()
      ensures m.window[i..j] == m.input.data[m.base + i..m.base + j]
    {
      var w, e := m.window[..], m.End();
      assert m.window[i..j] == w[i..j] && m.window[..e] == w[0..e];
      SliceOfSlice(w, 0, e, i, j);
      SliceOfSlice(m.input.data, m.base, m.input.pos, i, j);
    }

    lemma FlushFacts(cur: int)
      requires Taken(cur) && |coder.tokens| < LIT_BUFSIZE && m.Looking() && cur == m.base + m.strstart
      ensures U(m.strstart - m.blockStart) == m.strstart - m.blockStart == Bytes(coder.tokens)
      ensures m.blockStart < 0 ==> m.strstart - m.blockStart > MAX_DIST
      ensures m.blockStart <= m.strstart <= m.window.Length
      ensures m.blockStart >= 0 ==>
                Content(blocks) + m.window[m.blockStart..m.strstart] == Expand(Content(blocks), coder.tokens)
    {
      hide Content, Expand, StreamOk, Reachable, Matcher.Filled, Bytes;
      m.SkipFacts();
      assert m.Shape() by { FilledShape(); }
      if m.blockStart >= 0 {
        WindowSlice(m.blockStart, m.strstart);
        Joined(m.input.data, m.base + m.blockStart, cur);
      }
    }

    lemma FilledShape()
      requires m.Filled()
      ensures m.Shape()
    {}

    /** Sends the tokens as a block that ends at the current string. */
    method EndBlock(eof: bool, ghost out: seq<byte>) returns (ghost b: Block)
      requires Distinct() && coder.Coding() && m.Looking() && Taken(m.base + m.strstart) && out == Content(blocks)
      modifies coder.Footprint()
      ensures coder.Coding() && coder.tokens == [] && b.Ok(out) && b.Output(out) == Expand(out, old(coder.tokens))
      ensures BlockFor(b, old(coder.tokens), out)
      ensures coder.bw.Stream() == Ended(old(coder.bw.Stream()) + b.Encode(eof, |old(coder.bw.Stream())|, out), eof)
      ensures eof ==> coder.bw.biValid == 0
    {
      hide BlockCoder.Coding, BlockCoder.Footprint, Writer.Stream, Writer.Valid, StreamOk, Content, Block.Encode;
      hide Matcher.Looking, Reachable, Expand, Padding, Block.Ok, Block.Output, Emitted, Ended, NearShortest, Bytes;
      hide BlockFor;
      CodingFacts();
      ghost var ts := coder.tokens;
      FlushFacts(m.base + m.strstart);
      var buf := if m.blockStart >= 0 then Some(m.window[m.blockStart..m.strstart]) else None;
      ghost var dyn;
      b, dyn := coder.FlushBlock(buf, U(m.strstart - m.blockStart), eof, out);
      EmittedFor(b, dyn, buf, ts, out);
      CodingFacts();
    }

    lemma EmittedFor(b: Block, dyn: Block, buf: Option<seq<byte>>, ts: seq<Token>, out: seq<byte>)
      requires Emitted(b, dyn, buf, Bytes(ts), ts, out) && (buf.None? ==> Bytes(ts) > MAX_DIST)
      ensures BlockFor(b, ts, out) && b.Ok(out) && b.Output(out) == Expand(out, ts)
    {
      hide Bytes, Chosen, Expand, Block.Ok, Block.Output;
    }

    /** Ends the current block, and takes it into the list of blocks. */
    method Flush(eof: bool, ghost s0: Bits)
      requires Distinct() && Sent(s0) && m.Looking() && Taken(m.base + m.strstart)
      requires BlocksFor(blocks, groups) && OpenBefore(coder.tokens)
      modifies this, coder.Footprint()
      ensures coder.Coding() && coder.tokens == [] && BlocksFor(blocks, groups)
      ensures points == old(points) && groups == old(groups) + [old(coder.tokens)] && Tokens() == old(Tokens())
      ensures Represents(blocks, [], m.input.data, m.base + m.strstart, m.base + m.strstart)
      ensures !eof ==> Sent(s0)
      ensures eof ==>
                coder.bw.biValid == 0 && blocks != [] && coder.bw.Stream() == Ended(s0 + EncStream(blocks, |s0|), true)
    {
      hide BlockCoder.Coding, BlockCoder.Footprint, Writer.Stream, Writer.Valid, EncBlocks, EncStream, StreamOk;
      hide Content, Block.Encode, BlockFor, BlocksFor, OpenBefore, Flat, Bytes;
      hide Matcher.Looking, Reachable, Expand, Padding, Block.Ok, Block.Output, Represents;
      CodingFacts();
      ghost var cur, bs, ts, front := m.base + m.strstart, blocks, coder.tokens, EncBlocks(blocks, |s0|);
      ghost var b := EndBlock(eof, Content(bs));
      NextBlock(bs, ts, m.input.data, m.base + m.blockStart, cur, b);
      BlocksNext(bs, b, |s0|);
      BlocksForSnoc(bs, groups, b, ts);
      FlatSnoc(groups, ts);
      blocks, groups := bs + [b], groups + [ts];
      Assoc(s0, front, b.Encode(eof, |s0| + |front|, Content(bs)));
      CodingFacts();
    }

    lemma CodingFacts()
      requires coder.Coding()
      ensures coder.bw.Valid() && |coder.tokens| < LIT_BUFSIZE && coder in coder.Footprint()
      ensures coder.bw in coder.Footprint() && coder.bw.outbuf in coder.Footprint()
    {}

    // ---------- lazy matching ----------

    /** The best match for the current string, unless it is too far away to be worth it. */
    method BestMatch(hashHead: nat) returns (matchLength: nat)
      requires Enough(m) && m.Chained(m.strstart + 1) && m.prevLength >= 2
      requires hashHead == 0 || m.Candidate(hashHead, m.strstart)
      requires m.base + m.strstart + 2 < |m.input.data| ==>
                 Nearest(m.input.data, m.base, m.base + m.strstart, m.base + hashHead)
      modifies m`matchStart
      ensures Enough(m) && matchLength <= MAX_MATCH && (matchLength >= 2 || m.lookahead < 2)
      ensures matchLength >= MIN_MATCH ==> matchLength <= m.lookahead
      ensures matchLength > m.prevLength ==> m.RealMatch(m.matchStart, matchLength)
      ensures m.base + m.strstart < |m.input.data|
      ensures Found(m.input.data, m.base + m.strstart, m.prevLength, HitOf(m, matchLength))
    {
      hide Matcher.Chained, Matcher.Filled, Repeats, HashAt, Nearest, Found;
      hide Matcher.First, Matcher.Followed, Matcher.Exhausted, Matcher.AllBeaten, Matcher.Budget;
      StartIs(m);
      matchLength := MIN_MATCH - 1;
      if hashHead != 0 && m.prevLength < MAX_LAZY && m.strstart - hashHead <= MAX_DIST {
        ghost var tried, at;
        matchLength, tried, at := m.LongestMatch(hashHead);
        ghost var len := matchLength;
        if matchLength > m.lookahead {
          matchLength := m.lookahead;
        }
        if matchLength == MIN_MATCH && U(m.strstart - m.matchStart) > TOO_FAR {
          matchLength := matchLength - 1;
        }
        if m.lookahead < MIN_MATCH {
          NothingFound(m, hashHead);
        } else {
          SomethingFound(m, tried, at, hashHead, len, matchLength);
        }
      } else {
        NothingFound(m, hashHead);
      }
    }

    /** A match of `len` bytes starts one byte back, like the bytes from position `from` of the input on. */
    ghost predicate Pending(len: nat, from: int, matchStart: nat)
      reads m
    {
      Waiting(m.input.data, m.base + m.strstart - 1, len, from, m.lookahead, U(matchStart + m.base))
    }

    /** The strings below `s` are in the chains, and enough input is ahead. */
    ghost predicate Scanned(s: nat)
      reads m, m.prev, m.window, m.input
    {
      m.Looking() && m.Chained(s) && m.Rolled(s) && (m.lookahead >= MIN_LOOKAHEAD || m.eofile)
    }

    /** Sends the match at the previous string, and steps over it. */
    method TakePrevious(prevMatch: nat, ghost from: int, ghost x: Point, ghost s0: Bits)
      requires Distinct() && Sent(s0) && Room() && Grouped() && Scanned(m.strstart + 1) && m.strstart >= 1
      requires Taken(m.base + m.strstart - 1) && Pending(m.prevLength, from, prevMatch)
      requires x.a == m.base + m.strstart - 1 && x.hit == Some(Hit(m.prevLength, x.a - from))
      requires IsPoint(m.input.data, x)
      requires Running(x.a, x.prev) && x.a + 1 <= |m.input.data| && Found(m.input.data, x.a + 1, m.prevLength, None)
      modifies this, coder.Footprint(), m`strstart, m`lookahead, m`prevLength, m`insH, m`blockStart, m.prev
      ensures Sent(s0) && Room() && Grouped() && m.Looking() && m.Chained(m.strstart) && m.Rolled(m.strstart)
      ensures Taken(m.base + m.strstart) && Running(m.base + m.strstart, 2)
      ensures m.strstart == old(m.strstart) + old(m.prevLength) - 1
    {
      hide BlockCoder.Coding, Writer.Stream, EncBlocks, StreamOk, Represents, Repeats;
      hide Matcher.Chained, Matcher.Rolled, Matcher.Filled, Running, Found, IsPoint, Grouped, OpenBefore, Full, Open;
      ghost var bs, ts, d, a, len := blocks, coder.tokens, m.input.data, m.base + m.strstart - 1, m.prevLength;
      ghost var dist: nat := a - from;
      RealDistance(m.strstart, prevMatch, m.base, dist);
      TakeMatch(bs, ts, d, m.base + m.blockStart, a, len, dist);
      TokensTaken();
      SendsMatch(d, x, len, dist);
      var flush := Tally(U(m.strstart - 1 - prevMatch), m.prevLength - MIN_MATCH, x, x.a + len, 2, s0);
      CodingFacts();
      m.SkipMatch();
      EndIfFull(flush, x.a + len, 2, s0);
    }

    /** Ends the block if it is full. */
    method EndIfFull(flush: bool, ghost a: nat, ghost prev: nat, ghost s0: Bits)
      requires Distinct() && Sent(s0) && Grouped() && m.Looking() && Taken(m.base + m.strstart) && Running(a, prev)
      requires OpenBefore(coder.tokens) && (flush <==> Full(coder.tokens)) && (!flush ==> Room())
      modifies this, coder.Footprint(), m`blockStart
      ensures Sent(s0) && Room() && Grouped() && Taken(m.base + m.strstart) && m.Looking() && Running(a, prev)
    {
      hide BlockCoder.Coding, BlockCoder.Footprint, Writer.Stream, EncBlocks, StreamOk, Represents;
      hide Run, BlocksFor, AllFull, OpenBefore, Full, Open, Flat;
      if flush {
        GroupFull();
        NoneOpen();
        ghost var gs, ts := groups, coder.tokens;
        Flush(false, s0);
        AllFullSnoc(gs, ts);
        m.blockStart := m.strstart;
        CodingFacts();
      }
    }

    /** Sends the byte at the previous string. */
    method TakePreviousByte(ghost x: Point, ghost prev: nat, ghost s0: Bits)
      requires Distinct() && Sent(s0) && Room() && Grouped() && m.Looking() && m.strstart >= 1
      requires Taken(m.base + m.strstart - 1)
      requires x.a == m.base + m.strstart - 1 && IsPoint(m.input.data, x) && Running(x.a, x.prev)
      requires prev == if x.hit.Some? then x.hit.value.len else 2
      modifies this, coder.Footprint(), m`blockStart
      ensures Sent(s0) && Room() && Grouped() && Taken(m.base + m.strstart) && m.Looking()
      ensures Running(m.base + m.strstart, prev)
    {
      hide BlockCoder.Coding, BlockCoder.Footprint, Writer.Stream, EncBlocks, StreamOk, Represents;
      hide Running, Found, Grouped, OpenBefore, Full, Open;
      ghost var cur := m.base + m.strstart - 1;
      ByteAt();
      TakeLiteral(blocks, coder.tokens, m.input.data, m.base + m.blockStart, cur);
      TokensTaken();
      var flush := Tally(0, m.window[m.strstart - 1], x, x.a + 1, prev, s0);
      EndIfFull(flush, x.a + 1, prev, s0);
    }

    /** The bytes that the tokens stand for end one byte back. */
    lemma TokensTaken()
      requires Taken(m.base + m.strstart - 1) && |coder.tokens| < LIT_BUFSIZE
      ensures m.strstart - m.blockStart == Bytes(coder.tokens) + 1 <= MAX_MATCH * LIT_BUFSIZE
    {
      hide Bytes, Content, StreamOk, Expand, Reachable;
    }

    lemma GroupFull()
      requires Grouped()
      ensures BlocksFor(blocks, groups) && AllFull(groups)
    {}

    lemma SendsMatch(d: seq<byte>, x: Point, len: nat, dist: nat)
      requires IsPoint(d, x) && x.hit == Some(Hit(len, dist)) && x.a + 1 <= |d| && Found(d, x.a + 1, len, None)
      ensures Sends(d, x, Match(len, dist), x.a + len, 2)
    {
      hide Found, IsPoint;
    }

    lemma ByteAt()
      requires m.Looking() && m.strstart >= 1
      ensures 0 <= m.base + m.strstart - 1 < |m.input.data| && m.strstart - 1 < m.window.Length
      ensures m.window[m.strstart - 1] == m.input.data[m.base + m.strstart - 1]
    {
      assert m.window[..m.End()][m.strstart - 1] == m.window[m.strstart - 1];
    }

    /** Inserts the current string and looks for a match for it. */
    method Search(matchLength0: nat) returns (matchLength: nat)
      requires Scanned(m.strstart) && m.lookahead >= 1 && matchLength0 >= 2
      modifies m`insH, m`prevLength, m`matchStart, m.prev
      ensures Scanned(m.strstart + 1) && m.prevLength == matchLength0
      ensures matchLength <= MAX_MATCH && (matchLength >= 2 || m.lookahead < 2)
      ensures matchLength >= MIN_MATCH ==> matchLength <= m.lookahead
      ensures matchLength > matchLength0 ==> m.RealMatch(m.matchStart, matchLength)
      ensures m.base + m.strstart < |m.input.data|
      ensures Found(m.input.data, m.base + m.strstart, matchLength0, HitOf(m, matchLength))
    {
      hide Matcher.Chained, Matcher.Rolled, Matcher.Filled, Matcher.Candidate, Found, Nearest, HashAt, Repeats;
      m.SkipFacts();
      var hashHead := m.InsertString(m.strstart);
      m.prevLength := matchLength0;
      matchLength := BestMatch(hashHead);
    }

    /** The match that starts at `a`, if there is one. */
    ghost function PendingHit(matchLength: nat, from: int, a: int): Option<Hit> {
      if matchLength >= MIN_MATCH && from <= a then Some(Hit(matchLength, a - from)) else None
    }

    /** Before position `p`: the tokens so far, and the search that still waits for the next one, if any. */
    ghost predicate Paused(p: int, avail: bool, matchLength: nat, from: int, prev: nat)
      reads this`groups, this`points, coder
    {
      if avail then
        && p >= 1 && Running(p - 1, prev)
        && IsPoint(m.input.data, Point(p - 1, prev, PendingHit(matchLength, from, p - 1)))
      else Running(p, 2) && matchLength == 2
    }

    /** What holds whenever the loop of the compressor starts over. */
    ghost predicate Between(avail: bool, matchLength: nat, from: int, prev: nat, s0: Bits)
      reads this, coder.Footprint(), coder, coder.bw, coder.bw.outbuf, m, m.prev, m.window, m.input
    {
      && Scanned(m.strstart) && Sent(s0) && Room() && Grouped() && (avail ==> m.strstart >= 1)
      && Taken(m.base + m.strstart - if avail then 1 else 0)
      && matchLength <= MAX_MATCH && (matchLength >= 2 || m.lookahead == 0)
      && (matchLength >= MIN_MATCH ==> avail && Pending(matchLength, from, m.matchStart))
      && Paused(m.base + m.strstart, avail, matchLength, from, prev)
    }

    /** Steps over the current byte, which stays to be sent. */
    method StepOver(matchLength: nat, ghost s0: Bits) returns (ghost from: int)
      requires Distinct() && Scanned(m.strstart + 1) && Sent(s0) && Room() && Taken(m.base + m.strstart)
      requires m.lookahead >= 1 && matchLength <= MAX_MATCH && (matchLength >= 2 || m.lookahead < 2)
      requires matchLength >= MIN_MATCH ==> matchLength <= m.lookahead && m.RealMatch(m.matchStart, matchLength)
      modifies m`strstart, m`lookahead
      ensures m.Looking() && m.Chained(m.strstart) && m.Rolled(m.strstart) && Sent(s0) && Room() && m.strstart >= 1
      ensures Taken(m.base + m.strstart - 1) && m.strstart == old(m.strstart) + 1
      ensures matchLength >= 2 || (m.lookahead == 0 && m.eofile)
      ensures matchLength >= MIN_MATCH ==> Pending(matchLength, from, m.matchStart)
      ensures from == m.base + m.matchStart
    {
      hide BlockCoder.Coding, Writer.Stream, EncBlocks, StreamOk, Represents, Repeats, Matcher.Chained;
      hide Matcher.Rolled, Matcher.Filled;
      CodingFacts();
      from := m.base + m.matchStart;
      m.strstart := m.strstart + 1;
      m.lookahead := m.lookahead - 1;
    }

    /** Reads more input; what was found stays what it is. */
    method ReadOn(avail: bool, matchLength: nat, ghost from: int, ghost prev: nat, ghost s0: Bits)
      requires Distinct() && m.Looking() && m.Chained(m.strstart) && m.Rolled(m.strstart) && Sent(s0) && Room()
      requires (avail ==> m.strstart >= 1) && Taken(m.base + m.strstart - if avail then 1 else 0)
      requires matchLength <= MAX_MATCH && (matchLength >= 2 || (m.lookahead == 0 && m.eofile))
      requires matchLength >= MIN_MATCH ==> avail && Pending(matchLength, from, m.matchStart)
      requires Grouped() && Paused(m.base + m.strstart, avail, matchLength, from, prev)
      modifies m`strstart, m`matchStart, m`lookahead, m`eofile, m`blockStart, m`base, m.window, m.prev, m.input
      ensures Between(avail, matchLength, from, prev, s0) && m.base + m.strstart == old(m.base + m.strstart)
    {
      hide BlockCoder.Coding, Writer.Stream, EncBlocks, StreamOk, Represents, Matcher.Chained, Matcher.Rolled;
      hide Matcher.Filled, Waiting, Paused, Grouped, Open;
      CodingFacts();
      ghost var d, a, ahead, u := m.input.data, m.base + m.strstart - 1, m.lookahead, U(m.matchStart + m.base);
      m.FillWindowIfNeeded();
      WaitingStill(d, a, matchLength, from, ahead, m.lookahead, u);
    }

    /** The search at the current string is done; before it, what is sent and what waits has not changed. */
    ghost predicate JustSearched(avail: bool, matchLength: nat, prevMatch: nat, from: int, prev: nat, s0: Bits)
      reads this, coder.Footprint(), coder, coder.bw, coder.bw.outbuf, m, m.prev, m.window, m.input
    {
      && Scanned(m.strstart + 1) && Sent(s0) && Room() && Grouped() && m.lookahead >= 1
      && (avail ==> m.strstart >= 1) && Taken(m.base + m.strstart - if avail then 1 else 0)
      && 2 <= m.prevLength <= MAX_MATCH
      && (m.prevLength >= MIN_MATCH ==> avail && Pending(m.prevLength, from, prevMatch))
      && Paused(m.base + m.strstart, avail, m.prevLength, from, prev) && SearchDone(matchLength)
    }

    /** What the search at the current string found. */
    ghost predicate SearchDone(matchLength: nat)
      reads m
    {
      && matchLength <= MAX_MATCH && (matchLength >= 2 || m.lookahead < 2)
      && (matchLength >= MIN_MATCH ==> matchLength <= m.lookahead)
      && (matchLength > m.prevLength ==> m.RealMatch(m.matchStart, matchLength))
      && m.base + m.strstart < |m.input.data|
      && Found(m.input.data, m.base + m.strstart, m.prevLength, HitOf(m, matchLength))
    }

    lemma PendingFrom(len: nat, from: int, prevMatch: nat)
      requires Pending(len, from, prevMatch)
      ensures 0 <= from < m.base + m.strstart - 1
    {}

    /** The search before position `p`. */
    ghost function Previous(p: int, matchLength: nat, from: int, prev: nat): Point
      requires p >= 1
    {
      Point(p - 1, prev, PendingHit(matchLength, from, p - 1))
    }

    /** Sends the previous byte, if one is waiting, and lets the current one wait. */
    method SendByte(avail0: bool, matchLength: nat, prevMatch: nat, ghost from0: int, ghost prev0: nat,
                    ghost s0: Bits)
      returns (ghost from: int)
      requires Distinct() && JustSearched(avail0, matchLength, prevMatch, from0, prev0, s0)
      requires m.prevLength < MIN_MATCH || m.prevLength < matchLength
      modifies this, coder.Footprint(), m`strstart, m`lookahead, m`blockStart
      ensures m.Looking() && m.Chained(m.strstart) && m.Rolled(m.strstart) && Sent(s0) && Room() && Grouped()
      ensures m.strstart == old(m.strstart) + 1 && Taken(m.base + m.strstart - 1) && matchLength <= MAX_MATCH
      ensures matchLength >= 2 || (m.lookahead == 0 && m.eofile)
      ensures matchLength >= MIN_MATCH ==> Pending(matchLength, from, m.matchStart)
      ensures Paused(m.base + m.strstart, true, matchLength, from, m.prevLength)
    {
      hide BlockCoder.Coding, Writer.Stream, EncBlocks, StreamOk, Represents, Repeats, Matcher.Chained;
      hide Matcher.Rolled, Matcher.Filled, Paused, Grouped, Open, Found, IsPoint, Running, Waiting;
      CodingFacts();
      ghost var p := m.base + m.strstart;
      ghost var hit := HitOf(m, matchLength);
      PausedAt(p, avail0, m.prevLength, from0, prev0);
      if avail0 {
        if m.prevLength >= MIN_MATCH { PendingFrom(m.prevLength, from0, prevMatch); }
        TakePreviousByte(Previous(p, m.prevLength, from0, prev0), m.prevLength, s0);
      }
      from := StepOver(matchLength, s0);
      NowPaused(p, matchLength, from, m.prevLength, hit);
    }

    /** Sends the previous match, after which the search starts over. */
    method SendMatch(avail0: bool, matchLength: nat, prevMatch: nat, ghost from0: int, ghost prev0: nat,
                     ghost s0: Bits)
      requires Distinct() && JustSearched(avail0, matchLength, prevMatch, from0, prev0, s0)
      requires MIN_MATCH <= m.prevLength && matchLength <= m.prevLength
      modifies this, coder.Footprint(), m`strstart, m`lookahead, m`prevLength, m`insH, m`blockStart, m.prev
      ensures m.Looking() && m.Chained(m.strstart) && m.Rolled(m.strstart) && Sent(s0) && Room() && Grouped()
      ensures m.strstart == old(m.strstart) + old(m.prevLength) - 1 && Taken(m.base + m.strstart)
      ensures Paused(m.base + m.strstart, false, 2, 0, 2)
    {
      hide BlockCoder.Coding, Writer.Stream, EncBlocks, StreamOk, Represents, Repeats, Matcher.Chained;
      hide Matcher.Rolled, Matcher.Filled, Paused, Grouped, Open, Found, IsPoint, Running, Waiting;
      PausedAt(m.base + m.strstart, avail0, m.prevLength, from0, prev0);
      PendingFrom(m.prevLength, from0, prevMatch);
      TakePrevious(prevMatch, from0, Previous(m.base + m.strstart, m.prevLength, from0, prev0), s0);
      NotPaused(0, 2);
    }

    /** The search of one round. */
    method SearchNext(avail0: bool, matchLength0: nat, ghost from0: int, ghost prev0: nat, ghost s0: Bits)
      returns (matchLength: nat)
      requires Distinct() && Between(avail0, matchLength0, from0, prev0, s0) && m.lookahead != 0
      modifies m`insH, m`prevLength, m`matchStart, m.prev
      ensures JustSearched(avail0, matchLength, old(m.matchStart), from0, prev0, s0) && m.prevLength == matchLength0
    {
      hide BlockCoder.Coding, Writer.Stream, EncBlocks, StreamOk, Represents, Repeats, Matcher.Chained;
      hide Matcher.Rolled, Matcher.Filled, Paused, Grouped, Open, Found, IsPoint, Running, Waiting, Matcher.RealMatch;
      CodingFacts();
      matchLength := Search(matchLength0);
    }

    /** One round of the loop: finds a match, and sends the previous one, or the previous byte, or nothing yet. */
    method Step(avail0: bool, matchLength0: nat, ghost from0: int, ghost prev0: nat, ghost s0: Bits)
      returns (avail: bool, matchLength: nat, ghost from: int, ghost prev: nat)
      requires Distinct() && Between(avail0, matchLength0, from0, prev0, s0) && m.lookahead != 0
      modifies this, coder.Footprint(), m, m.window, m.prev, m.input
      ensures Between(avail, matchLength, from, prev, s0) && m.base + m.strstart > old(m.base + m.strstart)
    {
      hide BlockCoder.Coding, Writer.Stream, EncBlocks, StreamOk, Represents, Repeats, Matcher.Chained;
      hide Matcher.Rolled, Matcher.Filled, Paused, Grouped, Open, Found, IsPoint, Running, Between, JustSearched;
      hide Matcher.Looking, Waiting;
      var prevMatch := m.matchStart;
      matchLength := SearchNext(avail0, matchLength0, from0, prev0, s0);
      if m.prevLength >= MIN_MATCH && matchLength <= m.prevLength {
        SendMatch(avail0, matchLength, prevMatch, from0, prev0, s0);
        avail, from, prev := false, 0, 2;
        matchLength := MIN_MATCH - 1;
      } else {
        prev := m.prevLength;
        from := SendByte(avail0, matchLength, prevMatch, from0, prev0, s0);
        avail := true;
      }
      ReadOn(avail, matchLength, from, prev, s0);
    }

    lemma PausedAt(p: nat, avail: bool, matchLength: nat, from: int, prev: nat)
      requires Paused(p, avail, matchLength, from, prev)
      ensures avail ==> p >= 1 && Running(p - 1, prev)
      ensures avail ==> IsPoint(m.input.data, Point(p - 1, prev, PendingHit(matchLength, from, p - 1)))
      ensures !avail ==> Running(p, 2) && matchLength == 2
    {}

    lemma NotPaused(from: int, prev: nat)
      requires Running(m.base + m.strstart, 2)
      ensures Paused(m.base + m.strstart, false, 2, from, prev)
    {}

    /** The search at `p` waits for the next one. */
    lemma NowPaused(p: nat, matchLength: nat, from: int, prev: nat, hit: Option<Hit>)
      requires p < |m.input.data| && Running(p, prev) && Found(m.input.data, p, prev, hit) && prev >= 2
      requires hit == PendingHit(matchLength, from, p) && (prev > 2 ==> hit.Some?)
      ensures Paused(p + 1, true, matchLength, from, prev)
    {
      hide Found, Running;
    }

    /** Compresses all of the input, and closes the stream. */
    method Deflate()
      requires Distinct() && coder.Coding() && coder.tokens == [] && blocks == [] && groups == [] && points == []
      requires Scanned(m.strstart) && m.base + m.strstart == 0 && m.base + m.blockStart == 0
      modifies this, coder.Footprint(), m, m.window, m.prev, m.input
      ensures coder.Coding() && coder.bw.biValid == 0
      ensures Decodes(old(coder.bw.Stream()), coder.bw.Stream(), m.input.data)
      ensures Compressed(m.input.data, blocks, groups)
      ensures coder.bw.Stream() == Ended(old(coder.bw.Stream()) + EncStream(blocks, |old(coder.bw.Stream())|), true)
    {
      hide BlockCoder.Coding, Writer.Stream, EncBlocks, EncStream, StreamOk, Represents, Decodes, Between, Compressed;
      hide Matcher.Chained, Matcher.Rolled, Matcher.Filled, Grouped, Open, Ended;
      CodingFacts();
      ghost var s0 := coder.bw.Stream();
      NoBlocks(m.input.data);
      NothingSent(s0);
      NoneOpen();
      NoGroups();
      assert Sent(s0);
      var matchLength: nat, avail := MIN_MATCH - 1, false;
      ghost var from, prev := 0, 2;
      Starting(from, prev, s0);
      while m.lookahead != 0
        invariant Between(avail, matchLength, from, prev, s0)
        decreases |m.input.data| - (m.base + m.strstart)
      {
        BetweenFacts(avail, matchLength, from, prev, s0);
        avail, matchLength, from, prev := Step(avail, matchLength, from, prev, s0);
        BetweenFacts(avail, matchLength, from, prev, s0);
      }
      Finish(avail, matchLength, from, prev, s0);
    }

    lemma NoGroups()
      requires coder.tokens == [] && blocks == [] && groups == [] && points == []
      ensures Grouped() && Running(0, 2)
    {
      assert Flat([]) + [] == [];
    }

    lemma Starting(from: int, prev: nat, s0: Bits)
      requires Scanned(m.strstart) && Sent(s0) && Room() && Grouped() && Taken(m.base + m.strstart)
      requires Running(m.base + m.strstart, 2)
      ensures Between(false, MIN_MATCH - 1, from, prev, s0)
    {
      hide Running, Grouped, Open, BlockCoder.Coding, Represents, Matcher.Looking;
    }

    lemma BetweenFacts(avail: bool, matchLength: nat, from: int, prev: nat, s0: Bits)
      requires Between(avail, matchLength, from, prev, s0)
      ensures m.base + m.strstart <= |m.input.data|
    {
      m.SkipFacts();
    }

    /** Sends what is still waiting, and the last block. */
    method Finish(avail: bool, matchLength: nat, ghost from: int, ghost prev: nat, ghost s0: Bits)
      requires Distinct() && Between(avail, matchLength, from, prev, s0) && m.lookahead == 0
      modifies this, coder.Footprint()
      ensures coder.Coding() && coder.bw.biValid == 0 && Decodes(s0, coder.bw.Stream(), m.input.data)
      ensures Compressed(m.input.data, blocks, groups)
      ensures coder.bw.Stream() == Ended(s0 + EncStream(blocks, |s0|), true)
    {
      hide BlockCoder.Coding, BlockCoder.Footprint, Writer.Stream, EncBlocks, EncStream, StreamOk, Represents;
      hide Decodes, Pending, Run, Flat, OpenBefore, Full, BlocksFor, AllFull, Compressed, Paused;
      hide Matcher.Chained, Matcher.Rolled, Ended;
      ghost var p := m.base + m.strstart;
      AllRead();
      PausedAt(p, avail, matchLength, from, prev);
      if avail {
        LastByte(Point(p - 1, prev, PendingHit(matchLength, from, p - 1)), s0);
      }
      ghost var gs, ts := groups, coder.tokens;
      Flush(true, s0);
      AllDecodes(s0, blocks, m.input.data);
      AllCompressed(gs, ts);
    }

    lemma AllRead()
      requires m.Looking() && m.lookahead == 0 && (m.lookahead >= MIN_LOOKAHEAD || m.eofile)
      ensures m.base + m.strstart == |m.input.data|
    {}

    lemma AllCompressed(gs: seq<seq<Token>>, ts: seq<Token>)
      requires BlocksFor(blocks, groups) && groups == gs + [ts] && AllFull(gs) && coder.tokens == []
      requires Running(|m.input.data|, 2) && (Full(ts) ==> ts[|ts| - 1].Literal?)
      ensures Compressed(m.input.data, blocks, groups)
    {
      hide BlocksFor, AllFull, Flat, Run, Full;
      assert Flat(groups) + [] == Flat(groups);
      assert groups[..|gs|] == gs;
    }

    /** Sends the last byte, when it is still waiting. */
    method LastByte(ghost x: Point, ghost s0: Bits)
      requires Distinct() && Sent(s0) && Room() && m.Looking() && m.strstart >= 1
      requires Taken(m.base + m.strstart - 1) && m.base + m.strstart == |m.input.data|
      requires x.a == |m.input.data| - 1 && IsPoint(m.input.data, x) && Running(x.a, x.prev)
      requires x.hit.Some? ==> x.hit.value.len >= MIN_MATCH
      modifies this`points, coder.Footprint()
      ensures Sent(s0) && Taken(m.base + m.strstart) && Running(|m.input.data|, 2)
      ensures OpenBefore(coder.tokens) && coder.tokens != [] && coder.tokens[|coder.tokens| - 1].Literal?
    {
      hide BlockCoder.Coding, BlockCoder.Footprint, Writer.Stream, EncBlocks, StreamOk, Represents;
      hide Running, OpenBefore, Found;
      ByteAt();
      if x.hit.Some? { HitFacts(m.input.data, x.a, x.prev, x.hit.value); }
      TakeLiteral(blocks, coder.tokens, m.input.data, m.base + m.blockStart, m.base + m.strstart - 1);
      TokensTaken();
      var _ := Tally(0, m.window[m.strstart - 1], x, x.a + 1, 2, s0);
    }
  }

  lemma NothingSent(s0: Bits)
    ensures StreamOk([]) && s0 + EncBlocks([], |s0|) == s0
  {}

  /** What follows `s0` in `s` is a complete stream, in whole bytes, that inflates to `data`. */
  ghost predicate Decodes(s0: Bits, s: Bits, data: seq<byte>) {
    && s0 <= s && |s| % 8 == 0
    && Inflate(s, |s0|, []).Some? && Inflate(s, |s0|, []).value.0 == data
    && |s| - 8 < Inflate(s, |s0|, []).value.1 <= |s|
  }

  lemma AllDecodes(s0: Bits, bs: seq<Block>, data: seq<byte>)
    requires bs != [] && Represents(bs, [], data, |data|, |data|)
    ensures Decodes(s0, Ended(s0 + EncStream(bs, |s0|), true), data)
  {
    hide Inflate, EncStream, Content, StreamOk, Lsb;
    var enc := EncStream(bs, |s0|);
    var s := Ended(s0 + enc, true);
    PadAligns(|s0 + enc|);
    assert s == s0 + enc + Padding(|s0 + enc|);
    Middle(s0, enc, Padding(|s0 + enc|));
    assert data[..|data|] == data;
    InflateStream(s, |s0|, bs);
  }

  lemma Middle(a: Bits, b: Bits, c: Bits)
    ensures At(a + b + c, |a|, b) && a <= a + b + c
  {}

  /** Everything set up, with the first input in the window. */
  method NewDeflater(data: seq<byte>, splits: seq<nat>) returns (d: Deflater)
    ensures fresh(d) && fresh(d.coder.Footprint()) && fresh(d.m) && fresh(d.m.window) && fresh(d.m.prev)
    ensures fresh(d.m.input)
    ensures d.Distinct() && d.coder.Coding() && d.coder.tokens == [] && d.m.input.data == data
    ensures d.blocks == [] && d.groups == [] && d.points == []
    ensures d.Scanned(d.m.strstart) && d.m.base + d.m.strstart == 0 && d.m.base + d.m.blockStart == 0
    ensures d.coder.bw.Valid() && d.coder.bw.Stream() == []
  {
    hide BlockCoder.Coding, BlockCoder.Layout, Matcher.Looking, Matcher.Chained, Matcher.Rolled, Writer.Stream;
    hide Writer.Valid;
    var coder := EmptyCoder();
    var m := FilledMatcher(data, splits);
    d := new Deflater(m, coder);
  }

  /** A coder with an empty block. */
  method EmptyCoder() returns (coder: BlockCoder)
    ensures fresh(coder) && fresh(coder.Footprint()) && coder in coder.Footprint() && coder.bw in coder.Footprint()
    ensures coder.Coding() && coder.tokens == [] && coder.bw.Valid() && coder.bw.Stream() == []
  {
    hide BlockCoder.Layout, BlockCoder.Counted, BlockCoder.Buffered, CodeTables.Valid, Writer.Stream, Writer.Valid;
    coder := NewCoder();
    coder.OwnsAll();
    coder.TallyApart();
    coder.InitBlock();
  }

  /** A window that holds the first of the input. */
  method FilledMatcher(data: seq<byte>, splits: seq<nat>) returns (m: Matcher)
    ensures fresh(m) && fresh(m.window) && fresh(m.prev) && fresh(m.input) && m.Shape() && m.input.data == data
    ensures m.Looking() && m.Chained(m.strstart) && m.Rolled(m.strstart) && (m.lookahead >= MIN_LOOKAHEAD || m.eofile)
    ensures m.base + m.strstart == 0 && m.base + m.blockStart == 0
  {
    hide Matcher.Chained, Matcher.Rolled, Matcher.Filled;
    var input := new Input(data, splits);
    m := new Matcher(input);
    m.LmInit();
  }

  /** Compresses `data`, however the reads are split, to bytes that decode to it. */
  method Compress(data: seq<byte>, splits: seq<nat>)
    returns (out: seq<byte>, ghost bs: seq<Block>, ghost gs: seq<seq<Token>>)
    ensures Decodes([], ByteBits(out), data)
    ensures Compressed(data, bs, gs) && StreamOk(bs) && bs != [] && ByteBits(out) == Ended(EncStream(bs, 0), true)
  {
    hide Decodes, BlockCoder.Coding, BlockCoder.Footprint, Deflater.Scanned, Writer.Stream, ByteBits, EncStream;
    hide Ended;
    hide Compressed;
    var d := NewDeflater(data, splits);
    d.Deflate();
    d.CodingFacts();
    WholeBytes(d.coder.bw);
    d.coder.bw.FlushOutbuf();
    out, bs, gs := d.coder.bw.written, d.blocks, d.groups;
    CompressedBlocks(data, bs, gs);
    assert [] + EncStream(bs, 0) == EncStream(bs, 0);
    assert d.coder.bw.Bytes() == out;
  }

  /** What the tokens are if the input is one byte over and over. */
  lemma OneByteInput(data: seq<byte>, c: byte, bs: seq<Block>, gs: seq<seq<Token>>)
    requires AllOf(data, c) && Compressed(data, bs, gs)
    ensures Flat(gs) == OneByteTokens(c, |data|, 0)
  {
    hide Parses;
    RunsOfOneByte(data, c, Flat(gs));
  }

  lemma CompressedBlocks(data: seq<byte>, bs: seq<Block>, gs: seq<seq<Token>>)
    requires Compressed(data, bs, gs)
    ensures bs != [] && StreamOk(bs)
  {}

  lemma WholeBytes(bw: Writer)
    requires bw.Valid() && bw.biValid == 0
    ensures bw.Stream() == ByteBits(bw.Bytes())
  {
    NoBits(bw.biBuf, 0);
  }
}
