/** Which kind of block is sent for some tokens, and how far it is from the shortest one. */
module BlockChoice {
  import opened Wrappers
  import opened Bits
  import opened Blocks
  import opened BlockCosts

  /** The bytes of a block whose body has `bits` bits, with its three header bits. */
  function BlockBytes(bits: nat): nat {
    (bits + 3 + 7) / 8
  }

  /**
   * The code's choice: by whole bytes, a stored block counted as its bytes and four more; fixed
   * codes before dynamic ones.
   */
  function Chosen(buf: Option<seq<byte>>, storedLen: nat, ts: seq<Token>, dyn: Block, out: seq<byte>): Block
    requires dyn.Dynamic? && dyn.Ok(out) && Fixed(ts).Ok(out)
  {
    Pick(buf, storedLen, BlockBytes(|Fixed(ts).Body(0, out)|), BlockBytes(|dyn.Body(0, out)|), ts, dyn)
  }

  function Pick(buf: Option<seq<byte>>, storedLen: nat, fixedBytes: nat, dynBytes: nat, ts: seq<Token>,
                dyn: Block): Block {
    if buf.Some? && storedLen + 4 <= fixedBytes && storedLen + 4 <= dynBytes then Stored(buf.value)
    else if fixedBytes <= dynBytes then Fixed(ts)
    else dyn
  }

  /**
   * Block `b` stands for the tokens and is the one that the code chooses; `dyn` is the dynamic block
   * it compares, whose codes are Huffman codes for the tokens' frequencies.
   */
  ghost predicate Emitted(b: Block, dyn: Block, buf: Option<seq<byte>>, storedLen: nat, ts: seq<Token>,
                          out: seq<byte>) {
    && b.Ok(out) && b.Output(out) == Expand(out, ts)
    && dyn.Dynamic? && dyn.ts == ts && dyn.Ok(out) && HuffmanBlock(dyn) && Fixed(ts).Ok(out)
    && b == Chosen(buf, storedLen, ts, dyn, out)
  }

  // ---------- the size of a block as it is sent ----------

  /** The bits of a block that starts at bit position `pos`. */
  function Size(b: Block, eof: bool, pos: nat, out: seq<byte>): nat
    requires b.Ok(out)
  {
    |b.Encode(eof, pos, out)|
  }

  lemma StoredSize(b: Block, eof: bool, pos: nat, out: seq<byte>)
    requires b.Ok(out) && b.Stored?
    ensures Size(b, eof, pos, out) == 35 + PadCount(pos + 3) + 8 * |b.data| && PadCount(pos + 3) < 8
  {
    hide Lsb, ByteBits, PadCount, Block.Body;
    StoredParts(pos + 3, out, b);
    PadAligns(pos + 3);
  }

  lemma CodedSize(b: Block, eof: bool, pos: nat, out: seq<byte>)
    requires b.Ok(out) && !b.Stored?
    ensures Size(b, eof, pos, out) == 3 + |b.Body(0, out)|
  {
    hide Lsb, EncTrees, EncData;
  }

  // ---------- compared with the other blocks ----------

  /** The blocks that could be sent; a stored one only if its length fits into 16 bits. */
  ghost predicate CanSend(c: Block, dyn: Block, buf: Option<seq<byte>>, ts: seq<Token>, out: seq<byte>) {
    c.Ok(out) && (c == Fixed(ts) || c == dyn || (buf.Some? && c == Stored(buf.value)))
  }

  /** How many bits `b` may be longer than `c`; a negative number says how many it is shorter at least. */
  function Margin(b: Block, c: Block): int {
    if c.Stored? then -11 else if b.Stored? then 17 else if b.Fixed? then 7 else -1
  }

  /** What is sent is shorter than every other block, or hardly longer. */
  ghost predicate NearShortest(b: Block, dyn: Block, buf: Option<seq<byte>>, ts: seq<Token>, eof: bool, pos: nat,
                               out: seq<byte>) {
    && CanSend(b, dyn, buf, ts, out)
    && forall c :: CanSend(c, dyn, buf, ts, out) && c != b ==>
         Size(b, eof, pos, out) <= Size(c, eof, pos, out) + Margin(b, c)
  }

  ghost predicate Shortest(b: Block, dyn: Block, buf: Option<seq<byte>>, ts: seq<Token>, eof: bool, pos: nat,
                           out: seq<byte>) {
    && CanSend(b, dyn, buf, ts, out)
    && forall c :: CanSend(c, dyn, buf, ts, out) ==> Size(b, eof, pos, out) <= Size(c, eof, pos, out)
  }

  /** With its padding and lengths, a stored block is not longer than the bodies of the other two. */
  ghost predicate StoredPays(storedLen: nat, dyn: Block, ts: seq<Token>, pos: nat, out: seq<byte>)
    requires dyn.Ok(out) && Fixed(ts).Ok(out)
  {
    && PadCount(pos + 3) + 32 + 8 * storedLen <= |Fixed(ts).Body(0, out)|
    && PadCount(pos + 3) + 32 + 8 * storedLen <= |dyn.Body(0, out)|
  }

  /** Within the margins the block sent is the shortest. */
  lemma ChosenIsNear(b: Block, dyn: Block, buf: Option<seq<byte>>, storedLen: nat, ts: seq<Token>, eof: bool,
                     pos: nat,
                     out: seq<byte>)
    requires Emitted(b, dyn, buf, storedLen, ts, out) && (buf.Some? ==> |buf.value| == storedLen)
    ensures NearShortest(b, dyn, buf, ts, eof, pos, out)
  {
    hide Size, Block.Body, Block.Ok, HuffmanBlock, Block.Output, Expand, PadCount;
    var fixed := Fixed(ts);
    CodedSize(fixed, eof, pos, out);
    CodedSize(dyn, eof, pos, out);
    forall c | CanSend(c, dyn, buf, ts, out) && c != b
      ensures Size(b, eof, pos, out) <= Size(c, eof, pos, out) + Margin(b, c)
    {
      if b.Stored? { StoredSize(b, eof, pos, out); }
      if c.Stored? { StoredSize(c, eof, pos, out); }
    }
  }

  /** Exactly when the block sent is the shortest. */
  lemma ShortestExactly(b: Block, dyn: Block, buf: Option<seq<byte>>, storedLen: nat, ts: seq<Token>, eof: bool,
                        pos: nat, out: seq<byte>)
    requires Emitted(b, dyn, buf, storedLen, ts, out) && (buf.Some? ==> |buf.value| == storedLen)
    ensures Shortest(b, dyn, buf, ts, eof, pos, out) <==>
              match b
              case Stored(_) => StoredPays(storedLen, dyn, ts, pos, out)
              case Fixed(_) => |Fixed(ts).Body(0, out)| <= |dyn.Body(0, out)|
              case Dynamic(_, _, _, _, _) => true
  {
    hide Size, Block.Body, Block.Ok, HuffmanBlock, Block.Output, Expand, PadCount;
    var fixed := Fixed(ts);
    ChosenIsNear(b, dyn, buf, storedLen, ts, eof, pos, out);
    CodedSize(fixed, eof, pos, out);
    CodedSize(dyn, eof, pos, out);
    assert CanSend(fixed, dyn, buf, ts, out) && CanSend(dyn, dyn, buf, ts, out);
    if b.Stored? { StoredSize(b, eof, pos, out); }
  }
}
