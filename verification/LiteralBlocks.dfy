/** Blocks of literals only: their frequencies, their fixed codes, and how the coder comes to hold them. */
module LiteralBlocks {
  import opened Bits
  import opened Canonical
  import opened Rfc1951
  import opened Blocks
  import opened CodeLengths
  import opened Frequencies
  import opened TokenBuffer
  import opened BitWriter
  import opened Tables
  import opened BlockCoding

  function Literals(data: seq<byte>): (ts: seq<Token>)
    ensures |ts| == |data| && TokensOk(ts) && forall i :: 0 <= i < |ts| ==> ts[i] == Literal(data[i])
  {
    seq(|data|, i requires 0 <= i < |data| => Literal(data[i]))
  }

  /** How often `x` occurs. */
  function Occurs(data: seq<byte>, x: nat): nat {
    if data == [] then 0 else Occurs(data[..|data| - 1], x) + if data[|data| - 1] == x then 1 else 0
  }

  lemma LiteralsSnoc(data: seq<byte>, b: byte)
    ensures Literals(data + [b]) == Literals(data) + [Literal(b)]
  {}

  /** The literal frequencies are the occurrences, and one end code; no distance occurs. */
  lemma {:induction false} LiteralFreqs(data: seq<byte>)
    ensures forall x :: 0 <= x < L_CODES ==>
              LFreqs(Literals(data))[x] == Occurs(data, x) + if x == END_BLOCK then 1 else 0
    ensures forall c :: 0 <= c < D_CODES ==> DFreqs(Literals(data))[c] == 0
  {
    hide LFreqs, DFreqs;
    if data == [] {
      NoTokenFreqs();
    } else {
      var front, b := data[..|data| - 1], data[|data| - 1];
      assert data == front + [b];
      LiteralFreqs(front);
      LiteralsSnoc(front, b);
      LFreqsNext(Literals(front), Literal(b));
    }
  }

  lemma NoTokenFreqs()
    ensures Literals([]) == []
    ensures forall x :: 0 <= x < L_CODES ==> LFreqs([])[x] == if x == END_BLOCK then 1 else 0
    ensures forall c :: 0 <= c < D_CODES ==> DFreqs([])[c] == 0
  {}

  /** The literals stand for their bytes. */
  lemma {:induction false} LiteralsExpand(out: seq<byte>, data: seq<byte>)
    ensures Reachable(out, Literals(data)) && Expand(out, Literals(data)) == out + data
  {
    if data == [] {
      assert Literals(data) == [];
    } else {
      var front, b := data[..|data| - 1], data[|data| - 1];
      assert data == front + [b];
      LiteralsExpand(out, front);
      LiteralsSnoc(front, b);
      var ts := Literals(data);
      assert ts[..|ts| - 1] == Literals(front);
    }
  }

  /** With the fixed codes, bytes from 144 on take nine bits each. */
  lemma {:induction false} FixedHigh(data: seq<byte>)
    requires forall i :: 0 <= i < |data| ==> data[i] >= 144
    ensures AllCodable(FixedLL(), FixedD(), Literals(data))
    ensures |EncTokens(FixedLL(), FixedD(), Literals(data))| == 9 * |data|
  {
    hide FixedLL, FixedD, EncToken, Code, Codable;
    FixedCodable(Literals(data));
    if data != [] {
      var front, b := data[..|data| - 1], data[|data| - 1];
      var ts := Literals(data);
      assert ts[..|ts| - 1] == Literals(front);
      FixedHigh(front);
      assert Codable(FixedLL(), FixedD(), ts[|ts| - 1]);
      FixedLiteral(b);
    }
  }

  lemma FixedLiteral(b: byte)
    requires b >= 144 && Codable(FixedLL(), FixedD(), Literal(b))
    ensures |EncToken(FixedLL(), FixedD(), Literal(b))| == 9
  {
    TokenLength(FixedLL(), FixedD(), Literal(b));
    LExtraLow(b);
  }

  /** Fewer than 4096 literals are not divided: the coder never asks to end the block. */
  method TallyLiterals(coder: BlockCoder, data: seq<byte>)
    requires coder.Coding() && coder.tokens == [] && |data| < 0x1000
    modifies coder, coder.dynL.fc, coder.dynD.fc, coder.lBuf, coder.dBuf, coder.flagBuf
    ensures coder.Coding() && coder.tokens == Literals(data) && coder.bw.Stream() == old(coder.bw.Stream())
  {
    hide BlockCoder.Layout, BlockCoder.Counted, BlockCoder.Buffered, CodeTables.Valid, Writer.Stream, Writer.Valid;
    coder.TallyApart();
    assert Literals([]) == [] && data[..0] == [];
    var i := 0;
    while i < |data|
      invariant i <= |data| && coder.Coding() && coder.tokens == Literals(data[..i])
      invariant coder.bw.Stream() == old(coder.bw.Stream())
    {
      LiteralsSnoc(data[..i], data[i]);
      assert data[..i] + [data[i]] == data[..i + 1];
      coder.TallyApart();
      var flush := coder.CtTally(0, data[i], i + 1, 0);
      i := i + 1;
      NoStop(coder.tokens, U(i));
      assert !flush;
    }
    assert data[..i] == data;
  }

  lemma NoStop(ts: seq<Token>, inLength: nat)
    requires TokensOk(ts) && 0 < |ts| < 0x1000
    ensures !StopsHere(ts, inLength)
  {}
}
