/** The output buffer and the bit packer of the compressor. */
module BitWriter {
  import opened Numbers
  import opened Bits

  const OUTBUFSIZ := 8192
  const BUF_SIZE := 32

  class Writer {
    const outbuf: array<byte>
    var outcnt: nat
    var biBuf: nat
    var biValid: nat
    var written: seq<byte> // what the output file holds so far

    ghost predicate Valid()
      reads this
    {
      && outbuf.Length == OUTBUFSIZ
      && outcnt < OUTBUFSIZ
      && biValid < BUF_SIZE
      && biBuf < Pow2(biValid)
    }

    /** Bytes that have left the bit buffer. */
    ghost function Bytes(): seq<byte>
      reads this, outbuf
      requires outcnt <= outbuf.Length
    {
      written + outbuf[..outcnt]
    }

    /** Every bit sent so far. */
    ghost function Stream(): Bits
      reads this, outbuf
      requires Valid()
    {
      ByteBits(Bytes()) + Lsb(biBuf, biValid)
    }

    constructor ()
      ensures Valid() && fresh(outbuf)
      ensures Stream() == [] && biValid == 0
    {
      outbuf := new byte[OUTBUFSIZ](_ => 0);
      outcnt, biBuf, biValid := 0, 0, 0;
      written := [];
    }

    method FlushOutbuf()
      requires outcnt <= outbuf.Length
      modifies this`outcnt, this`written
      ensures outcnt == 0
      ensures Bytes() == old(Bytes())
    {
      if outcnt == 0 { return; }
      written := written + outbuf[..outcnt];
      outcnt := 0;
    }

    method Put8Bit(c: byte)
      requires Valid()
      modifies this`outcnt, this`written, outbuf
      ensures Valid()
      ensures Bytes() == old(Bytes()) + [c]
    {
      outbuf[outcnt] := c;
      outcnt := outcnt + 1;
      assert Bytes() == old(Bytes()) + [c];
      if outcnt == OUTBUFSIZ {
        FlushOutbuf();
      }
    }

    method Put16Bit(w: nat)
      requires Valid() && w < 0x10000
      modifies this`outcnt, this`written, outbuf
      ensures Valid()
      ensures Bytes() == old(Bytes()) + [w % 256, w / 256]
    {
      var n := outcnt;
      outbuf[n] := w % 256;
      if n < OUTBUFSIZ - 2 {
        outbuf[n + 1] := w / 256;
        outcnt := n + 2;
        return;
      }
      n := n + 1;
      outcnt := n;
      assert Bytes() == old(Bytes()) + [w % 256];
      if n == OUTBUFSIZ {
        FlushOutbuf();
      }
      Put8Bit(w / 256);
    }

    method Put32Bit(n: nat)
      requires Valid() && n < U32
      modifies this`outcnt, this`written, outbuf
      ensures Valid()
      ensures ByteBits(Bytes()) == old(ByteBits(Bytes())) + Lsb(n, 32)
    {
      Put16Bit(n % 0x10000);
      Put16Bit(n / 0x10000);
      ghost var b: seq<byte> := [n % 0x10000 % 256, n % 0x10000 / 256, n / 0x10000 % 256, n / 0x10000 / 256];
      assert Bytes() == old(Bytes()) + b;
      ByteBitsConcat(old(Bytes()), b);
      WordBits(n, b);
    }

    /** Appends `length` bits; the caller promises that `value` fits in them. */
    method SendBits(value: nat, length: nat)
      requires Valid() && length <= 16 && value < Pow2(length)
      modifies this, outbuf
      ensures Valid()
      ensures Stream() == old(Stream()) + Lsb(value, length)
    {
      hide Lsb, Shl, Shr, Low, Or, ByteBits;
      assert Pow2(0) == 1;
      var newBuf := Or(biBuf, Shl(value, biValid) % U32);
      var total := length + biValid;
      ghost var head, tail := ByteBits(Bytes()), Lsb(biBuf, biValid);
      Packed(biBuf, biValid, value, length);
      Assoc(head, tail, Lsb(value, length));
      if total >= BUF_SIZE {
        var high := Shr(value, BUF_SIZE - biValid);
        Assoc(head, Lsb(newBuf, BUF_SIZE), Lsb(high, total - BUF_SIZE));
        Put32Bit(newBuf);
        newBuf := high;
        total := total - BUF_SIZE;
      }
      biBuf := newBuf;
      biValid := total;
    }

    method BiWindup()
      requires Valid()
      modifies this, outbuf
      ensures Valid() && biValid == 0
      ensures Stream() == old(Stream()) + Padding(|old(Stream())|)
    {
      hide Lsb, Pow2, ByteBits, PadCount;
      var bits: nat := biBuf;
      var cnt: int := biValid;
      Assoc(ByteBits(Bytes()), Lsb(bits, cnt), Padding(cnt));
      PadBytes(|Bytes()|, cnt);
      assert cnt == 0 ==> bits == 0 && Lsb(bits, cnt) == [] by { NoBits(bits, cnt); }
      assert cnt == 0 ==> Padding(cnt) == [] by { PadZero(); }
      assert Stream() + Padding(|Stream()|) == ByteBits(Bytes()) + Tail(bits, cnt);
      while cnt > 0
        invariant -8 < cnt < BUF_SIZE && Valid()
        invariant if cnt > 0 then bits < Pow2(cnt) else bits == 0
        invariant ByteBits(Bytes()) + Tail(bits, cnt) == old(Stream() + Padding(|Stream()|))
      {
        PeelByte(bits, cnt);
        ByteBitsSnoc(Bytes(), bits % 256);
        Assoc(ByteBits(Bytes()), Lsb(bits % 256, 8), Tail(bits / 256, cnt - 8));
        Put8Bit(bits % 256);
        bits := bits / 256;
        cnt := cnt - 8;
      }
      biBuf := 0;
      biValid := 0;
      NoBits(0, 0);
      assert Pow2(0) == 1 by { Pow2Zero(); }
    }

    /** A stored block's body: alignment, LEN and NLEN, and the bytes themselves. */
    method CopyBlock(buf: seq<byte>)
      requires Valid() && |buf| < 0x10000
      modifies this, outbuf
      ensures Valid() && biValid == 0
      ensures Stream() == old(Stream()) + Padding(|old(Stream())|)
                          + Lsb(|buf|, 16) + Lsb(0xffff - |buf|, 16) + ByteBits(buf)
    {
      hide Lsb, Pow2, ByteBits, Padding;
      BiWindup();
      ghost var aligned := Stream();
      NoBits(biBuf, biValid);
      assert aligned == ByteBits(Bytes());
      Pow2Zero();
      Put32Bit(|buf| + (0xffff - |buf|) * 0x10000);
      LengthBits(|buf|);
      Assoc(aligned, Lsb(|buf|, 16), Lsb(0xffff - |buf|, 16));
      ghost var head := ByteBits(Bytes());
      var k := 0;
      assert buf[..0] == [] && ByteBits([]) == [] by { ByteBitsEmpty(); }
      while k < |buf|
        invariant k <= |buf| && Valid() && biValid == 0 && biBuf == 0
        invariant ByteBits(Bytes()) == head + ByteBits(buf[..k])
      {
        ByteBitsSnoc(Bytes(), buf[k]);
        ByteBitsSnoc(buf[..k], buf[k]);
        assert buf[..k + 1] == buf[..k] + [buf[k]];
        Assoc(head, ByteBits(buf[..k]), Lsb(buf[k], 8));
        Put8Bit(buf[k]);
        k := k + 1;
      }
      assert buf[..k] == buf;
      NoBits(0, 0);
      assert Stream() == head + ByteBits(buf);
    }
  }

  /** LEN and its complement, as the one 32-bit word that carries both. */
  lemma LengthBits(n: nat)
    requires n < 0x10000
    ensures Lsb(n + (0xffff - n) * 0x10000, 32) == Lsb(n, 16) + Lsb(0xffff - n, 16)
  {
    Pow2Sixteen();
    hide Lsb, Pow2, Shl;
    var m := 0xffff - n;
    ShlMul(m, 16);
    LsbAppend(n, 16, m, 16);
  }

  /** The bits still in the bit buffer, padded to whole bytes. */
  ghost function Tail(bits: nat, cnt: int): Bits {
    if cnt > 0 then Lsb(bits, cnt) + Padding(cnt) else []
  }

  lemma WordBits(n: nat, b: seq<byte>)
    requires n < U32
    requires b == [n % 0x10000 % 256, n % 0x10000 / 256, n / 0x10000 % 256, n / 0x10000 / 256]
    ensures ByteBits(b) == Lsb(n, 32)
  {
    hide Lsb, ByteBits;
    FourBytes(b[0], b[1], b[2], b[3]);
    var n1 := n / 256;
    var n2 := n1 / 256;
    Digits(n);
    SplitByte(n, 24);
    SplitByte(n1, 16);
    SplitByte(n2, 8);
    Assoc(Lsb(b[0], 8), Lsb(b[1], 8), Lsb(b[2], 8) + Lsb(b[3], 8));
  }

  lemma Digits(n: nat)
    ensures n % 0x10000 % 256 == n % 256 && n % 0x10000 / 256 == n / 256 % 256
    ensures n / 0x10000 == n / 256 / 256
  {}

  lemma FourBytes(b0: byte, b1: byte, b2: byte, b3: byte)
    ensures ByteBits([b0, b1, b2, b3]) == (Lsb(b0, 8) + Lsb(b1, 8)) + (Lsb(b2, 8) + Lsb(b3, 8))
  {
    ByteBitsEmpty();
    hide Lsb, ByteBits;
    ByteBitsSnoc([], b0);
    ByteBitsSnoc([b0], b1);
    ByteBitsSnoc([b2], b3);
    ByteBitsSnoc([], b2);
    ByteBitsConcat([b0, b1], [b2, b3]);
    assert [b0, b1] + [b2, b3] == [b0, b1, b2, b3];
    assert [] + [b0] == [b0] && [b0] + [b1] == [b0, b1] && [] + [b2] == [b2] && [b2] + [b3] == [b2, b3];
  }

  lemma SplitByte(n: nat, b: nat)
    ensures Lsb(n, 8 + b) == Lsb(n % 256, 8) + Lsb(n / 256, b)
  {
    ShrDiv(n, 8);
    assert Pow2(8) == 256;
    hide Lsb, Shl, Shr, Low, Pow2, ByteBits;
    LsbSplit(n, 8, b);
  }

  /** What the bit buffer holds after a value is shifted in. */
  lemma Packed(buf: nat, k: nat, value: nat, length: nat)
    requires k < BUF_SIZE && buf < Pow2(k) && length <= 16 && value < Pow2(length)
    ensures var newBuf := Or(buf, Shl(value, k) % U32);
            newBuf < U32
            && (length + k < BUF_SIZE ==>
                  newBuf < Pow2(length + k) && Lsb(newBuf, k + length) == Lsb(buf, k) + Lsb(value, length))
            && (length + k >= BUF_SIZE ==>
                  var high := Shr(value, BUF_SIZE - k);
                  high < Pow2(length + k - BUF_SIZE)
                  && Lsb(newBuf, BUF_SIZE) + Lsb(high, length + k - BUF_SIZE) == Lsb(buf, k) + Lsb(value, length))
  {
    Pow2Word();
    hide Lsb, Shl, Shr, Low, Pow2, Or;
    var m := BUF_SIZE - k;
    var r, q := Low(value, m), Shr(value, m);
    Truncated(value, k);
    OrDisjoint(buf, k, r);
    Fits(buf, k, r, m);
    LsbAppend(buf, k, r, m);
    if length + k < BUF_SIZE {
      Pow2Mono(length, m);
      LowSmall(value, m);
      Fits(buf, k, value, length);
      LsbAppend(buf, k, value, length);
    } else {
      var rest := length + k - BUF_SIZE;
      LsbSplit(value, m, rest);
      HighSmall(value, m, rest);
      assert m + rest == length && k + m == BUF_SIZE;
      assert Lsb(buf, k) + (Lsb(r, m) + Lsb(q, rest)) == (Lsb(buf, k) + Lsb(r, m)) + Lsb(q, rest);
    }
  }

  /** A 32-bit shift keeps the bits that stay below bit 32. */
  lemma Truncated(value: nat, k: nat)
    requires k < BUF_SIZE
    ensures Shl(value, k) % U32 == Shl(Low(value, BUF_SIZE - k), k)
  {
    Pow2Word();
    hide Lsb, Shl, Shr, Low, Pow2, Or;
    var m := BUF_SIZE - k;
    var r, q := Low(value, m), Shr(value, m);
    LowHigh(value, m);
    ShlPlus(r, Shl(q, m), k);
    ShlShl(q, m, k);
    Fits(0, 0, r, m);
    assert Shl(r, k) < U32 by { FitsShl(r, m, k); }
    ShlMul(q, BUF_SIZE);
    DivMod(Shl(value, k), U32, q, Shl(r, k));
  }

  lemma {:induction false} FitsShl(r: nat, m: nat, k: nat)
    requires r < Pow2(m)
    ensures Shl(r, k) + Pow2(k) <= Pow2(m + k)
  {
    if k > 0 { FitsShl(r, m, k - 1); }
  }

  lemma Fits(buf: nat, k: nat, v: nat, m: nat)
    requires buf < Pow2(k) && v < Pow2(m)
    ensures buf + Shl(v, k) < Pow2(m + k)
  {
    FitsShl(v, m, k);
  }

  lemma LowSmall(v: nat, m: nat)
    requires v < Pow2(m)
    ensures Low(v, m) == v && Shr(v, m) == 0
  {
    ShlOne(m);
    LowHighUnique(v, 0, m);
  }

  /** The low byte of the bit buffer, padded when fewer than eight bits are left. */
  lemma PeelByte(bits: nat, cnt: int)
    requires 0 < cnt < BUF_SIZE && bits < Pow2(cnt)
    ensures if cnt > 8 then bits / 256 < Pow2(cnt - 8) else bits / 256 == 0
    ensures Tail(bits, cnt) == Lsb(bits % 256, 8) + Tail(bits / 256, cnt - 8)
  {
    if cnt > 8 {
      PeelFull(bits, cnt);
    } else {
      PeelLast(bits, cnt);
    }
  }

  lemma PeelFull(bits: nat, cnt: nat)
    requires 8 < cnt < BUF_SIZE && bits < Pow2(cnt)
    ensures bits / 256 < Pow2(cnt - 8)
    ensures Lsb(bits, cnt) + Padding(cnt) == Lsb(bits % 256, 8) + (Lsb(bits / 256, cnt - 8) + Padding(cnt - 8))
  {
    PadPeriod(cnt);
    assert Pow2(8) == 256;
    hide Lsb, Shr, Low, Pow2, PadCount;
    SplitByte(bits, cnt - 8);
    HighSmall(bits, 8, cnt - 8);
    ShrDiv(bits, 8);
    Assoc(Lsb(bits % 256, 8), Lsb(bits / 256, cnt - 8), Padding(cnt));
  }

  lemma PeelLast(bits: nat, cnt: nat)
    requires 0 < cnt <= 8 && bits < Pow2(cnt)
    ensures bits < 256 && Lsb(bits, cnt) + Padding(cnt) == Lsb(bits % 256, 8)
  {
    hide Lsb, Shl, Pow2, PadCount;
    Pow2Table();
    PadShort(cnt);
    Pow2Mono(cnt, 8);
    LsbZeros(bits, cnt, 8);
    Small(bits);
  }

  lemma Small(bits: nat)
    requires bits < 256
    ensures bits % 256 == bits
  {}

  lemma LsbZeros(v: nat, k: nat, n: nat)
    requires v < Pow2(k) && k <= n
    ensures Lsb(v, k) + Lsb(0, n - k) == Lsb(v, n)
  {
    hide Lsb, Shl;
    ShlOne(k);
    LsbAppend(v, k, 0, n - k);
  }

  method BiReverse(c: nat, n: nat) returns (res: nat)
    requires 1 <= n <= 15 && c < Pow2(n)
    ensures res < Pow2(n) && Lsb(res, n) == Msb(c, n)
  {
    hide Msb, Lsb, Or;
    res := 0;
    var code: nat, len: nat := c, n;
    NoBits(0, 0);
    Pow2Zero();
    while true
      invariant 1 <= len <= n && code < Pow2(len)
      invariant res % 2 == 0 && res / 2 < Pow2(n - len)
      invariant Msb(code, len) + Lsb(res / 2, n - len) == Msb(c, n)
      decreases len
    {
      ReverseStep(res, code, n - len, len);
      res := Or(res, code % 2);
      len := len - 1;
      if len == 0 {
        NoMsb(code / 2);
        return;
      }
      code := code / 2;
      res := res * 2;
    }
  }

  lemma NoMsb(v: nat)
    ensures Msb(v, 0) == []
  {}

  lemma ReverseStep(res: nat, code: nat, done: nat, len: nat)
    requires res % 2 == 0 && res / 2 < Pow2(done) && len > 0
    ensures var r := Or(res, code % 2);
            r < Pow2(done + 1) && r * 2 / 2 == r
            && Msb(code / 2, len - 1) + Lsb(r, done + 1) == Msb(code, len) + Lsb(res / 2, done)
  {
    var was := res / 2;
    assert Or(res, code % 2) == 2 * was + code % 2 by {
      assert Shl(was, 1) == res;
      OrDisjoint(code % 2, 1, was);
      OrSym(res, code % 2);
    }
    assert Lsb(2 * was + code % 2, done + 1) == [code % 2] + Lsb(was, done);
    assert Msb(code, len) == Msb(code / 2, len - 1) + [code % 2];
    hide Msb, Lsb, Or, Pow2;
    Assoc(Msb(code / 2, len - 1), [code % 2], Lsb(was, done));
  }

  lemma {:induction false} OrSym(a: nat, b: nat)
    ensures Or(a, b) == Or(b, a)
    decreases a + b
  {
    if a > 0 && b > 0 { OrSym(a / 2, b / 2); }
  }
}
