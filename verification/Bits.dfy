/** Bit strings, in the order the bits leave the compressor. */
module Bits {
  import opened Numbers

  type bit = x: int | 0 <= x <= 1
  type byte = x: int | 0 <= x < 256
  type Bits = seq<bit>

  /** The low `n` bits of `v`, least significant bit first. */
  function Lsb(v: nat, n: nat): (b: Bits)
    ensures |b| == n
  {
    if n == 0 then [] else [v % 2] + Lsb(v / 2, n - 1)
  }

  /** The low `n` bits of `v`, most significant bit first. */
  function Msb(v: nat, n: nat): (b: Bits)
    ensures |b| == n
  {
    if n == 0 then [] else Msb(v / 2, n - 1) + [v % 2]
  }

  /** The number a bit string stands for, least significant bit first. */
  function Value(b: Bits): nat {
    if b == [] then 0 else b[0] + 2 * Value(b[1..])
  }

  function ByteBits(s: seq<byte>): (b: Bits)
    ensures |b| == 8 * |s|
  {
    if s == [] then [] else ByteBits(s[..|s| - 1]) + Lsb(s[|s| - 1], 8)
  }

  lemma Assoc<T>(a: seq<T>, b: seq<T>, c: seq<T>)
    ensures (a + b) + c == a + (b + c)
  {}

  lemma {:induction false} LsbValue(v: nat, n: nat)
    requires v < Pow2(n)
    ensures Value(Lsb(v, n)) == v
  {
    if n > 0 {
      LsbValue(v / 2, n - 1);
      assert Lsb(v, n)[1..] == Lsb(v / 2, n - 1);
    }
  }

  /** Writing `w` above an `a`-bit `v` writes `v`'s bits, then `w`'s. */
  lemma {:induction false} LsbAppend(v: nat, a: nat, w: nat, b: nat)
    requires v < Pow2(a)
    ensures Lsb(v + Shl(w, a), a + b) == Lsb(v, a) + Lsb(w, b)
    decreases a
  {
    if a == 0 {
      assert Lsb(v, a) + Lsb(w, b) == Lsb(w, b);
    } else {
      var s := Shl(w, a - 1);
      Half(v, s);
      assert Lsb(v + 2 * s, a + b) == [v % 2] + Lsb(v / 2 + s, a - 1 + b);
      LsbAppend(v / 2, a - 1, w, b);
      Assoc([v % 2], Lsb(v / 2, a - 1), Lsb(w, b));
    }
  }

  lemma LsbSplit(v: nat, a: nat, b: nat)
    ensures Lsb(v, a + b) == Lsb(Low(v, a), a) + Lsb(Shr(v, a), b)
  {
    LowHigh(v, a);
    LsbAppend(Low(v, a), a, Shr(v, a), b);
  }

  lemma {:induction false} ByteBitsConcat(a: seq<byte>, b: seq<byte>)
    ensures ByteBits(a + b) == ByteBits(a) + ByteBits(b)
  {
    if b == [] {
      assert a + b == a;
    } else {
      assert (a + b)[..|a + b| - 1] == a + b[..|b| - 1];
      ByteBitsConcat(a, b[..|b| - 1]);
    }
  }

  lemma ByteBitsSnoc(a: seq<byte>, c: byte)
    ensures ByteBits(a + [c]) == ByteBits(a) + Lsb(c, 8)
  {
    assert (a + [c])[..|a|] == a;
  }

  /** `enc` occurs in `s` at position `pos`. */
  ghost predicate At(s: Bits, pos: nat, enc: Bits) {
    pos + |enc| <= |s| && s[pos..pos + |enc|] == enc
  }

  lemma AtConcat(s: Bits, pos: nat, a: Bits, b: Bits)
    ensures At(s, pos, a + b) <==> At(s, pos, a) && At(s, pos + |a|, b)
  {
    if At(s, pos, a + b) {
      assert s[pos..pos + |a|] == s[pos..pos + |a + b|][..|a|] == a;
      assert s[pos + |a|..pos + |a| + |b|] == s[pos..pos + |a + b|][|a|..] == b;
    }
    if At(s, pos, a) && At(s, pos + |a|, b) {
      assert s[pos..pos + |a + b|] == s[pos..pos + |a|] + s[pos + |a|..pos + |a| + |b|];
    }
  }

  /** The zero bits that bring a stream of `n` bits to a byte boundary. */
  function Padding(n: int): Bits {
    Lsb(0, PadCount(n))
  }

  function PadCount(n: int): nat {
    (8 - n % 8) % 8
  }

  lemma PadAligns(n: int)
    ensures (n + PadCount(n)) % 8 == 0 && PadCount(n) < 8
  {}

  lemma PadBytes(n: nat, k: nat)
    ensures PadCount(8 * n + k) == PadCount(k)
  {}

  lemma PadZero()
    ensures Padding(0) == []
  {}

  lemma PadShort(cnt: nat)
    requires 0 < cnt <= 8
    ensures PadCount(cnt) == 8 - cnt
  {}

  lemma PadPeriod(cnt: nat)
    requires 8 <= cnt
    ensures PadCount(cnt) == PadCount(cnt - 8)
  {}

  lemma NoBits(v: nat, n: nat)
    ensures n == 0 ==> Lsb(v, n) == []
    ensures n == 0 && v < Pow2(n) ==> v == 0
  {}

  lemma ByteBitsEmpty()
    ensures ByteBits([]) == []
  {}
}
