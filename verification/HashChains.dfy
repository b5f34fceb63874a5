/** The hash of three bytes, and the chains that link the positions where it is the same. */
module HashChains {
  import opened Numbers
  import opened Bits

  const WSIZE: nat := 0x8000
  const HASH_BITS: nat := 13
  const HASH_SIZE: nat := 0x2000
  const H_SHIFT: nat := 5

  /** Takes one more byte into a running hash. */
  function UpdateHash(h: nat, c: byte): (r: nat)
    ensures r < HASH_SIZE
  {
    Xor(Shl(h, H_SHIFT), c) % HASH_SIZE
  }

  function HashTwo(a: byte, b: byte): nat {
    UpdateHash(UpdateHash(0, a), b)
  }

  function HashThree(a: byte, b: byte, c: byte): (r: nat)
    ensures r < HASH_SIZE
  {
    UpdateHash(HashTwo(a, b), c)
  }

  // ---------- exclusive or ----------

  lemma {:induction false} XorLow(a: nat, b: nat, k: nat)
    ensures Low(Xor(a, b), k) == Xor(Low(a, k), Low(b, k))
    decreases k
  {
    hide Low, Xor;
    if k == 0 {
      LowNone(a); LowNone(b); LowNone(Xor(a, b));
      XorDef(0, 0);
    } else {
      var x, y, i, j := a / 2, b / 2, a % 2, b % 2;
      var t := (i + j) % 2;
      XorParts(a, b, x, y, i, j);
      LowParts(a, x, i, k);
      LowParts(b, y, j, k);
      LowParts(Xor(a, b), Xor(x, y), t, k);
      XorLow(x, y, k - 1);
      XorParts(Low(a, k), Low(b, k), Low(x, k - 1), Low(y, k - 1), i, j);
    }
  }

  lemma XorParts(a: nat, b: nat, x: nat, y: nat, i: nat, j: nat)
    requires a == 2 * x + i && b == 2 * y + j && i < 2 && j < 2
    ensures Xor(a, b) == 2 * Xor(x, y) + (i + j) % 2
  {
    hide Xor;
    HalfOf(x, i);
    HalfOf(y, j);
    XorStep(a, b);
  }

  lemma LowParts(v: nat, x: nat, i: nat, k: nat)
    requires k > 0 && v == 2 * x + i && i < 2
    ensures Low(v, k) == 2 * Low(x, k - 1) + i
  {
    hide Low;
    HalfOf(x, i);
    LowStep(v, k);
  }

  lemma LowStep(v: nat, k: nat)
    requires k > 0
    ensures Low(v, k) == v % 2 + 2 * Low(v / 2, k - 1)
  {}

  lemma HalfOf(x: nat, y: nat)
    requires y < 2
    ensures (2 * x + y) / 2 == x && (2 * x + y) % 2 == y
  {}

  lemma XorStep(a: nat, b: nat)
    ensures Xor(a, b) % 2 == (a % 2 + b % 2) % 2 && Xor(a, b) / 2 == Xor(a / 2, b / 2)
    ensures Xor(a, b) == 2 * Xor(a / 2, b / 2) + (a % 2 + b % 2) % 2
  {
    XorDef(a, b);
    hide Xor;
    HalfOf(Xor(a / 2, b / 2), (a % 2 + b % 2) % 2);
  }

  lemma XorDef(a: nat, b: nat)
    ensures Xor(a, b) == 2 * Xor(a / 2, b / 2) + (a % 2 + b % 2) % 2
  {
    if a == 0 && b == 0 { assert Xor(a / 2, b / 2) == 0; }
  }

  lemma {:induction false} XorInjective(a: nat, b: nat, c: nat)
    requires Xor(a, b) == Xor(a, c)
    ensures b == c
    decreases a + b + c
  {
    hide Xor;
    if a + b + c > 0 {
      XorStep(a, b);
      XorStep(a, c);
      Halves(a, b, c);
      XorInjective(a / 2, b / 2, c / 2);
    }
  }

  lemma Halves(a: nat, b: nat, c: nat)
    requires a + b + c > 0
    ensures a / 2 + b / 2 + c / 2 < a + b + c
    ensures b / 2 == c / 2 && (a % 2 + b % 2) % 2 == (a % 2 + c % 2) % 2 ==> b == c
  {}

  // ---------- what the hash depends on ----------

  lemma ShlStep(h: nat, s: nat)
    ensures Shl(h, s) == if s == 0 then h else 2 * Shl(h, s - 1)
  {}

  /** Shifting in zeros: the low bits of a shifted value. */
  lemma {:induction false} LowShl(h: nat, s: nat, k: nat)
    ensures Low(Shl(h, s), s + k) == Shl(Low(h, k), s)
  {
    hide Low, Shl;
    ShlStep(h, s);
    ShlStep(Low(h, k), s);
    if s > 0 {
      LowShl(h, s - 1, k);
      LowParts(Shl(h, s), Shl(h, s - 1), 0, s + k);
    }
  }

  lemma {:induction false} LowLow(v: nat, j: nat, k: nat)
    requires j <= k
    ensures Low(Low(v, k), j) == Low(v, j)
    decreases k
  {
    if j > 0 { LowLow(v / 2, j - 1, k - 1); }
  }

  /** Only the low bits of the running hash survive the next byte. */
  lemma HashDepends(g: nat, h: nat, c: byte, k: nat)
    requires Low(g, k) == Low(h, k) && k + H_SHIFT <= HASH_BITS
    ensures Low(UpdateHash(g, c), k + H_SHIFT) == Low(UpdateHash(h, c), k + H_SHIFT)
  {
    HashLow(g, c, k);
    HashLow(h, c, k);
  }

  lemma HashLow(h: nat, c: byte, k: nat)
    requires k + H_SHIFT <= HASH_BITS
    ensures Low(UpdateHash(h, c), k + H_SHIFT) == Xor(Shl(Low(h, k), H_SHIFT), Low(c, k + H_SHIFT))
  {
    Pow2Table();
    hide Low, Xor, Shl, Pow2;
    ShrDiv(Xor(Shl(h, H_SHIFT), c), HASH_BITS);
    LowLow(Xor(Shl(h, H_SHIFT), c), k + H_SHIFT, HASH_BITS);
    XorLow(Shl(h, H_SHIFT), c, k + H_SHIFT);
    LowShl(h, H_SHIFT, k);
  }

  lemma LowNone(v: nat)
    ensures Low(v, 0) == 0
  {}

  lemma LowAll(v: nat, k: nat)
    requires v < Pow2(k)
    ensures Low(v, k) == v
  {
    LowHighUnique(v, 0, k);
    ShlOne(k);
  }

  /** Two running hashes that agree on the next byte to come. */
  predicate Agree(g: nat, h: nat) {
    Low(g, HASH_BITS - H_SHIFT) == Low(h, HASH_BITS - H_SHIFT)
  }

  lemma AgreeNext(g: nat, h: nat, c: byte)
    requires Agree(g, h)
    ensures UpdateHash(g, c) == UpdateHash(h, c)
  {
    Pow2Table();
    hide Low, Xor, Shl, Pow2;
    HashDepends(g, h, c, HASH_BITS - H_SHIFT);
    LowAll(UpdateHash(g, c), HASH_BITS);
    LowAll(UpdateHash(h, c), HASH_BITS);
  }

  /** After two bytes nothing of the earlier ones is left, as far as the third byte can see. */
  lemma TwoBytes(h: nat, a: byte, b: byte)
    ensures Agree(UpdateHash(UpdateHash(h, a), b), HashTwo(a, b))
  {
    hide Low, Xor, Shl, UpdateHash;
    var g := UpdateHash(h, a);
    LowNone(h);
    LowNone(0);
    HashDepends(h, 0, a, 0);
    var f := UpdateHash(0, a);
    LowLow(g, 3, 5);
    LowLow(f, 3, 5);
    HashDepends(g, f, b, 3);
  }

  /** The running hash after a third byte is the hash of the three, and is ready for the next byte. */
  lemma RollHash(h: nat, a: byte, b: byte, c: byte)
    requires Agree(h, HashTwo(a, b))
    ensures UpdateHash(h, c) == HashThree(a, b, c)
    ensures Agree(UpdateHash(h, c), HashTwo(b, c))
  {
    hide Low, Xor, Shl, UpdateHash, Agree;
    AgreeNext(h, HashTwo(a, b), c);
    TwoBytes(UpdateHash(0, a), b, c);
  }

  /** Equal hashes and equal first bytes make the third byte equal: it need not be compared. */
  lemma ThirdByte(a: byte, b: byte, c: byte, e: byte)
    requires HashThree(a, b, c) == HashThree(a, b, e)
    ensures c == e
  {
    Pow2Table();
    hide Low, Xor, Shl, UpdateHash, Pow2;
    var h := HashTwo(a, b);
    LowAll(c, 8);
    LowAll(e, 8);
    HashLow(h, c, 3);
    HashLow(h, e, 3);
    XorInjective(Shl(Low(h, 3), H_SHIFT), c, e);
  }

  lemma {:induction false} XorZero(v: nat)
    ensures Xor(0, v) == v
  {
    if v > 0 { XorZero(v / 2); }
  }

  /** The hash in closed form: five bits to the left for each byte, and 13 bits in all. */
  lemma HashThreeIs(a: byte, b: byte, c: byte)
    ensures HashThree(a, b, c) == Xor(32 * Xor(32 * (a % 8), b), c)
  {
    Pow2Table();
    hide Low, Xor, Shl, UpdateHash, Pow2;
    var f := UpdateHash(0, a);
    var h := UpdateHash(f, b);
    HashLow(0, a, 0);
    LowNone(0);
    ShlOne(H_SHIFT);
    XorZero(Low(a, 5));
    LowLow(f, 3, 5);
    LowLow(a, 3, 5);
    ShrDiv(a, 3);
    HashLow(f, b, 3);
    ShlMul(Low(f, 3), H_SHIFT);
    LowAll(b, 8);
    HashLow(h, c, 8);
    ShlMul(Low(h, 8), H_SHIFT);
    CLow(c);
    LowAll(UpdateHash(h, c), HASH_BITS);
  }

  lemma CLow(c: byte)
    ensures Low(c, HASH_BITS) == c
  {
    Pow2Table();
    LowAll(c, HASH_BITS);
  }

  // ---------- hash chains ----------

  /** The hash of the three bytes of `data` from position `a`. */
  function HashAt(data: seq<byte>, a: nat): (r: nat)
    requires a + 2 < |data|
    ensures r < HASH_SIZE
  {
    HashThree(data[a], data[a + 1], data[a + 2])
  }

  predicate HasHash(data: seq<byte>, a: int, h: nat) {
    0 <= a && a + 2 < |data| && HashAt(data, a) == h
  }

  /** No string between `lo` and `hi` has the hash `h`. */
  predicate NoneBetween(data: seq<byte>, lo: int, hi: int, h: nat) {
    forall a :: lo < a < hi ==> !HasHash(data, a, h)
  }

  /** The most recent position below `s` with hash `h`, or zero if there is none, except perhaps zero itself. */
  predicate HeadOk(prev: seq<nat>, data: seq<byte>, base: nat, s: nat, h: nat)
    requires |prev| == 2 * WSIZE && h < HASH_SIZE
  {
    var q := prev[WSIZE + h];
    && (q == 0 || (q < s && (base + q + 2 < |data| ==> HashAt(data, base + q) == h)))
    && NoneBetween(data, base + q, base + s, h)
  }

  /** The link from `p` goes back to the last position before it with the same hash, or ends. */
  predicate LinkOk(prev: seq<nat>, data: seq<byte>, base: nat, p: nat)
    requires |prev| == 2 * WSIZE
  {
    var q := prev[p % WSIZE];
    && (q == 0 || (q < p && (base + p + 2 < |data| ==> HashAt(data, base + q) == HashAt(data, base + p))))
    && (base + p + 2 < |data| ==> NoneBetween(data, base + q, base + p, HashAt(data, base + p)))
  }

  /** The positions below `s` are in the chains; the window starts at position `base` of `data`. */
  predicate Chains(prev: seq<nat>, data: seq<byte>, base: nat, s: nat) {
    && |prev| == 2 * WSIZE
    && (forall h: nat :: h < HASH_SIZE ==> HeadOk(prev, data, base, s, h))
    && (forall p: nat :: p < s <= p + WSIZE ==> LinkOk(prev, data, base, p))
  }

  lemma NoChains(prev: seq<nat>, data: seq<byte>)
    requires |prev| == 2 * WSIZE && forall i :: WSIZE <= i < WSIZE + HASH_SIZE ==> prev[i] == 0
    ensures Chains(prev, data, 0, 0)
  {
    forall h: nat | h < HASH_SIZE
      ensures HeadOk(prev, data, 0, 0, h)
    {
      assert prev[WSIZE + h] == 0;
    }
  }

  /** Inserting the next position. */
  lemma InsertKeeps(prev: seq<nat>, data: seq<byte>, base: nat, s: nat, h: nat)
    requires Chains(prev, data, base, s) && h < HASH_SIZE
    requires base + s + 2 < |data| ==> h == HashAt(data, base + s)
    ensures Chains(prev[s % WSIZE := prev[WSIZE + h]][WSIZE + h := s], data, base, s + 1)
  {
    hide HashAt;
    var q, s1 := prev[s % WSIZE := prev[WSIZE + h]][WSIZE + h := s], s + 1;
    assert HeadOk(prev, data, base, s, h);
    forall p: nat | p < s1 <= p + WSIZE
      ensures LinkOk(q, data, base, p)
    {
      if p < s {
        assert LinkOk(prev, data, base, p);
        OtherSlot(p, s);
      }
    }
    forall g: nat | g < HASH_SIZE
      ensures HeadOk(q, data, base, s1, g)
    {
      assert HeadOk(prev, data, base, s, g);
    }
  }

  /** The last WSIZE positions have different slots. */
  lemma OtherSlot(p: nat, s: nat)
    requires p < s < p + WSIZE
    ensures p % WSIZE != s % WSIZE
  {}

  /** A position after the window has moved. */
  function Moved(q: nat): nat {
    if q >= WSIZE then q - WSIZE else 0
  }

  /** Moving the upper half of the window down. */
  lemma SlideKeeps(prev: seq<nat>, next: seq<nat>, data: seq<byte>, base: nat, s: nat)
    requires Chains(prev, data, base, s) && s >= WSIZE && |next| == 2 * WSIZE
    requires forall i :: 0 <= i < WSIZE + HASH_SIZE ==> next[i] == Moved(prev[i])
    ensures Chains(next, data, base + WSIZE, s - WSIZE)
  {
    hide HashAt;
    var base1, s1 := base + WSIZE, s - WSIZE;
    forall h: nat | h < HASH_SIZE
      ensures HeadOk(next, data, base1, s1, h)
    {
      assert HeadOk(prev, data, base, s, h);
    }
    forall p: nat | p < s1 <= p + WSIZE
      ensures LinkOk(next, data, base1, p)
    {
      SlidLink(prev, next, data, base, p);
    }
  }

  lemma SlidLink(prev: seq<nat>, next: seq<nat>, data: seq<byte>, base: nat, p: nat)
    requires |prev| == |next| == 2 * WSIZE && LinkOk(prev, data, base, p + WSIZE)
    requires next[p % WSIZE] == Moved(prev[p % WSIZE])
    ensures LinkOk(next, data, base + WSIZE, p)
  {
    hide HashAt;
    assert (p + WSIZE) % WSIZE == p % WSIZE;
  }
}
