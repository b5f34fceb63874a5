/** What the decoder reads where the encoder wrote: single numbers and single symbols. */
module Decoding {
  import opened Wrappers
  import opened Numbers
  import opened Bits
  import opened Canonical
  import opened Rfc1951

  lemma GetBitsAt(s: Bits, pos: nat, v: nat, n: nat)
    requires At(s, pos, Lsb(v, n)) && v < Pow2(n)
    ensures GetBits(s, pos, n) == Some(v)
  {
    LsbValue(v, n);
  }

  lemma {:induction false} SymbolFromAt(lens: seq<nat>, s: Bits, pos: nat, i: nat, k: nat)
    requires GoodLengths(lens) && k <= i < |lens| && lens[i] > 0 && At(s, pos, Code(lens, i))
    ensures SymbolFrom(lens, s, pos, k) == Some(i)
    decreases i - k
  {
    hide Code, At, Kraft;
    if lens[k] > 0 && At(s, pos, Code(lens, k)) {
      UniqueSymbol(lens, s, pos, i, k);
    } else {
      SymbolFromAt(lens, s, pos, i, k + 1);
    }
  }

  /** Where a symbol's code stands, the decoder finds that symbol. */
  lemma SymbolAt(lens: seq<nat>, s: Bits, pos: nat, i: nat)
    requires GoodLengths(lens) && i < |lens| && lens[i] > 0 && At(s, pos, Code(lens, i))
    ensures Symbol(lens, s, pos) == Some(i)
  {
    SymbolFromAt(lens, s, pos, i, 0);
  }
}
