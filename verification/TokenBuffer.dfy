/** How the tokens of a block are kept: lengths, distances, and one flag bit for each token. */
module TokenBuffer {
  import opened Numbers
  import opened Bits
  import opened Blocks

  const LIT_BUFSIZE := 0x2000
  const DIST_BUFSIZE := LIT_BUFSIZE

  /** What the length buffer holds for a token. */
  function Lc(t: Token): (r: nat)
    requires t.Ok()
    ensures r < 256
  {
    match t
    case Literal(b) => b
    case Match(len, _) => len - MIN_MATCH
  }

  /** What the distance buffer holds: the distances of the matches, less one. */
  function Dists(ts: seq<Token>): (r: seq<nat>)
    requires TokensOk(ts)
    ensures |r| <= |ts|
  {
    if ts == [] then [] else
    var t := ts[|ts| - 1];
    Dists(ts[..|ts| - 1]) + if t.Match? then [t.dist - 1] else []
  }

  function Flag(t: Token): bit {
    if t.Match? then 1 else 0
  }

  /** The flags of some tokens, the first in the lowest bit. */
  function Flags(ts: seq<Token>): (r: nat)
    ensures r < Pow2(|ts|)
  {
    if ts == [] then 0 else Flag(ts[0]) + 2 * Flags(ts[1..])
  }

  lemma {:induction false} FlagsSnoc(ts: seq<Token>, t: Token)
    ensures Flags(ts + [t]) == Flags(ts) + (if t.Match? then Pow2(|ts|) else 0)
  {
    if ts != [] {
      assert (ts + [t])[1..] == ts[1..] + [t];
      FlagsSnoc(ts[1..], t);
    }
  }

  function Least(a: nat, b: nat): nat {
    if a <= b then a else b
  }

  /** The tokens whose flags share the byte `k`. */
  function Group(ts: seq<Token>, k: nat): (g: seq<Token>)
    requires 8 * k <= |ts|
    ensures |g| == Least(8, |ts| - 8 * k)
  {
    ts[8 * k..Least(8 * k + 8, |ts|)]
  }

  /** The flag bytes below `n` are saved. */
  predicate FlagsSaved(ts: seq<Token>, f: seq<nat>, n: nat) {
    n <= |f| && forall k: nat :: k < n && 8 * k <= |ts| ==> f[k] == Flags(Group(ts, k))
  }

  predicate LcsSaved(ts: seq<Token>, l: seq<nat>) {
    TokensOk(ts) && |ts| <= |l| && forall i :: 0 <= i < |ts| ==> l[i] == Lc(ts[i])
  }

  predicate DistsSaved(ts: seq<Token>, d: seq<nat>) {
    TokensOk(ts) && Dists(ts) <= d
  }

  /** The buffers hold the tokens; the flags of the last few are still in `flags`. */
  predicate Tallying(ts: seq<Token>, l: seq<nat>, d: seq<nat>, f: seq<nat>,
                     lastLit: nat, lastDist: nat, lastFlags: nat, flags: nat, flagBit: nat) {
    && |l| == LIT_BUFSIZE && |d| == DIST_BUFSIZE && |f| == LIT_BUFSIZE / 8
    && lastLit == |ts| < LIT_BUFSIZE && LcsSaved(ts, l)
    && DistsSaved(ts, d) && lastDist == |Dists(ts)|
    && lastFlags == |ts| / 8 && FlagsSaved(ts, f, lastFlags)
    && flags == Flags(Group(ts, lastFlags)) && flagBit == Pow2(|ts| % 8)
  }

  /** All flags are saved, and the block can be sent. */
  predicate Saved(ts: seq<Token>, l: seq<nat>, d: seq<nat>, f: seq<nat>) {
    && LcsSaved(ts, l) && DistsSaved(ts, d)
    && FlagsSaved(ts, f, |ts| / 8 + 1)
  }

  lemma TallyStart(l: seq<nat>, d: seq<nat>, f: seq<nat>)
    requires |l| == LIT_BUFSIZE && |d| == DIST_BUFSIZE && |f| == LIT_BUFSIZE / 8
    ensures Tallying([], l, d, f, 0, 0, 0, 0, 1)
  {}

  /** Saving the last flags completes the buffers. */
  lemma TallyEnd(ts: seq<Token>, l: seq<nat>, d: seq<nat>, f: seq<nat>,
                 lastLit: nat, lastDist: nat, lastFlags: nat, flags: nat, flagBit: nat)
    requires Tallying(ts, l, d, f, lastLit, lastDist, lastFlags, flags, flagBit)
    ensures lastFlags < |f| && Saved(ts, l, d, f[lastFlags := flags])
  {}

  lemma DistsSnoc(ts: seq<Token>, t: Token)
    requires TokensOk(ts) && t.Ok()
    ensures TokensOk(ts + [t])
    ensures Dists(ts + [t]) == Dists(ts) + if t.Match? then [t.dist - 1] else []
  {
    assert (ts + [t])[..|ts|] == ts;
  }

  /** One more token in the buffers, with its flag in the current flag byte. */
  lemma TallyMore(ts: seq<Token>, l: seq<nat>, d: seq<nat>, f: seq<nat>, l1: seq<nat>, d1: seq<nat>, f1: seq<nat>,
                  lastLit: nat, lastDist: nat, lastFlags: nat, flags: nat, flagBit: nat, t: Token)
    requires Tallying(ts, l, d, f, lastLit, lastDist, lastFlags, flags, flagBit)
    requires lastLit < LIT_BUFSIZE - 1 && t.Ok()
    requires l1 == l[lastLit := Lc(t)]
    requires lastDist < |d| && d1 == if t.Match? then d[lastDist := t.dist - 1] else d
    requires var flags1 := if t.Match? then Or(flags, flagBit) else flags;
             f1 == if (lastLit + 1) % 8 == 0 then f[lastFlags := flags1] else f
    ensures var flags1 := if t.Match? then Or(flags, flagBit) else flags;
            var lastDist1 := if t.Match? then lastDist + 1 else lastDist;
            if (lastLit + 1) % 8 == 0 then
              Tallying(ts + [t], l1, d1, f1, lastLit + 1, lastDist1, lastFlags + 1, 0, 1)
            else
              Tallying(ts + [t], l1, d1, f1, lastLit + 1, lastDist1, lastFlags, flags1, 2 * flagBit)
  {
    hide Pow2, Flags, Dists;
    var g := Group(ts, lastFlags);
    MoreLcs(ts, l, t);
    MoreDists(ts, d, t);
    MoreFlags(g, flags, flagBit, t);
    assert Group(ts + [t], lastFlags) == g + [t];
    var flags1 := if t.Match? then Or(flags, flagBit) else flags;
    assert flags1 == Flags(g + [t]);
    SameGroups(ts, t, f, lastFlags);
    if (lastLit + 1) % 8 == 0 {
      assert Group(ts + [t], lastFlags + 1) == [];
      EmptyFlags();
    } else {
      NextBit(|ts| % 8);
    }
  }

  lemma EmptyFlags()
    ensures Flags([]) == 0 && Pow2(0) == 1
  {}

  lemma NextBit(k: nat)
    ensures Pow2(k + 1) == 2 * Pow2(k)
  {}

  lemma MoreLcs(ts: seq<Token>, l: seq<nat>, t: Token)
    requires LcsSaved(ts, l) && |ts| < |l| && t.Ok()
    ensures LcsSaved(ts + [t], l[|ts| := Lc(t)])
  {}

  lemma MoreDists(ts: seq<Token>, d: seq<nat>, t: Token)
    requires DistsSaved(ts, d) && |Dists(ts)| < |d| && t.Ok()
    ensures TokensOk(ts + [t]) && |Dists(ts + [t])| == |Dists(ts)| + Flag(t)
    ensures DistsSaved(ts + [t], if t.Match? then d[|Dists(ts)| := t.dist - 1] else d)
  {
    DistsSnoc(ts, t);
  }

  lemma MoreFlags(g: seq<Token>, flags: nat, flagBit: nat, t: Token)
    requires flags == Flags(g) && flagBit == Pow2(|g|)
    ensures (if t.Match? then Or(flags, flagBit) else flags) == Flags(g + [t])
  {
    hide Pow2, Flags;
    FlagsSnoc(g, t);
    ShlOne(|g|);
    OrDisjoint(flags, |g|, 1);
  }

  lemma SameGroups(ts: seq<Token>, t: Token, f: seq<nat>, n: nat)
    requires n == |ts| / 8 && FlagsSaved(ts, f, n)
    ensures FlagsSaved(ts + [t], f, n)
  {
    hide Flags;
    forall k: nat | k < n && 8 * k <= |ts + [t]|
      ensures f[k] == Flags(Group(ts + [t], k))
    {
      assert Group(ts + [t], k) == Group(ts, k);
    }
  }

  // ---------- reading the tokens back ----------

  /** The flags of the tokens that follow token `x` in its flag byte. */
  function Ahead(ts: seq<Token>, x: nat): seq<Token>
    requires x <= |ts|
  {
    ts[x..Least(8 * (x / 8) + 8, |ts|)]
  }

  /** `lx` tokens have been read, with the flags of the next ones in `flag`. */
  predicate Unpacking(ts: seq<Token>, lx: nat, dx: nat, fx: nat, flag: nat) {
    && TokensOk(ts) && lx <= |ts| && dx == |Dists(ts[..lx])| && fx == (lx + 7) / 8
    && (lx % 8 != 0 ==> flag == Flags(Ahead(ts, lx)))
  }

  lemma ReadStart(ts: seq<Token>)
    requires TokensOk(ts)
    ensures Unpacking(ts, 0, 0, 0, 0)
  {}

  /** A new flag byte holds the flags of the next tokens. */
  lemma ReadFlags(ts: seq<Token>, l: seq<nat>, d: seq<nat>, f: seq<nat>, lx: nat, dx: nat, fx: nat, flag: nat)
    requires Unpacking(ts, lx, dx, fx, flag) && Saved(ts, l, d, f) && lx < |ts|
    ensures lx % 8 == 0 ==> fx < |f| && f[fx] == Flags(Ahead(ts, lx))
  {
    hide Flags, Dists;
    if lx % 8 == 0 {
      assert Group(ts, fx) == Ahead(ts, lx);
    }
  }

  lemma {:induction false} DistsPrefix(ts: seq<Token>, n: nat)
    requires TokensOk(ts) && n <= |ts|
    ensures Dists(ts[..n]) <= Dists(ts)
    decreases |ts|
  {
    if n < |ts| {
      assert ts[..|ts| - 1][..n] == ts[..n];
      DistsPrefix(ts[..|ts| - 1], n);
    } else {
      assert ts[..n] == ts;
    }
  }

  /** The buffers give the next token and its flag. */
  lemma ReadToken(ts: seq<Token>, l: seq<nat>, d: seq<nat>, f: seq<nat>, lx: nat, dx: nat, fx: nat, flag: nat)
    requires TokensOk(ts) && lx < |ts| && dx == |Dists(ts[..lx])| && fx == (lx + 8) / 8
    requires Saved(ts, l, d, f) && flag == Flags(Ahead(ts, lx))
    ensures var t := ts[lx];
            l[lx] == Lc(t) && flag % 2 == Flag(t) && Unpacking(ts, lx + 1, dx + Flag(t), fx, flag / 2)
    ensures ts[lx].Match? ==> dx < |d| && d[dx] == ts[lx].dist - 1
  {
    hide Dists, Flags, Ahead, FlagsSaved;
    var t := ts[lx];
    DistsStep(ts, lx);
    AheadStep(ts, lx);
    FlagsFirst(Ahead(ts, lx));
    if t.Match? {
      assert Dists(ts[..lx + 1])[dx] == t.dist - 1;
    }
  }

  lemma DistsStep(ts: seq<Token>, lx: nat)
    requires TokensOk(ts) && lx < |ts|
    ensures var t := ts[lx];
            && Dists(ts[..lx + 1]) == Dists(ts[..lx]) + (if t.Match? then [t.dist - 1] else [])
            && Dists(ts[..lx + 1]) <= Dists(ts)
  {
    hide Dists, TokensOk;
    var front, t := ts[..lx], ts[lx];
    OkParts(ts, lx);
    assert front + [t] == ts[..lx + 1];
    DistsSnoc(front, t);
    DistsPrefix(ts, lx + 1);
  }

  lemma OkParts(ts: seq<Token>, lx: nat)
    requires TokensOk(ts) && lx < |ts|
    ensures TokensOk(ts[..lx]) && ts[lx].Ok() && TokensOk(ts[..lx + 1])
  {}

  lemma AheadStep(ts: seq<Token>, lx: nat)
    requires lx < |ts|
    ensures Ahead(ts, lx) != [] && Ahead(ts, lx)[0] == ts[lx]
    ensures (lx + 1) % 8 != 0 ==> Ahead(ts, lx)[1..] == Ahead(ts, lx + 1)
  {}

  lemma FlagsFirst(ts: seq<Token>)
    requires ts != []
    ensures Flags(ts) % 2 == Flag(ts[0]) && Flags(ts) / 2 == Flags(ts[1..])
  {}
}
