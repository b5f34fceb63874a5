/** The rewritings of an LZO1X block that keep its length and what it decodes to. */
module LzoRewrites {
  import opened Wrappers
  import opened Numbers
  import opened Bits
  import opened Rfc1951
  import opened Lzo1x

  /** `x` with its two low bits replaced. */
  function WithTail(x: byte, tail: nat): byte
    requires tail <= 3
  {
    x / 4 * 4 + tail
  }

  /** `y` differs from `x` in the two low bits only, which hold `tail`. */
  predicate TailOf(x: nat, y: nat, tail: nat) {
    && y / 4 == x / 4 && y % 4 == tail && y / 32 == x / 32 && y / 8 == x / 8
    && (y >= 64 <==> x >= 64) && (y >= 32 <==> x >= 32) && (y >= 16 <==> x >= 16)
  }

  lemma TailParts(x: byte, tail: nat)
    requires tail <= 3
    ensures TailOf(x, WithTail(x, tail), tail)
  {
    var q, y: nat, z: nat := x / 4, WithTail(x, tail), x;
    DivMod(y, 4, q, tail);
    Quarters(y);
    Quarters(z);
  }

  lemma Quarters(v: nat)
    ensures v / 8 == v / 4 / 2 && v / 32 == v / 4 / 8
    ensures (v >= 64 <==> v / 4 >= 16) && (v >= 32 <==> v / 4 >= 8) && (v >= 16 <==> v / 4 >= 4)
  {}

  /** The number of literals after a match stands in the byte two before them. */
  lemma TailAt(s: seq<byte>, ip: nat, mode: Mode)
    requires ReadOp(s, ip, mode).Some? && ReadOp(s, ip, mode).value.op.Match?
    ensures var f := ReadOp(s, ip, mode).value;
            ip + 2 <= f.next && s[f.next - 2] % 4 == f.op.tail <= 3 && f.op.len >= 2 && f.op.dist >= 1
  {
    hide ReadLength;
  }

  /** Changing those two bits changes nothing but that number. */
  lemma SetTail(s: seq<byte>, t: seq<byte>, ip: nat, mode: Mode, tail: nat)
    requires ReadOp(s, ip, mode).Some? && ReadOp(s, ip, mode).value.op.Match? && tail <= 3
    requires var f := ReadOp(s, ip, mode).value;
             ip + 2 <= f.next && Agree(s, t, ip, f.next - 2) && Agree(s, t, f.next - 1, f.next)
             && t[f.next - 2] == WithTail(s[f.next - 2], tail)
    ensures var f := ReadOp(s, ip, mode).value;
            ReadOp(t, ip, mode) == Some(Found(Match(f.op.len, f.op.dist, tail), f.next))
  {
    hide ReadLength, ReadCount, WithTail, NearMatch, FarMatch;
    var v: nat := s[ip];
    TailParts(s[ReadOp(s, ip, mode).value.next - 2], tail);
    if 16 <= v < 64 {
      FarNext(s, ip, mode);
      assert t[ip] == s[ip];
      var f := ReadOp(s, ip, mode).value;
      if v >= 32 {
        LengthLocal(s, t, ip + 1, v % 32, 31);
        SetNear(s, t, ReadLength(s, ip + 1, v % 32, 31).value.0, f.next - 2, tail);
      } else {
        LengthLocal(s, t, ip + 1, v % 8, 7);
        SetFar(s, t, ReadLength(s, ip + 1, v % 8, 7).value.0, f.next - 2, v / 8 % 2 * 0x4000, tail);
      }
    } else {
      ShortNext(s, ip, mode);
      assert s[ip + 1] == t[ip + 1];
    }
  }

  lemma ShortNext(s: seq<byte>, ip: nat, mode: Mode)
    requires ReadOp(s, ip, mode).Some? && ReadOp(s, ip, mode).value.op.Match? && !(16 <= s[ip] < 64)
    ensures ReadOp(s, ip, mode).value.next == ip + 2 && (s[ip] < 16 ==> mode != Main)
  {
    hide ReadLength;
  }

  lemma FarNext(s: seq<byte>, ip: nat, mode: Mode)
    requires ReadOp(s, ip, mode).Some? && 16 <= s[ip] < 64
    ensures ip + 3 <= ReadOp(s, ip, mode).value.next
  {
    hide ReadLength;
  }

  lemma SetNear(s: seq<byte>, t: seq<byte>, l: nat, p: nat, tail: nat)
    requires |s| == |t| && p + 2 <= |s| && s[p + 1] == t[p + 1] && TailOf(s[p], t[p], tail)
    ensures NearMatch(s, l, p).Some?
    ensures var f := NearMatch(s, l, p).value;
                NearMatch(t, l, p) == Some(Found(Match(f.op.len, f.op.dist, tail), f.next))
  {}

  lemma SetFar(s: seq<byte>, t: seq<byte>, l: nat, p: nat, far: nat, tail: nat)
    requires |s| == |t| && p + 2 <= |s| && s[p + 1] == t[p + 1] && TailOf(s[p], t[p], tail)
    requires FarMatch(s, l, p, far).Some? && FarMatch(s, l, p, far).value.op.Match?
    ensures var f := FarMatch(s, l, p, far).value;
                FarMatch(t, l, p, far) == Some(Found(Match(f.op.len, f.op.dist, tail), f.next))
  {}

  /** The last step was a match, with `lit` literals after it counted in the byte at `litp`. */
  predicate AfterMatch(s: seq<byte>, p: Config, c: Config, litp: nat, lit: nat) {
    && Step(s, p) == Some(c) && lit <= 3 && c.ip == litp + 2 + lit
    && ReadOp(s, p.ip, p.mode).Some? && ReadOp(s, p.ip, p.mode).value.op.Match?
    && ReadOp(s, p.ip, p.mode).value.op.tail == lit && ReadOp(s, p.ip, p.mode).value.next == litp + 2
    && p.ip <= litp
  }

  /** The last step was a run of `lit` literals, whose instruction starts at `litp`. */
  predicate AfterRun(s: seq<byte>, p: Config, c: Config, litp: nat, lit: nat) {
    && Step(s, p) == Some(c) && lit > 3 && p.mode == Main && p.ip == litp && c.mode == Run
    && (lit < 16 ==> litp < |s| && s[litp] == lit - 3 && c.ip == litp + 1 + lit)
  }

  /** Same length, and the same bytes except in `a` to `b`. */
  predicate SameBut(s: seq<byte>, t: seq<byte>, a: nat, b: nat) {
    |s| == |t| && forall i :: 0 <= i < |s| && !(a <= i < b) ==> s[i] == t[i]
  }

  /** What a match contributes before its literals. */
  lemma MatchStep(s: seq<byte>, p: Config, c: Config, litp: nat, lit: nat)
    requires AfterMatch(s, p, c, litp, lit)
    ensures var f := ReadOp(s, p.ip, p.mode).value;
            && 1 <= f.op.dist <= |p.out| && c.ip <= |s| && c.mode == (if lit == 0 then Main else Short)
            && c.out == Copy(p.out, f.op.len, f.op.dist) + s[litp + 2..c.ip]
  {
    hide ReadOp, Copy;
  }

  /** A short run takes in the bytes `x` that a following match stood for. */
  lemma Grow(s: seq<byte>, t: seq<byte>, p: Config, c: Config, litp: nat, lit: nat, x: seq<byte>)
    requires AfterMatch(s, p, c, litp, lit) && lit + |x| == 3 && c.ip + |x| <= |s| == |t|
    requires t[litp] == WithTail(s[litp], 3) && t[c.ip..c.ip + |x|] == x
    requires Agree(s, t, p.ip, litp) && Agree(s, t, litp + 1, c.ip)
    ensures Step(t, p) == Some(Config(c.ip + |x|, Short, c.out + x))
  {
    hide ReadOp, Copy, WithTail;
    MatchStep(s, p, c, litp, lit);
    SetTail(s, t, p.ip, p.mode, 3);
    SliceLocal(s, t, litp + 2, c.ip);
    assert t[litp + 2..c.ip + |x|] == t[litp + 2..c.ip] + t[c.ip..c.ip + |x|];
    var f := ReadOp(s, p.ip, p.mode).value;
    Assoc(Copy(p.out, f.op.len, f.op.dist), s[litp + 2..c.ip], x);
  }

  lemma RunStep(t: seq<byte>, ip: nat, out: seq<byte>)
    requires ip < |t| && 0 < t[ip] < 16 && ip + 1 + t[ip] + 3 <= |t|
    ensures Step(t, Config(ip, Main, out))
         == Some(Config(ip + 1 + t[ip] + 3, Run, out + t[ip + 1..ip + 1 + t[ip] + 3]))
  {}

  /** A short run and the bytes `x` of a match go into the literal run that follows. */
  lemma Merge(s: seq<byte>, t: seq<byte>, p: Config, c: Config, litp: nat, lit: nat, x: seq<byte>, n: nat)
    requires AfterMatch(s, p, c, litp, lit) && 0 < n && lit + |x| + n < 16
    requires c.ip + |x| + 1 + n + 3 <= |s| == |t|
    requires Agree(s, t, p.ip, litp) && litp + 2 < |t| && t[litp] == WithTail(s[litp], 0)
    requires t[litp + 1] == s[litp + 1]
    requires t[litp + 2] == lit + |x| + n && t[litp + 3..c.ip + 1] == s[litp + 2..c.ip]
    requires t[c.ip + 1..c.ip + 1 + |x|] == x && Agree(s, t, c.ip + |x| + 1, |s|)
    ensures exists m :: Step(t, p) == Some(m) && m.ip == litp + 2 && m.mode == Main
              && Step(t, m)
                   == Some(Config(c.ip + |x| + 1 + n + 3, Run, c.out + x + s[c.ip + |x| + 1..c.ip + |x| + 1 + n + 3]))
  {
    hide ReadOp, Copy, WithTail;
    MatchStep(s, p, c, litp, lit);
    var f := ReadOp(s, p.ip, p.mode).value;
    var o := Copy(p.out, f.op.len, f.op.dist);
    var e := c.ip + |x| + 1 + n + 3;
    Cleared(s, t, p, c, litp, lit);
    RunStep(t, litp + 2, o);
    SliceLocal(s, t, c.ip + 1 + |x|, e);
    ThreeSlices(t, litp + 3, c.ip + 1, c.ip + 1 + |x|, e);
    FourParts(o, s[litp + 2..c.ip], x, s[c.ip + |x| + 1..e]);
  }

  lemma FourParts(a: seq<byte>, b: seq<byte>, c: seq<byte>, d: seq<byte>)
    ensures a + (b + c + d) == a + b + c + d
  {
    Assoc(a, b + c, d);
    Assoc(a, b, c);
  }

  /** With its count cleared, the match before a short run stands alone. */
  lemma Cleared(s: seq<byte>, t: seq<byte>, p: Config, c: Config, litp: nat, lit: nat)
    requires AfterMatch(s, p, c, litp, lit) && c.ip <= |s| == |t|
    requires Agree(s, t, p.ip, litp) && litp + 2 < |t| && t[litp] == WithTail(s[litp], 0)
    requires t[litp + 1] == s[litp + 1]
    ensures var f := ReadOp(s, p.ip, p.mode).value;
            1 <= f.op.dist <= |p.out| && Step(t, p) == Some(Config(litp + 2, Main, Copy(p.out, f.op.len, f.op.dist)))
  {
    hide ReadOp, Copy, WithTail;
    MatchStep(s, p, c, litp, lit);
    SetTail(s, t, p.ip, p.mode, 0);
    var f := ReadOp(s, p.ip, p.mode).value;
    assert t[litp + 2..litp + 2] == [];
    assert Copy(p.out, f.op.len, f.op.dist) + [] == Copy(p.out, f.op.len, f.op.dist);
  }

  lemma ThreeSlices(t: seq<byte>, i: nat, a: nat, b: nat, e: nat)
    requires i <= a <= b <= e <= |t|
    ensures t[i..e] == t[i..a] + t[a..b] + t[b..e]
  {}

  /** Two literal runs and the three bytes `x` of the match between them become one run. */
  lemma Join(s: seq<byte>, t: seq<byte>, p: Config, c: Config, litp: nat, lit: nat, x: seq<byte>, n: nat)
    requires AfterRun(s, p, c, litp, lit) && |x| == 3 && 0 < n && lit + 3 + n < 16
    requires c.ip + 3 + n + 3 <= |s| == |t| && t[litp] == lit + 3 + n
    requires Agree(s, t, litp + 1, c.ip) && t[c.ip..c.ip + 3] == x && Agree(s, t, c.ip + 3, |s|)
    ensures Step(t, p) == Some(Config(c.ip + 3 + n + 3, Run, c.out + x + s[c.ip + 3..c.ip + 3 + n + 3]))
  {
    hide ReadOp;
    RunStep(s, litp, p.out);
    RunStep(t, litp, p.out);
    var e := c.ip + 3 + n + 3;
    assert p == Config(litp, Main, p.out);
    SliceLocal(s, t, litp + 1, c.ip);
    SliceLocal(s, t, c.ip + 3, e);
    ThreeSlices(t, litp + 1, c.ip, c.ip + 3, e);
    FourParts(p.out, s[litp + 1..c.ip], x, s[c.ip + 3..e]);
  }

  // ---------- the bytes a short match stands for ----------

  /** The first two or three bytes of a match at distance `dist`, which may overlap what it copies. */
  function Copied(out: seq<byte>, dist: nat, k: nat): (x: seq<byte>)
    requires 1 <= dist <= |out| && (k == 2 || k == 3)
    ensures |x| == k
  {
    var m := |out| - dist;
    if k == 2 then [out[m], if dist == 1 then out[m] else out[m + 1]]
    else if dist == 1 then [out[m], out[m], out[m]]
    else if dist == 2 then [out[m], out[m + 1], out[m]]
    else [out[m], out[m + 1], out[m + 2]]
  }

  lemma CopiedIs(out: seq<byte>, dist: nat, k: nat)
    requires 1 <= dist <= |out| && (k == 2 || k == 3)
    ensures Copy(out, k, dist) == out + Copied(out, dist, k)
  {
    var m := |out| - dist;
    var o1 := out + [out[m]];
    var o2 := o1 + [o1[m + 1]];
    assert Copy(out, k, dist) == Copy(o1, k - 1, dist) == Copy(o2, k - 2, dist);
    if k == 3 { assert Copy(o2, 1, dist) == Copy(o2 + [o2[m + 2]], 0, dist) == o2 + [o2[m + 2]]; }
  }

  // ---------- the start of the block ----------

  /** A match is never the first instruction, so rewriting after one keeps how the block starts. */
  lemma {:induction false} NotFirst(s: seq<byte>, cs: seq<Config>, k: nat)
    requires Path(s, cs) && k < |cs| && cs[k].out != []
    ensures cs[0].ip <= cs[k].ip && cs[k].ip >= 1
  {
    hide Step;
    PathGrows(s, cs, 0, k);
    if k > 0 {
      PathGrows(s, cs, 0, k - 1);
      assert Step(s, cs[k - 1]) == Some(cs[k - 1 + 1]);
    }
  }
}
