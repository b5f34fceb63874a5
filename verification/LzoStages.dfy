/** Where the LZO1X optimiser stands between two instructions, and what each of its rewritings keeps. */
module LzoStages {
  import opened Wrappers
  import opened Bits
  import opened Rfc1951
  import opened Lzo1x
  import opened LzoRewrites

  /**
   * The block has been rewritten to `b`, whose decoder went through `cs`, and is now where the
   * original decoder is.
   */
  predicate Reached(b: seq<byte>, cs: seq<Config>, c: Config) {
    && Path(b, cs) && cs != []
    && var e := cs[|cs| - 1];
       e.ip == c.ip && e.out == c.out && (e.mode == c.mode || (c.mode == Main && c.ip < |b| && b[c.ip] >= 16))
  }

  /** What the last instruction was, if it can be rewritten. */
  predicate Recent(b: seq<byte>, cs: seq<Config>, litp: int, lit: nat) {
    litp >= 0 ==>
      && |cs| >= 2 && litp < |b|
      && (AfterMatch(b, cs[|cs| - 2], cs[|cs| - 1], litp, lit) || AfterRun(b, cs[|cs| - 2], cs[|cs| - 1], litp, lit))
  }

  /** The original block `s` goes on from `c` to the result `res`; so far `b` has done the same. */
  predicate Stage(s: seq<byte>, res: (seq<byte>, nat), b: seq<byte>, cs: seq<Config>, c: Config, litp: int,
                  lit: nat) {
    && DecodeFrom(s, c) == Some(res) && Agree(b, s, c.ip, |b|) && c.ip <= |b|
    && Reached(b, cs, c) && Recent(b, cs, litp, lit)
  }

  lemma FirstStage(s: seq<byte>, res: (seq<byte>, nat))
    requires Decode(s) == Some(res)
    ensures Start(s).Some? && Start(s).value.ip <= |s|
    ensures Stage(s, res, s, [Start(s).value], Start(s).value, -1, 0)
  {}

  /** Both blocks have the same instruction next. */
  lemma SameOp(s: seq<byte>, res: (seq<byte>, nat), b: seq<byte>, cs: seq<Config>, c: Config, litp: int, lit: nat)
    requires Stage(s, res, b, cs, c, litp, lit)
    ensures var e := cs[|cs| - 1];
            ReadOp(s, c.ip, c.mode).Some?
            && ReadOp(b, c.ip, c.mode) == ReadOp(b, e.ip, e.mode) == ReadOp(s, c.ip, c.mode)
  {
    hide ReadOp, AfterMatch, AfterRun, Path;
    var e := cs[|cs| - 1];
    ReadLocal(s, b, c.ip, c.mode);
    if e.mode != c.mode { ModeFree(b, c.ip, e.mode, c.mode); }
  }

  /** An instruction that is kept as it is. */
  lemma SameStep(s: seq<byte>, res: (seq<byte>, nat), b: seq<byte>, cs: seq<Config>, c: Config, litp: int, lit: nat)
    requires Stage(s, res, b, cs, c, litp, lit) && !ReadOp(s, c.ip, c.mode).value.op.End?
    ensures var d := Step(s, c);
            && d.Some? && d.value.ip <= |b| && Step(b, cs[|cs| - 1]) == d && Path(b, cs + [d.value])
            && DecodeFrom(s, d.value) == Some(res) && Agree(b, s, d.value.ip, |b|)
  {
    hide ReadOp, AfterMatch, AfterRun, Copy, Path;
    SameOp(s, res, b, cs, c, litp, lit);
    var f, d := ReadOp(s, c.ip, c.mode).value, Step(s, c).value;
    SliceLocal(b, s, f.next, d.ip);
    PathMore(b, cs, d);
  }

  lemma EndStage(s: seq<byte>, res: (seq<byte>, nat), b: seq<byte>, cs: seq<Config>, c: Config, litp: int, lit: nat)
    requires Stage(s, res, b, cs, c, litp, lit) && ReadOp(s, c.ip, c.mode).value.op.End?
    ensures Decode(b) == Some(res) && res == (c.out, ReadOp(s, c.ip, c.mode).value.next)
  {
    hide ReadOp, AfterMatch, AfterRun, Path;
    SameOp(s, res, b, cs, c, litp, lit);
    DecodeAlong(b, cs);
  }

  lemma PlainStage(s: seq<byte>, res: (seq<byte>, nat), b: seq<byte>, cs: seq<Config>, c: Config, litp: int, lit: nat)
    requires Stage(s, res, b, cs, c, litp, lit) && ReadOp(s, c.ip, c.mode).value.op.Match?
    ensures var f, d := ReadOp(s, c.ip, c.mode).value, Step(s, c);
            d.Some? && f.next >= 2 && Stage(s, res, b, cs + [d.value], d.value, f.next - 2, f.op.tail)
  {
    hide ReadOp, Copy, Path, DecodeFrom;
    SameOp(s, res, b, cs, c, litp, lit);
    SameStep(s, res, b, cs, c, litp, lit);
    TailAt(b, c.ip, c.mode);
    LastTwo(cs, Step(s, c).value);
  }

  lemma LastTwo(cs: seq<Config>, d: Config)
    requires cs != []
    ensures (cs + [d])[|cs + [d]| - 1] == d && (cs + [d])[|cs + [d]| - 2] == cs[|cs| - 1]
  {}

  lemma RunStage(s: seq<byte>, res: (seq<byte>, nat), b: seq<byte>, cs: seq<Config>, c: Config, litp: int, lit: nat)
    requires Stage(s, res, b, cs, c, litp, lit) && ReadOp(s, c.ip, c.mode).value.op.Lits?
    ensures var f, d := ReadOp(s, c.ip, c.mode).value, Step(s, c);
            d.Some? && Stage(s, res, b, cs + [d.value], d.value, c.ip, f.op.n)
  {
    hide ReadOp, Copy, Path, DecodeFrom;
    SameOp(s, res, b, cs, c, litp, lit);
    SameStep(s, res, b, cs, c, litp, lit);
    RunOp(b, c.ip, c.mode);
    LastTwo(cs, Step(s, c).value);
  }

  lemma RunOp(b: seq<byte>, ip: nat, mode: Mode)
    requires ReadOp(b, ip, mode).Some? && ReadOp(b, ip, mode).value.op.Lits?
    ensures var f := ReadOp(b, ip, mode).value;
            mode == Main && b[ip] < 16 && f.op.n > 3 && (f.op.n < 16 ==> b[ip] == f.op.n - 3 && f.next == ip + 1)
  {
    hide ReadCount;
  }

  /** Where the next instruction is, there is a byte. */
  lemma NextByte(s: seq<byte>, c: Config)
    requires DecodeFrom(s, c).Some?
    ensures c.ip < |s|
  {}

  /** The original decoder goes over a match without literals, whose bytes are `x`. */
  lemma OverMatch(s: seq<byte>, res: (seq<byte>, nat), c: Config, k: nat)
    requires DecodeFrom(s, c) == Some(res) && (k == 2 || k == 3)
    requires ReadOp(s, c.ip, c.mode).Some? && ReadOp(s, c.ip, c.mode).value.op.Match?
    requires var op := ReadOp(s, c.ip, c.mode).value.op; op.len == k && op.tail == 0
    ensures var f := ReadOp(s, c.ip, c.mode).value;
            && 1 <= f.op.dist <= |c.out|
            && DecodeFrom(s, Config(f.next, Main, c.out + Copied(c.out, f.op.dist, k))) == Some(res)
            && f.next < |s|
  {
    hide ReadOp, Copy, Copied;
    var f := ReadOp(s, c.ip, c.mode).value;
    CopiedIs(c.out, f.op.dist, k);
    var d := Config(f.next, Main, c.out + Copied(c.out, f.op.dist, k));
    assert s[f.next..f.next] == [];
    assert Copy(c.out, k, f.op.dist) + [] == Copy(c.out, k, f.op.dist);
    DecodeStep(s, c, d);
    NextByte(s, d);
  }

  lemma ShortRunOp(s: seq<byte>, ip: nat)
    requires ip < |s| && 0 < s[ip] < 16
    ensures ReadOp(s, ip, Main) == Some(Found(Lits(s[ip] + 3), ip + 1))
  {
    hide ReadCount;
  }

  /** Where decoding goes on, there is an instruction, and a step unless it is the end. */
  lemma DecodesOn(s: seq<byte>, d: Config)
    requires DecodeFrom(s, d).Some?
    ensures ReadOp(s, d.ip, d.mode).Some?
    ensures !ReadOp(s, d.ip, d.mode).value.op.End? ==> Step(s, d).Some?
  {
    hide ReadOp, Step;
  }

  /** ... and then over a short instruction for `n + 3` literals. */
  lemma OverRun(s: seq<byte>, res: (seq<byte>, nat), d: Config)
    requires DecodeFrom(s, d) == Some(res) && d.mode == Main && d.ip < |s| && 0 < s[d.ip] < 16
    ensures var e := d.ip + 1 + s[d.ip] + 3;
            e <= |s| && DecodeFrom(s, Config(e, Run, d.out + s[d.ip + 1..e])) == Some(res)
  {
    hide ReadOp, Copy, DecodeFrom;
    var e := d.ip + 1 + s[d.ip] + 3;
    DecodesOn(s, d);
    ShortRunOp(s, d.ip);
    RunStep(s, d.ip, d.out);
    DecodeStep(s, d, Config(e, Run, d.out + s[d.ip + 1..e]));
  }

  lemma OverBoth(s: seq<byte>, res: (seq<byte>, nat), c: Config, k: nat)
    requires DecodeFrom(s, c) == Some(res) && (k == 2 || k == 3)
    requires ReadOp(s, c.ip, c.mode).Some? && ReadOp(s, c.ip, c.mode).value.op.Match?
    requires var op := ReadOp(s, c.ip, c.mode).value.op; op.len == k && op.tail == 0
    requires var next := ReadOp(s, c.ip, c.mode).value.next; next < |s| && 0 < s[next] < 16
    ensures var f := ReadOp(s, c.ip, c.mode).value;
            var e := f.next + 1 + s[f.next] + 3;
            1 <= f.op.dist <= |c.out| && e <= |s|
            && DecodeFrom(s, Config(e, Run, c.out + Copied(c.out, f.op.dist, k) + s[f.next + 1..e])) == Some(res)
  {
    hide ReadOp, Copied, DecodeFrom;
    OverMatch(s, res, c, k);
    var f := ReadOp(s, c.ip, c.mode).value;
    OverRun(s, res, Config(f.next, Main, c.out + Copied(c.out, f.op.dist, k)));
  }

  /** Rewriting behind a match keeps how the block starts, and the path up to that match. */
  lemma PathBefore(b: seq<byte>, t: seq<byte>, cs: seq<Config>, litp: nat, lit: nat)
    requires Path(b, cs) && |cs| >= 2 && litp < |b| == |t|
    requires AfterMatch(b, cs[|cs| - 2], cs[|cs| - 1], litp, lit)
             || AfterRun(b, cs[|cs| - 2], cs[|cs| - 1], litp, lit)
    requires Agree(b, t, 0, litp)
    requires (AfterRun(b, cs[|cs| - 2], cs[|cs| - 1], litp, lit) ==> b[litp] < 16 && t[litp] < 16)
    ensures Path(t, cs[..|cs| - 1]) && cs[..|cs| - 1][|cs| - 2] == cs[|cs| - 2]
  {
    hide ReadOp, Copy;
    var n := |cs| - 1;
    var p := cs[n - 1];
    PathGrows(b, cs, 0, n - 1);
    PathLess(b, cs, n);
    if AfterMatch(b, p, cs[n], litp, lit) {
      MatchStep(b, p, cs[n], litp, lit);
      NotFirst(b, cs, n - 1);
    }
    hide Path, AfterMatch, AfterRun;
    StartKept(b, t, cs[0], litp);
    FirstOf(b, cs);
    PathLocal(b, t, cs[..n]);
  }

  lemma FirstOf(b: seq<byte>, cs: seq<Config>)
    requires Path(b, cs)
    ensures Start(b) == Some(cs[0])
  {}

  lemma StartKept(b: seq<byte>, t: seq<byte>, c: Config, litp: nat)
    requires Start(b) == Some(c) ==> c.ip <= litp
    requires litp < |b| == |t| && Agree(b, t, 0, litp) && (litp == 0 ==> b[litp] < 16 && t[litp] < 16)
    ensures Start(b) == Some(c) ==> Start(t) == Start(b)
  {
    if Start(b) == Some(c) { StartLocal(b, t); }
  }

  /**
   * A match of `k` bytes, where the `lit` literals before it leave room for them in the count of the
   * match before.
   */
  lemma GrowStage(s: seq<byte>, res: (seq<byte>, nat), b: seq<byte>, t: seq<byte>, cs: seq<Config>, c: Config,
                  litp: nat, lit: nat, k: nat)
    requires Stage(s, res, b, cs, c, litp, lit) && lit + k == 3 && 2 <= k
    requires ReadOp(s, c.ip, c.mode).value.op.Match? && ReadOp(s, c.ip, c.mode).value.next == c.ip + k
    requires var op := ReadOp(s, c.ip, c.mode).value.op; op.len == k && op.tail == 0 && 1 <= op.dist <= |c.out|
    requires c.ip + k < |b| && b[c.ip + k] >= 16
    requires |t| == |b| && Agree(b, t, 0, litp) && Agree(b, t, litp + 1, c.ip) && Agree(b, t, c.ip + k, |b|)
    requires t[litp] == WithTail(b[litp], 3)
    requires t[c.ip..c.ip + k] == Copied(c.out, ReadOp(s, c.ip, c.mode).value.op.dist, k)
    ensures var x := Copied(c.out, ReadOp(s, c.ip, c.mode).value.op.dist, k);
            Stage(s, res, t, cs[..|cs| - 1] + [Config(c.ip + k, Short, c.out + x)],
                  Config(c.ip + k, Main, c.out + x), litp, 3)
  {
    hide ReadOp, Copy, Copied, WithTail, Path, DecodeFrom;
    SameOp(s, res, b, cs, c, litp, lit);
    var f := ReadOp(s, c.ip, c.mode).value;
    var x := Copied(c.out, f.op.dist, k);
    var p, e := cs[|cs| - 2], cs[|cs| - 1];
    OverMatch(s, res, c, k);
    assert AfterMatch(b, p, e, litp, lit);
    Grow(b, t, p, e, litp, lit, x);
    PathBefore(b, t, cs, litp, lit);
    var q := cs[..|cs| - 1];
    PathMore(t, q, Config(c.ip + k, Short, c.out + x));
    LastTwo(q, Config(c.ip + k, Short, c.out + x));
    GrownTail(b, t, p, e, litp, lit);
    assert t[c.ip + k] == b[c.ip + k];
  }

  lemma GrownTail(b: seq<byte>, t: seq<byte>, p: Config, e: Config, litp: nat, lit: nat)
    requires AfterMatch(b, p, e, litp, lit) && e.ip <= |b| == |t|
    requires Agree(b, t, 0, litp) && Agree(b, t, litp + 1, e.ip) && t[litp] == WithTail(b[litp], 3)
    ensures ReadOp(t, p.ip, p.mode).Some? && ReadOp(t, p.ip, p.mode).value.op.Match?
    ensures ReadOp(t, p.ip, p.mode).value.op.tail == 3 && ReadOp(t, p.ip, p.mode).value.next == litp + 2
  {
    hide ReadOp, WithTail, Copy;
    SetTail(b, t, p.ip, p.mode, 3);
  }

  /** A match of `k` bytes between a short run and a literal run, which become one literal run. */
  lemma MergeStage(s: seq<byte>, res: (seq<byte>, nat), b: seq<byte>, t: seq<byte>, cs: seq<Config>, c: Config,
                   litp: nat, lit: nat,
                   k: nat, next: nat) returns (cs': seq<Config>)
    requires Stage(s, res, b, cs, c, litp, lit) && lit <= 3 && (k == 2 || k == 3)
    requires ReadOp(s, c.ip, c.mode).value.op.Match? && ReadOp(s, c.ip, c.mode).value.next == next == c.ip + k
    requires var op := ReadOp(s, c.ip, c.mode).value.op; op.len == k && op.tail == 0 && 1 <= op.dist <= |c.out|
    requires next < |b| == |t| && 0 < b[next] < 16 && lit + k + b[next] < 16
    requires Agree(b, t, 0, litp) && t[litp] == WithTail(b[litp], 0) && litp + 2 < |t| && t[litp + 1] == b[litp + 1]
    requires t[litp + 2] == lit + k + b[next] && c.ip + 1 <= |t| && litp + 2 <= c.ip
    requires t[litp + 3..c.ip + 1] == b[litp + 2..c.ip]
    requires t[c.ip + 1..next + 1] == Copied(c.out, ReadOp(s, c.ip, c.mode).value.op.dist, k)
    requires Agree(b, t, next + 1, |b|)
    ensures var o, e := c.out + Copied(c.out, ReadOp(s, c.ip, c.mode).value.op.dist, k), next + 1 + b[next] + 3;
            e <= |s| && Stage(s, res, t, cs', Config(e, Run, o + s[next + 1..e]), litp + 2, lit + k + b[next] + 3)
  {
    hide ReadOp, Copy, Copied, WithTail, Path, DecodeFrom, Step;
    SameOp(s, res, b, cs, c, litp, lit);
    var f := ReadOp(s, c.ip, c.mode).value;
    var x := Copied(c.out, f.op.dist, k);
    var p, l := cs[|cs| - 2], cs[|cs| - 1];
    var n := b[next];
    var o, e := c.out + x, next + 1 + n + 3;
    assert s[next] == n;
    OverBoth(s, res, c, k);
    assert AfterMatch(b, p, l, litp, lit);
    Merge(b, t, p, l, litp, lit, x, n);
    var m :| Step(t, p) == Some(m) && m.ip == litp + 2 && m.mode == Main
             && Step(t, m) == Some(Config(e, Run, o + b[next + 1..e]));
    SliceLocal(b, s, next + 1, e);
    var d := Config(e, Run, o + s[next + 1..e]);
    PathBefore(b, t, cs, litp, lit);
    cs' := TwoMore(t, cs[..|cs| - 1], m, d);
    assert AfterRun(t, m, d, litp + 2, lit + k + n + 3);
  }

  lemma TwoMore(t: seq<byte>, q: seq<Config>, m: Config, d: Config) returns (cs: seq<Config>)
    requires Path(t, q) && Step(t, q[|q| - 1]) == Some(m) && Step(t, m) == Some(d)
    ensures Path(t, cs) && |cs| >= 2 && cs[|cs| - 1] == d && cs[|cs| - 2] == m
  {
    hide Step;
    PathMore(t, q, m);
    LastTwo(q, m);
    PathMore(t, q + [m], d);
    LastTwo(q + [m], d);
    cs := q + [m] + [d];
  }

  /** A match of three bytes between two literal runs, which become one. */
  lemma JoinStage(s: seq<byte>, res: (seq<byte>, nat), b: seq<byte>, t: seq<byte>, cs: seq<Config>, c: Config,
                  litp: nat, lit: nat, next: nat)
    returns (cs': seq<Config>)
    requires Stage(s, res, b, cs, c, litp, lit) && lit > 3
    requires ReadOp(s, c.ip, c.mode).value.op.Match? && ReadOp(s, c.ip, c.mode).value.next == next == c.ip + 2
    requires var op := ReadOp(s, c.ip, c.mode).value.op; op.len == 3 && op.tail == 0 && 1 <= op.dist <= |c.out|
    requires next < |b| == |t| && 0 < b[next] < 16 && lit + 3 + b[next] < 16
    requires Agree(b, t, 0, litp) && t[litp] == lit + 3 + b[next] && Agree(b, t, litp + 1, c.ip)
    requires t[c.ip..next + 1] == Copied(c.out, ReadOp(s, c.ip, c.mode).value.op.dist, 3)
    requires Agree(b, t, next + 1, |b|)
    ensures var o, e := c.out + Copied(c.out, ReadOp(s, c.ip, c.mode).value.op.dist, 3), next + 1 + b[next] + 3;
            e <= |s| && Stage(s, res, t, cs', Config(e, Run, o + s[next + 1..e]), litp, lit + 3 + b[next] + 3)
  {
    hide ReadOp, Copy, Copied, Path, DecodeFrom;
    SameOp(s, res, b, cs, c, litp, lit);
    var f := ReadOp(s, c.ip, c.mode).value;
    var x := Copied(c.out, f.op.dist, 3);
    var p, l := cs[|cs| - 2], cs[|cs| - 1];
    var n := b[next];
    var o, e := c.out + x, next + 1 + n + 3;
    assert s[next] == n;
    OverBoth(s, res, c, 3);
    assert AfterRun(b, p, l, litp, lit);
    Join(b, t, p, l, litp, lit, x, n);
    SliceLocal(b, s, next + 1, e);
    var d := Config(e, Run, o + s[next + 1..e]);
    PathBefore(b, t, cs, litp, lit);
    var q := cs[..|cs| - 1];
    PathMore(t, q, d);
    LastTwo(q, d);
    assert AfterRun(t, p, d, litp, lit + 3 + n + 3);
    cs' := q + [d];
  }
}
