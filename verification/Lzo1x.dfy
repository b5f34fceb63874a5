/** Decoding LZO1X blocks, one instruction at a time. */
module Lzo1x {
  import opened Wrappers
  import opened Bits
  import opened Rfc1951

  /** What a byte below 16 means: a literal run, a match next to literals, or a match after a run. */
  datatype Mode = Main | Short | Run

  datatype Op =
    | Lits(n: nat)                             // a run of literals
    | Match(len: nat, dist: nat, tail: nat)    // a match, and up to three literals after it
    | End

  /** An instruction, and where its literals start. */
  datatype Found = Found(op: Op, next: nat)

  /** A count that goes on: every zero byte stands for 255 more. */
  function ReadCount(s: seq<byte>, ip: nat, base: nat): (r: Option<(nat, nat)>)
    ensures r.Some? ==> ip < r.value.1 <= |s| && r.value.0 > base
    decreases |s| - ip
  {
    if ip >= |s| then None
    else if s[ip] == 0 then ReadCount(s, ip + 1, base + 255)
    else Some((base + s[ip], ip + 1))
  }

  /** The length field of an instruction: `t`, or a count that goes on if `t` is zero. */
  function ReadLength(s: seq<byte>, ip: nat, t: nat, base: nat): (r: Option<(nat, nat)>)
    requires ip <= |s|
    ensures r.Some? ==> ip <= r.value.1 <= |s| && r.value.0 > 0
    ensures t > 0 ==> r == Some((t, ip))
    ensures t == 0 && r.Some? ==> r.value.0 > base
  {
    if t > 0 then Some((t, ip)) else ReadCount(s, ip, base)
  }

  /** The instruction at `ip`. */
  function ReadOp(s: seq<byte>, ip: nat, mode: Mode): (r: Option<Found>)
    ensures r.Some? ==> ip < r.value.next <= |s|
  {
    if ip >= |s| then None else
    var t: nat := s[ip];
    if t >= 64 then
      if ip + 2 > |s| then None else
      var b: nat := s[ip + 1];
      Some(Found(Match(t / 32 + 1, 1 + t / 4 % 8 + 8 * b, t % 4), ip + 2))
    else if t >= 32 then
      var (l, p) :- ReadLength(s, ip + 1, t % 32, 31);
      NearMatch(s, l, p)
    else if t >= 16 then
      var (l, p) :- ReadLength(s, ip + 1, t % 8, 7);
      FarMatch(s, l, p, t / 8 % 2 * 0x4000)
    else if mode == Main then
      var (l, p) :- ReadLength(s, ip + 1, t, 15);
      Some(Found(Lits(l + 3), p))
    else
      if ip + 2 > |s| then None else
      var b: nat := s[ip + 1];
      var d := t / 4 + 4 * b;
      Some(Found(if mode == Short then Match(2, 1 + d, t % 4) else Match(3, 0x801 + d, t % 4), ip + 2))
  }

  /** A match within the last 16 KiB. */
  function NearMatch(s: seq<byte>, l: nat, p: nat): (r: Option<Found>)
    ensures r.Some? ==> r.value.next == p + 2 <= |s|
  {
    if p + 2 > |s| then None else
    var a: nat, b: nat := s[p], s[p + 1];
    Some(Found(Match(l + 2, 1 + a / 4 + 64 * b, a % 4), p + 2))
  }

  /** A match farther back, or the end of the block if it is no distance at all. */
  function FarMatch(s: seq<byte>, l: nat, p: nat, far: nat): (r: Option<Found>)
    ensures r.Some? ==> r.value.next == p + 2 <= |s|
  {
    if p + 2 > |s| then None else
    var a: nat, b: nat := s[p], s[p + 1];
    var d := far + a / 4 + 64 * b;
    Some(Found(if d == 0 then End else Match(l + 2, 0x4000 + d, a % 4), p + 2))
  }

  /** Where the decoder is, and what it has put out. */
  datatype Config = Config(ip: nat, mode: Mode, out: seq<byte>)

  function Start(s: seq<byte>): Option<Config> {
    if |s| == 0 then None
    else if s[0] <= 17 then Some(Config(0, Main, []))
    else
      var t := s[0] - 17;
      if 1 + t > |s| then None else Some(Config(1 + t, if t < 4 then Short else Run, s[1..1 + t]))
  }

  function Obey(s: seq<byte>, out: seq<byte>, f: Found): (r: Option<Config>)
    ensures r.Some? ==> f.next <= r.value.ip <= |s|
  {
    match f.op
    case End => None
    case Lits(n) => if f.next + n > |s| then None else Some(Config(f.next + n, Run, out + s[f.next..f.next + n]))
    case Match(len, dist, tail) =>
      if !(1 <= dist <= |out|) || f.next + tail > |s| then None
      else Some(Config(f.next + tail, if tail == 0 then Main else Short,
                            Copy(out, len, dist) + s[f.next..f.next + tail]))
  }

  function Step(s: seq<byte>, c: Config): (r: Option<Config>)
    ensures r.Some? ==> c.ip < r.value.ip <= |s|
  {
    var f :- ReadOp(s, c.ip, c.mode);
    Obey(s, c.out, f)
  }

  /** The output up to the end marker, and where that marker ends. */
  function DecodeFrom(s: seq<byte>, c: Config): Option<(seq<byte>, nat)>
    decreases |s| - c.ip
  {
    var f :- ReadOp(s, c.ip, c.mode);
    if f.op.End? then Some((c.out, f.next)) else
    var d :- Step(s, c);
    DecodeFrom(s, d)
  }

  function Decode(s: seq<byte>): Option<(seq<byte>, nat)> {
    var c :- Start(s);
    DecodeFrom(s, c)
  }

  // ---------- which bytes an instruction depends on ----------

  /** `s` and `t` are the same from `a` up to `b`. */
  predicate Agree(s: seq<byte>, t: seq<byte>, a: nat, b: nat) {
    |s| == |t| && b <= |s| && forall i :: a <= i < b ==> s[i] == t[i]
  }

  lemma {:induction false} CountLocal(s: seq<byte>, t: seq<byte>, ip: nat, base: nat)
    requires ReadCount(s, ip, base).Some? && Agree(s, t, ip, ReadCount(s, ip, base).value.1)
    ensures ReadCount(t, ip, base) == ReadCount(s, ip, base)
    decreases |s| - ip
  {
    assert s[ip] == t[ip];
    if s[ip] == 0 { CountLocal(s, t, ip + 1, base + 255); }
  }

  lemma LengthLocal(s: seq<byte>, t: seq<byte>, ip: nat, v: nat, base: nat)
    requires ip <= |s| && ReadLength(s, ip, v, base).Some? && Agree(s, t, ip, ReadLength(s, ip, v, base).value.1)
    ensures ReadLength(t, ip, v, base) == ReadLength(s, ip, v, base)
  {
    if v == 0 { CountLocal(s, t, ip, base); }
  }

  /** Reading an instruction looks at its own bytes only. */
  lemma ReadLocal(s: seq<byte>, t: seq<byte>, ip: nat, mode: Mode)
    requires ReadOp(s, ip, mode).Some? && Agree(s, t, ip, ReadOp(s, ip, mode).value.next)
    ensures ReadOp(t, ip, mode) == ReadOp(s, ip, mode)
  {
    hide ReadLength, ReadCount;
    assert s[ip] == t[ip];
    var v := s[ip];
    if v >= 64 {
    } else if v >= 32 {
      LengthLocal(s, t, ip + 1, v % 32, 31);
    } else if v >= 16 {
      LengthLocal(s, t, ip + 1, v % 8, 7);
    } else if mode == Main {
      LengthLocal(s, t, ip + 1, v, 15);
    }
  }

  lemma SliceLocal(s: seq<byte>, t: seq<byte>, a: nat, b: nat)
    requires Agree(s, t, a, b) && a <= b
    ensures s[a..b] == t[a..b]
  {}

  lemma StepLocal(s: seq<byte>, t: seq<byte>, c: Config)
    requires Step(s, c).Some? && Agree(s, t, c.ip, Step(s, c).value.ip)
    ensures Step(t, c) == Step(s, c)
  {
    hide ReadOp, Copy;
    ReadLocal(s, t, c.ip, c.mode);
    var f, d := ReadOp(s, c.ip, c.mode).value, Step(s, c).value;
    SliceLocal(s, t, f.next, d.ip);
  }

  /** Bytes from 16 on mean the same in every mode. */
  lemma ModeFree(s: seq<byte>, ip: nat, m: Mode, n: Mode)
    requires ip < |s| && s[ip] >= 16
    ensures ReadOp(s, ip, m) == ReadOp(s, ip, n)
  {
    hide ReadLength;
  }

  // ---------- runs of the decoder ----------

  /** The decoder of `s` goes through the configurations `cs`. */
  predicate Path(s: seq<byte>, cs: seq<Config>) {
    && cs != [] && Start(s) == Some(cs[0])
    && forall k :: 0 <= k < |cs| - 1 ==> Step(s, cs[k]) == Some(cs[k + 1])
  }

  lemma PathMore(s: seq<byte>, cs: seq<Config>, c: Config)
    requires Path(s, cs) && Step(s, cs[|cs| - 1]) == Some(c)
    ensures Path(s, cs + [c])
  {
    hide Step;
    var ds := cs + [c];
    forall k | 0 <= k < |ds| - 1
      ensures Step(s, ds[k]) == Some(ds[k + 1])
    {
      if k < |cs| - 1 { assert Step(s, cs[k]) == Some(cs[k + 1]); }
    }
  }

  lemma PathLess(s: seq<byte>, cs: seq<Config>, n: nat)
    requires Path(s, cs) && 0 < n <= |cs|
    ensures Path(s, cs[..n])
  {
    hide Step;
    var ds := cs[..n];
    forall k | 0 <= k < |ds| - 1
      ensures Step(s, ds[k]) == Some(ds[k + 1])
    {
      assert Step(s, cs[k]) == Some(cs[k + 1]);
    }
  }

  lemma {:induction false} PathGrows(s: seq<byte>, cs: seq<Config>, i: nat, j: nat)
    requires Path(s, cs) && i <= j < |cs|
    ensures cs[i].ip <= cs[j].ip <= |s|
    decreases j
  {
    if i < j {
      PathGrows(s, cs, i, j - 1);
      assert Step(s, cs[j - 1]) == Some(cs[j - 1 + 1]);
    } else if j > 0 {
      assert Step(s, cs[j - 1]) == Some(cs[j - 1 + 1]);
    }
  }

  /** A path depends only on the bytes it has read. */
  lemma PathLocal(s: seq<byte>, t: seq<byte>, cs: seq<Config>)
    requires Path(s, cs) && Start(t) == Start(s) && Agree(s, t, cs[0].ip, cs[|cs| - 1].ip)
    ensures Path(t, cs)
  {
    hide Step, Start;
    forall k | 0 <= k < |cs| - 1
      ensures Step(t, cs[k]) == Some(cs[k + 1])
    {
      PathGrows(s, cs, 0, k);
      PathGrows(s, cs, k + 1, |cs| - 1);
      assert Step(s, cs[k]) == Some(cs[k + 1]);
      StepLocal(s, t, cs[k]);
    }
  }

  lemma StartLocal(s: seq<byte>, t: seq<byte>)
    requires Start(s).Some? && |s| == |t| && (s[0] <= 17 ==> t[0] <= 17)
    requires (s[0] > 17 ==> Agree(s, t, 0, Start(s).value.ip))
    ensures Start(t) == Start(s)
  {
    if s[0] > 17 {
      assert s[0] == t[0];
      SliceLocal(s, t, 1, s[0] - 16);
    }
  }

  /** Decoding can be taken up anywhere along the path. */
  lemma {:induction false} DecodeAlong(s: seq<byte>, cs: seq<Config>)
    requires Path(s, cs)
    ensures Decode(s) == DecodeFrom(s, cs[|cs| - 1])
    decreases |cs|
  {
    hide Start;
    if |cs| > 1 {
      var n := |cs| - 1;
      PathLess(s, cs, n);
      DecodeAlong(s, cs[..n]);
      assert Step(s, cs[n - 1]) == Some(cs[n - 1 + 1]);
      DecodeStep(s, cs[n - 1], cs[n]);
    }
  }

  lemma DecodeStep(s: seq<byte>, c: Config, d: Config)
    requires Step(s, c) == Some(d)
    ensures DecodeFrom(s, c) == DecodeFrom(s, d)
  {
    hide ReadOp, Copy;
  }

  /** Decoding only adds to the output. */
  lemma {:induction false} DecodeGrows(s: seq<byte>, c: Config)
    requires DecodeFrom(s, c).Some?
    ensures |c.out| <= |DecodeFrom(s, c).value.0|
    decreases |s| - c.ip
  {
    hide ReadOp;
    if !ReadOp(s, c.ip, c.mode).value.op.End? {
      DecodeGrows(s, Step(s, c).value);
    }
  }
}
