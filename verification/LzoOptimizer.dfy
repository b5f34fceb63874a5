/** The pass over an LZO1X block that rewrites it in place. */
module LzoOptimizer {
  import opened Wrappers
  import opened Bits
  import opened Rfc1951
  import opened Lzo1x
  import opened LzoRewrites
  import opened LzoStages
  import opened LzoTrace

  datatype Status = LzoOk | EofNotFound | InputNotConsumed

  /** The variables of the pass; `litp` is negative until there is an instruction to rewrite. */
  class Optimizer {
    const buf: array<byte> // the block
    const dst: array<byte> // what it decodes to
    var ip: nat
    var op: nat
    var litp: int
    var lit: nat
    var mode: Mode
    ghost var path: seq<Config>

    constructor (buf: array<byte>, dst: array<byte>)
      ensures this.buf == buf && this.dst == dst
    {
      this.buf, this.dst := buf, dst;
      ip, op, litp, lit, mode, path := 0, 0, -1, 0, Main, [];
    }

    ghost predicate Ok(s: seq<byte>, res: (seq<byte>, nat))
      reads this, buf, dst
    {
      && buf != dst && op <= dst.Length && |s| == buf.Length && |res.0| <= dst.Length
      && Stage(s, res, buf[..], path, Config(ip, mode, dst[..op]), litp, lit)
    }

    /** Where the pass stands. */
    ghost function Here(): State
      reads this, buf
    {
      State(buf[..], ip, mode, litp, lit)
    }

    // ---------- reading ----------

    /** A count that goes on from `p0`, added to `base`. */
    method ReadCountAt(p0: nat, base: nat) returns (t: nat, p: nat)
      requires ReadCount(buf[..], p0, base).Some?
      ensures ReadCount(buf[..], p0, base) == Some((t, p))
    {
      t, p := base, p0;
      while buf[p] == 0
        invariant ReadCount(buf[..], p, t).Some? && ReadCount(buf[..], p, t) == ReadCount(buf[..], p0, base)
        decreases buf.Length - p
      {
        t := t + 255;
        p := p + 1;
      }
      t := t + buf[p];
      p := p + 1;
    }

    method ReadLengthAt(p0: nat, v: nat, base: nat) returns (t: nat, p: nat)
      requires p0 <= buf.Length && ReadLength(buf[..], p0, v, base).Some?
      ensures ReadLength(buf[..], p0, v, base) == Some((t, p))
    {
      if v == 0 {
        t, p := ReadCountAt(p0, base);
      } else {
        t, p := v, p0;
      }
    }

    /** The instruction at `ip`. */
    method ReadInstruction() returns (f: Found)
      requires ReadOp(buf[..], ip, mode).Some?
      ensures ReadOp(buf[..], ip, mode) == Some(f)
    {
      hide ReadLength, ReadCount;
      var t: nat := buf[ip];
      if t >= 64 {
        var b: nat := buf[ip + 1];
        f := Found(Match(t / 32 + 1, 1 + t / 4 % 8 + 8 * b, t % 4), ip + 2);
      } else if t >= 32 {
        var l, p := ReadLengthAt(ip + 1, t % 32, 31);
        var a: nat, b: nat := buf[p], buf[p + 1];
        f := Found(Match(l + 2, 1 + a / 4 + 64 * b, a % 4), p + 2);
      } else if t >= 16 {
        var l, p := ReadLengthAt(ip + 1, t % 8, 7);
        var a: nat, b: nat := buf[p], buf[p + 1];
        var d := t / 8 % 2 * 0x4000 + a / 4 + 64 * b;
        f := Found(if d == 0 then End else Match(l + 2, 0x4000 + d, a % 4), p + 2);
      } else if mode == Main {
        var l, p := ReadLengthAt(ip + 1, t, 15);
        f := Found(Lits(l + 3), p);
      } else {
        var b: nat := buf[ip + 1];
        var d := t / 4 + 4 * b;
        f := Found(if mode == Short then Match(2, 1 + d, t % 4) else Match(3, 0x801 + d, t % 4), ip + 2);
      }
    }

    // ---------- writing the output ----------

    /** Copies `k` bytes from `dist` bytes back. */
    method CopyMatch(dist: nat, k: nat)
      requires 1 <= dist <= op && op + k <= dst.Length
      modifies this`op, dst
      ensures op == old(op) + k && dst[..op] == Copy(old(dst[..op]), k, dist)
    {
      hide Copy;
      ghost var o := dst[..op];
      var i := 0;
      CopyEnd(o, dist);
      while i < k
        invariant i <= k && op == old(op) + i && Copy(dst[..op], k - i, dist) == Copy(o, k, dist)
      {
        ghost var o1 := dst[..op];
        CopyOne(o1, k - i, dist);
        dst[op] := dst[op - dist];
        op := op + 1;
        assert dst[..op] == o1 + [o1[|o1| - dist]];
        i := i + 1;
      }
      CopyEnd(dst[..op], dist);
    }

    /** Copies `n` literals. */
    method CopyLiterals(n: nat)
      requires buf != dst && ip + n <= buf.Length && op + n <= dst.Length
      modifies this`op, this`ip, dst
      ensures op == old(op) + n && ip == old(ip) + n && dst[..op] == old(dst[..op]) + buf[old(ip)..ip]
    {
      ghost var p, o := ip, dst[..op];
      var i := 0;
      while i < n
        invariant i <= n && op == old(op) + i && ip == p + i && dst[..op] == o + buf[p..ip]
        invariant buf[..] == old(buf[..])
      {
        dst[op] := buf[ip];
        assert dst[..op + 1] == dst[..op] + [buf[ip]];
        assert buf[p..ip + 1] == buf[p..ip] + [buf[ip]];
        op := op + 1;
        ip := ip + 1;
        i := i + 1;
      }
    }

    // ---------- instructions that stay ----------

    /** The output of an instruction, as far as there is room for the whole result. */
    lemma RoomFor(s: seq<byte>, res: (seq<byte>, nat))
      requires Ok(s, res) && Step(s, Config(ip, mode, dst[..op])).Some?
      ensures |Step(s, Config(ip, mode, dst[..op])).value.out| <= dst.Length
    {
      hide Step, Stage;
      StageStep(s, res, buf[..], path, Config(ip, mode, dst[..op]), litp, lit);
      DecodeGrows(s, Step(s, Config(ip, mode, dst[..op])).value);
    }

    method LiteralRun(f: Found, ghost s: seq<byte>, ghost res: (seq<byte>, nat))
      requires Ok(s, res) && f.op.Lits? && ReadOp(s, ip, mode) == Some(f)
      modifies this, dst
      ensures Ok(s, res) && ip > old(ip) && Here() == Kept(old(Here()), f)
    {
      hide Stage, ReadOp;
      ghost var c := Config(ip, mode, dst[..op]);
      RunStage(s, res, buf[..], path, c, litp, lit);
      RoomFor(s, res);
      ghost var d := Step(s, c).value;
      StageAgrees(s, res, buf[..], path, c, litp, lit);
      SliceLocal(buf[..], s, f.next, d.ip);
      litp := ip;
      lit := f.op.n;
      ip := f.next;
      CopyLiterals(f.op.n);
      mode := Run;
      path := path + [d];
      assert d == Config(ip, mode, dst[..op]);
    }

    method PlainMatch(f: Found, ghost s: seq<byte>, ghost res: (seq<byte>, nat))
      requires Ok(s, res) && f.op.Match? && ReadOp(s, ip, mode) == Some(f)
      modifies this, dst
      ensures Ok(s, res) && ip > old(ip) && f.next >= 2 && Here() == Kept(old(Here()), f)
    {
      hide Stage, ReadOp, Copy;
      ghost var c := Config(ip, mode, dst[..op]);
      PlainStage(s, res, buf[..], path, c, litp, lit);
      RoomFor(s, res);
      ghost var d := Step(s, c).value;
      StageAgrees(s, res, buf[..], path, c, litp, lit);
      SliceLocal(buf[..], s, f.next, d.ip);
      litp := f.next - 2;
      lit := f.op.tail;
      ip := f.next;
      CopyMatch(f.op.dist, f.op.len);
      CopyLiterals(f.op.tail);
      mode := if f.op.tail == 0 then Main else Short;
      path := path + [d];
      assert d == Config(ip, mode, dst[..op]);
    }

    // ---------- instructions that go into the one before ----------

    /** Writes the two bytes a match stands for. */
    method Copy2(at: nat, dist: nat)
      requires buf != dst && at + 2 <= buf.Length && 1 <= dist <= op <= dst.Length
      modifies buf
      ensures SameBut(old(buf[..]), buf[..], at, at + 2) && buf[at..at + 2] == Copied(dst[..op], dist, 2)
    {
      var m := op - dist;
      buf[at] := dst[m];
      if dist == 1 {
        buf[at + 1] := dst[m];
      } else {
        buf[at + 1] := dst[m + 1];
      }
    }

    method Copy3(at: nat, dist: nat)
      requires buf != dst && at + 3 <= buf.Length && 1 <= dist <= op <= dst.Length
      modifies buf
      ensures SameBut(old(buf[..]), buf[..], at, at + 3) && buf[at..at + 3] == Copied(dst[..op], dist, 3)
    {
      var m := op - dist;
      buf[at] := dst[m];
      if dist == 1 {
        buf[at + 1] := dst[m];
        buf[at + 2] := dst[m];
      } else if dist == 2 {
        buf[at + 1] := dst[m + 1];
        buf[at + 2] := dst[m];
      } else {
        buf[at + 1] := dst[m + 1];
        buf[at + 2] := dst[m + 2];
      }
    }

    method CopyInto(at: nat, dist: nat, k: nat)
      requires buf != dst && (k == 2 || k == 3) && at + k <= buf.Length && 1 <= dist <= op <= dst.Length
      modifies buf
      ensures SameBut(old(buf[..]), buf[..], at, at + k) && buf[at..at + k] == Copied(dst[..op], dist, k)
    {
      hide Copied, SameBut;
      if k == 2 {
        Copy2(at, dist);
      } else {
        Copy3(at, dist);
      }
    }

    /** Moves `n` bytes one place up. */
    method MoveUp(at: nat, n: nat)
      requires at + n < buf.Length
      modifies buf
      ensures buf[at + 1..at + n + 1] == old(buf[at..at + n]) && SameBut(old(buf[..]), buf[..], at + 1, at + n + 1)
    {
      var i := n;
      ghost var b := buf[..];
      while i > 0
        invariant 0 <= i <= n
        invariant buf[..] == b[..at + i + 1] + b[at + i..at + n] + b[at + n + 1..]
      {
        buf[at + i] := buf[at + i - 1];
        i := i - 1;
      }
    }

    /** The match without literals at `ip` takes `k` bytes and stands for `k` bytes. */
    ghost predicate Replaceable(f: Found, k: nat, s: seq<byte>)
      reads this
    {
      && ReadOp(s, ip, mode) == Some(f) && f.op.Match? && f.op.len == k && f.op.tail == 0
      && litp >= 0 && (k == 2 || k == 3)
    }

    lemma Enough(f: Found, k: nat, s: seq<byte>, res: (seq<byte>, nat))
      requires Ok(s, res) && Replaceable(f, k, s)
      ensures 1 <= f.op.dist <= op && op + k <= dst.Length && f.next < buf.Length && litp < buf.Length
    {
      hide ReadOp, Copied, Copy, Path, AfterMatch, AfterRun;
      var c := Config(ip, mode, dst[..op]);
      OverMatch(s, res, c, k);
      DecodeGrows(s, Config(f.next, Main, c.out + Copied(c.out, f.op.dist, k)));
    }

    /** Turns a match between two matches into literals of the first. */
    method GrowShort(f: Found, k: nat, ghost s: seq<byte>, ghost res: (seq<byte>, nat))
      requires Ok(s, res) && Replaceable(f, k, s) && lit + k == 3 && f.next == ip + k
      requires f.next < buf.Length && buf[f.next] >= 16
      modifies this, buf, dst
      ensures Ok(s, res) && ip > old(ip) && Becomes(old(Here()), f, Grow(k), Here())
    {
      hide Stage, ReadOp, Copy, Copied, WithTail, Becomes;
      ghost var x := Here();
      ghost var c, b, cs, l := Config(ip, mode, dst[..op]), buf[..], path, lit;
      Enough(f, k, s, res);
      ShortBefore(s, res, b, cs, c, litp, lit);
      CopiedIs(c.out, f.op.dist, k);
      lit := lit + k;
      TailOfByte(buf[litp], lit);
      buf[litp] := WithTail(buf[litp], lit);
      CopyInto(f.next - k, f.op.dist, k);
      GrowStage(s, res, b, buf[..], cs, c, litp, l, k);
      CopyMatch(f.op.dist, k);
      ip := f.next;
      mode := Main;
      path := cs[..|cs| - 1] + [Config(ip, Short, dst[..op])];
      BecomesGrown(x, f, k, Here());
    }

    /** Puts a short run and a match into the literal run that follows. */
    method MergeRun(f: Found, k: nat, ghost s: seq<byte>, ghost res: (seq<byte>, nat))
      requires Ok(s, res) && Replaceable(f, k, s) && lit <= 3 && f.next == ip + k
      requires f.next < buf.Length && 0 < buf[f.next] < 16 && lit + k + buf[f.next] < 16
      modifies this, buf, dst
      ensures Ok(s, res) && ip > old(ip) && Becomes(old(Here()), f, Merge(k, old(buf[f.next]) + 3), Here())
    {
      hide Stage, ReadOp, Copy, Copied, WithTail, Path, Becomes, Merged, Agree;
      ghost var x := Here();
      ghost var c, b, cs, l, lp := Config(ip, mode, dst[..op]), buf[..], path, lit, litp;
      Enough(f, k, s, res);
      ShortBefore(s, res, b, cs, c, litp, lit);
      var t: nat := buf[f.next];
      RewriteMerge(f, k, t);
      path := MergedStage(s, res, b, buf[..], cs, c, lp, l, f, k, t);
      FinishRun(f, k, t, s, res);
      BecomesMerged(x, f, k, t + 3, Here());
    }

    /** Puts out a match that has been made part of a literal run, and the literals after it. */
    method FinishRun(f: Found, k: nat, t: nat, ghost s: seq<byte>, ghost res: (seq<byte>, nat))
      requires buf != dst && |s| == buf.Length && |res.0| <= dst.Length && (k == 2 || k == 3)
      requires op + k + t + 3 <= dst.Length && f.op.Match? && 1 <= f.op.dist <= op && f.next + 1 + t + 3 <= |s|
      requires buf[f.next + 1..f.next + 1 + t + 3] == s[f.next + 1..f.next + 1 + t + 3]
      requires Stage(s, res, buf[..], path, Config(f.next + 1 + t + 3, Run,
                     dst[..op] + Copied(dst[..op], f.op.dist, k) + s[f.next + 1..f.next + 1 + t + 3]), litp, lit)
      modifies this`ip, this`op, this`mode, dst
      ensures Ok(s, res) && ip == f.next + 1 + t + 3 && mode == Run
    {
      hide Stage, Copy, Copied;
      CopiedIs(dst[..op], f.op.dist, k);
      CopyMatch(f.op.dist, k);
      ip := f.next + 1;
      CopyLiterals(t + 3);
      mode := Run;
    }

    /** The writes of a merge. */
    method RewriteMerge(f: Found, k: nat, t: nat)
      requires buf != dst && 0 <= litp && lit <= 3 && (k == 2 || k == 3)
      requires f.op.Match? && 1 <= f.op.dist <= op <= dst.Length
      requires litp + 2 + lit + k == f.next < buf.Length && t == buf[f.next] && 0 < t && lit + k + t < 16
      modifies this`litp, this`lit, buf
      ensures litp == old(litp) + 2 && lit == old(lit) + k + t + 3
      ensures Merged(old(buf[..]), buf[..], old(litp), old(lit), k, t, f.next, Copied(dst[..op], f.op.dist, k))
    {
      hide Copied, WithTail, Merged;
      ghost var b, lp, l := buf[..], litp, lit;
      ClearAndCopy(f, k);
      ghost var b1 := buf[..];
      litp := litp + 2;
      ShiftLiterals();
      ghost var b2 := buf[..];
      lit := lit + k + t + 3;
      buf[litp] := lit - 3;
      MergedBytes(b, b1, b2, buf[..], lp, l, k, t, f.next);
    }

    method ClearAndCopy(f: Found, k: nat)
      requires buf != dst && 0 <= litp && (k == 2 || k == 3) && f.op.Match? && 1 <= f.op.dist <= op <= dst.Length
      requires litp + 2 + k <= f.next < buf.Length
      modifies buf
      ensures var b, n := old(buf[..]), buf[..];
              && Agree(b, n, 0, litp) && n[litp] == WithTail(b[litp], 0) && Agree(b, n, litp + 1, f.next - k + 1)
              && n[f.next - k + 1..f.next + 1] == Copied(dst[..op], f.op.dist, k) && Agree(b, n, f.next + 1, |b|)
    {
      hide Copied, WithTail;
      buf[litp] := WithTail(buf[litp], 0);
      CopyInto(f.next + 1 - k, f.op.dist, k);
    }

    /** Moves the literals one byte ahead. */
    method ShiftLiterals()
      requires 0 <= litp && litp + lit < buf.Length
      modifies buf
      ensures var b, n := old(buf[..]), buf[..];
              && Agree(b, n, 0, litp + 1) && n[litp + 1..litp + lit + 1] == b[litp..litp + lit]
              && Agree(b, n, litp + lit + 1, |b|)
    {
      if lit > 0 {
        MoveUp(litp, lit);
      }
    }

    /** Makes two literal runs and the match between them one run. */
    method JoinRuns(f: Found, ghost s: seq<byte>, ghost res: (seq<byte>, nat))
      requires Ok(s, res) && Replaceable(f, 3, s) && lit > 3 && f.next == ip + 2
      requires f.next < buf.Length && 0 < buf[f.next] < 16 && lit + 3 + buf[f.next] < 16
      modifies this, buf, dst
      ensures Ok(s, res) && ip > old(ip) && Becomes(old(Here()), f, Join(old(buf[f.next]) + 3), Here())
    {
      hide Stage, ReadOp, Copy, Copied, Path;
      ghost var c, b, cs, l, lp := Config(ip, mode, dst[..op]), buf[..], path, lit, litp;
      Enough(f, 3, s, res);
      RunBefore(s, res, b, cs, c, litp, lit);
      var t: nat := buf[f.next];
      RewriteJoin(f, t);
      path := JoinStage(s, res, b, buf[..], cs, c, lp, l, f.next);
      MergeRoom(s, res, c, 3, f.next);
      SameTail(b, buf[..], s, f.next + 1, f.next + 1 + t + 3);
      FinishRun(f, 3, t, s, res);
    }

    /** The writes of a join. */
    method RewriteJoin(f: Found, t: nat)
      requires buf != dst && 0 <= litp && 3 < lit && f.op.Match? && 1 <= f.op.dist <= op <= dst.Length
      requires litp + 1 + lit + 2 == f.next < buf.Length && lit + 3 + t < 16
      modifies this`lit, buf
      ensures lit == old(lit) + 3 + t + 3
      ensures var b, n := old(buf[..]), buf[..];
              && Agree(b, n, 0, litp) && n[litp] == old(lit) + 3 + t && Agree(b, n, litp + 1, f.next - 2)
              && n[f.next - 2..f.next + 1] == Copied(dst[..op], f.op.dist, 3) && Agree(b, n, f.next + 1, |b|)
    {
      hide Copied;
      CopyInto(f.next - 2, f.op.dist, 3);
      lit := lit + 3 + t + 3;
      ghost var x := buf[f.next - 2..f.next + 1];
      buf[litp] := lit - 3;
      assert buf[f.next - 2..f.next + 1] == x;
    }

    // ---------- the pass ----------

    /** The opcode and the number of literals after the match, where the source tests them. */
    lemma MatchFacts(f: Found, s: seq<byte>, res: (seq<byte>, nat))
      requires Ok(s, res) && f.op.Match? && ReadOp(s, ip, mode) == Some(f)
      ensures ip < buf.Length && 2 <= f.next <= buf.Length && buf[f.next - 2] % 4 == f.op.tail
      ensures f.op.tail == 0 && (f.op.len == 2 || f.op.len == 3) ==> f.next < buf.Length
      ensures buf[ip] < 16 && mode == Short ==> f.op.len == 2 && f.next == ip + 2
      ensures buf[ip] >= 64 ==> f.next == ip + 2
      ensures 16 <= buf[ip] < 64 && f.op.len == 3 ==> f.next == ip + 3
      ensures mode == Short && litp >= 0 ==> lit <= 3
    {
      hide Copy, Path, DecodeFrom, ReadOp;
      var c := Config(ip, mode, dst[..op]);
      StageAgrees(s, res, buf[..], path, c, litp, lit);
      TailAt(buf[..], ip, mode);
      OpSizes(buf[..], ip, mode);
      if f.op.tail == 0 && (f.op.len == 2 || f.op.len == 3) { OverMatch(s, res, c, f.op.len); }
    }

    /** What is due for a match, by the tests of the pass. */
    lemma Decides(f: Found, s: seq<byte>, res: (seq<byte>, nat))
      requires Ok(s, res) && f.op.Match? && ReadOp(s, ip, mode) == Some(f)
      ensures ip < buf.Length && f.next >= 2 && ReadOp(buf[..], ip, mode) == Some(f)
      ensures litp < 0 || f.op.tail != 0 ==> Due(Here(), f) == Keep
      ensures buf[ip] < 16 && mode != Short ==> Due(Here(), f) == Keep
      ensures litp >= 0 && f.op.tail == 0 && buf[ip] < 16 && mode == Short ==>
                Due(Here(), f) == if lit == 1 && MatchFollows(buf[..], f.next) then Grow(2)
                                  else if RunFits(buf[..], f.next, lit + 2) then Merge(2, buf[f.next] + 3) else Keep
      ensures litp >= 0 && f.op.tail == 0 && 16 <= buf[ip] < 64 ==>
                Due(Here(), f)
                == if f.op.len == 3 && lit == 0 && MatchFollows(buf[..], f.next) then Grow(3)
                   else if f.op.len == 3 && lit <= 3 && RunFits(buf[..], f.next, lit + 3) then
                     Merge(3, buf[f.next] + 3)
                   else Keep
      ensures litp >= 0 && f.op.tail == 0 && buf[ip] >= 64 ==>
                Due(Here(), f) == if f.op.len == 3 && lit > 3 && RunFits(buf[..], f.next, lit + 3) then
                                    Join(buf[f.next] + 3)
                                  else Keep
    {
      hide Stage, ReadOp, Due, Becomes, MatchFollows, RunFits;
      MatchFacts(f, s, res);
      StageAgrees(s, res, buf[..], path, Config(ip, mode, dst[..op]), litp, lit);
      if litp < 0 || f.op.tail != 0 { KeepTrivially(Here(), f); }
      Sizes(buf[..], ip, mode);
      if litp >= 0 && f.op.tail == 0 {
        NextReads(f, s, res);
        DueIs(Here(), f);
        KeepIs(Here(), f);
      }
    }

    /** After a match without literals comes an instruction. */
    lemma NextReads(f: Found, s: seq<byte>, res: (seq<byte>, nat))
      requires Ok(s, res) && f.op.Match? && f.op.tail == 0 && ReadOp(s, ip, mode) == Some(f)
      ensures f.op.len == 2 || f.op.len == 3 ==> ReadOp(buf[..], f.next, Main).Some?
    {
      hide ReadOp, Copied, Path;
      var c := Config(ip, mode, dst[..op]);
      StageAgrees(s, res, buf[..], path, c, litp, lit);
      if f.op.len == 2 || f.op.len == 3 {
        StageDecodes(s, res, buf[..], path, c, litp, lit);
        OverMatch(s, res, c, f.op.len);
        ReadLocal(s, buf[..], f.next, Main);
      }
    }

    /** A match of two bytes next to literals. */
    method NearMatch(f: Found, ghost s: seq<byte>, ghost res: (seq<byte>, nat))
      requires Ok(s, res) && f.op.Match? && ReadOp(s, ip, mode) == Some(f) && mode == Short && ip < buf.Length
      requires buf[ip] < 16
      modifies this, buf, dst
      ensures Ok(s, res) && ip > old(ip) && Moves(old(Here()), Here())
    {
      hide Stage, ReadOp, Due, Becomes, Moves;
      MatchFacts(f, s, res);
      Decides(f, s, res);
      ghost var x := Here();
      if litp < 0 {
        PlainMatch(f, s, res);
        BecomesKept(x, f);
        MovesOn(x, Here(), f, Keep);
      } else {
        var nl: nat := buf[f.next - 2] % 4;
        if nl == 0 && lit == 1 && buf[f.next] >= 16 {
          GrowShort(f, 2, s, res);
          MovesOn(x, Here(), f, Grow(2));
        } else if nl == 0 && buf[f.next] < 16 && buf[f.next] != 0 && lit + 2 + buf[f.next] < 16 {
          MergeRun(f, 2, s, res);
          MovesOn(x, Here(), f, Merge(2, x.b[f.next] + 3));
        } else {
          PlainMatch(f, s, res);
          BecomesKept(x, f);
          MovesOn(x, Here(), f, Keep);
        }
      }
    }

    /** A match with a two-byte instruction. */
    method MiddleMatch(f: Found, ghost s: seq<byte>, ghost res: (seq<byte>, nat))
      requires Ok(s, res) && f.op.Match? && ReadOp(s, ip, mode) == Some(f) && ip < buf.Length && buf[ip] >= 64
      modifies this, buf, dst
      ensures Ok(s, res) && ip > old(ip) && Moves(old(Here()), Here())
    {
      hide Stage, ReadOp, Due, Becomes, Moves;
      MatchFacts(f, s, res);
      Decides(f, s, res);
      ghost var x := Here();
      if litp < 0 {
        PlainMatch(f, s, res);
        BecomesKept(x, f);
        MovesOn(x, Here(), f, Keep);
      } else {
        var nl: nat := buf[f.next - 2] % 4;
        if f.op.len == 3 && lit > 3 && nl == 0 && buf[f.next] < 16 && buf[f.next] != 0 && lit + 3 + buf[f.next] < 16 {
          JoinRuns(f, s, res);
          MovesOn(x, Here(), f, Join(x.b[f.next] + 3));
        } else {
          PlainMatch(f, s, res);
          BecomesKept(x, f);
          MovesOn(x, Here(), f, Keep);
        }
      }
    }

    /** A match with a longer instruction. */
    method FarMatches(f: Found, ghost s: seq<byte>, ghost res: (seq<byte>, nat))
      requires Ok(s, res) && f.op.Match? && ReadOp(s, ip, mode) == Some(f) && ip < buf.Length && 16 <= buf[ip] < 64
      modifies this, buf, dst
      ensures Ok(s, res) && ip > old(ip) && Moves(old(Here()), Here())
    {
      hide Stage, ReadOp, Due, Becomes, Moves;
      MatchFacts(f, s, res);
      Decides(f, s, res);
      ghost var x := Here();
      if litp < 0 {
        PlainMatch(f, s, res);
        BecomesKept(x, f);
        MovesOn(x, Here(), f, Keep);
      } else {
        var nl: nat := buf[f.next - 2] % 4;
        if f.op.len == 3 && lit == 0 && nl == 0 && buf[f.next] >= 16 {
          GrowShort(f, 3, s, res);
          MovesOn(x, Here(), f, Grow(3));
        } else if f.op.len == 3 && lit <= 3 && nl == 0 && buf[f.next] < 16
                  && buf[f.next] != 0 && lit + 3 + buf[f.next] < 16 {
          MergeRun(f, 3, s, res);
          MovesOn(x, Here(), f, Merge(3, x.b[f.next] + 3));
        } else {
          PlainMatch(f, s, res);
          BecomesKept(x, f);
          MovesOn(x, Here(), f, Keep);
        }
      }
    }

    /** The literals a block may start with. */
    method Begin(ghost s: seq<byte>, ghost res: (seq<byte>, nat))
      requires buf != dst && s == buf[..] && Decode(s) == Some(res) && |res.0| <= dst.Length
      modifies this, dst
      ensures Ok(s, res) && s == buf[..] && litp == -1 && lit == 0
      ensures Start(s) == Some(Config(ip, mode, dst[..op]))
    {
      hide Stage, ReadOp, Copy, DecodeFrom;
      FirstStage(s, res);
      StageDecodes(s, res, s, [Start(s).value], Start(s).value, -1, 0);
      DecodeGrows(s, Start(s).value);
      ip, op, litp, lit, mode := 0, 0, -1, 0, Main;
      path := [Start(s).value];
      if buf[0] > 17 {
        var t: nat := buf[0] - 17;
        ip := 1;
        CopyLiterals(t);
        mode := if t < 4 then Short else Run;
      }
      assert Start(s).value == Config(ip, mode, dst[..op]);
    }

    /** One instruction is kept or rewritten. */
    method Rewritten(f: Found, ghost s: seq<byte>, ghost res: (seq<byte>, nat))
      requires Ok(s, res) && !f.op.End? && ReadOp(s, ip, mode) == Some(f) && ip < buf.Length
      modifies this, buf, dst
      ensures Ok(s, res) && ip > old(ip) && Moves(old(Here()), Here())
    {
      hide Stage, ReadOp, Due, Becomes, Moves;
      StageAgrees(s, res, buf[..], path, Config(ip, mode, dst[..op]), litp, lit);
      OpKinds(buf[..], ip, mode);
      ghost var x := Here();
      var t := buf[ip];
      if t >= 64 {
        MiddleMatch(f, s, res);
      } else if t >= 16 {
        FarMatches(f, s, res);
      } else if mode == Main {
        KeepTrivially(x, f);
        LiteralRun(f, s, res);
        BecomesKept(x, f);
        MovesOn(x, Here(), f, Keep);
      } else if mode == Short {
        NearMatch(f, s, res);
      } else {
        Decides(f, s, res);
        PlainMatch(f, s, res);
        BecomesKept(x, f);
        MovesOn(x, Here(), f, Keep);
      }
    }

    /** Goes over the whole block. */
    method Pass(ghost s: seq<byte>, ghost res: (seq<byte>, nat))
      returns (status: Status, outLen: nat, ghost xs: seq<State>)
      requires buf != dst && s == buf[..] && Decode(s) == Some(res) && |res.0| <= dst.Length
      modifies this, buf, dst
      ensures Decode(buf[..]) == Some(res) && outLen == |res.0| && dst[..outLen] == res.0
      ensures status == if res.1 == buf.Length then LzoOk else InputNotConsumed
      ensures Passes(s, buf[..], xs)
    {
      hide Stage, ReadOp, Decode, Moves, Trace;
      Begin(s, res);
      xs := [Here()];
      Begun(s, Here());
      var ended := false;
      // After a short run the next byte has been read before the ends are tested.
      while !ended && (mode == Run || ((if mode == Short then ip + 1 else ip) < buf.Length && op <= dst.Length))
        invariant !ended ==> Ok(s, res) && Trace(s, xs) && xs != [] && xs[|xs| - 1] == Here()
        invariant ended ==> Decode(buf[..]) == Some(res) && op <= dst.Length && res == (dst[..op], ip)
        invariant ended ==> Passes(s, buf[..], xs)
        decreases !ended, buf.Length - ip
      {
        StageAgrees(s, res, buf[..], path, Config(ip, mode, dst[..op]), litp, lit);
        var f := ReadInstruction();
        OpKinds(buf[..], ip, mode);
        var t := buf[ip];
        if f.op.End? {
          EndStage(s, res, buf[..], path, Config(ip, mode, dst[..op]), litp, lit);
          Passed(s, Here(), xs);
          ip := f.next;
          ended := true;
        } else {
          Rewritten(f, s, res);
          TraceMore(s, xs, Here());
          xs := xs + [Here()];
          IpBound(s, res);
        }
      }
      if !ended { NotYetOver(s, res); }
      outLen := op;
      status := if !ended then EofNotFound else if ip == buf.Length then LzoOk else InputNotConsumed;
    }

    lemma IpBound(s: seq<byte>, res: (seq<byte>, nat))
      requires Ok(s, res)
      ensures ip <= buf.Length
    {
      hide ReadOp, Path;
    }

    /** Before the end marker the tests for the ends of the buffers succeed. */
    lemma NotYetOver(s: seq<byte>, res: (seq<byte>, nat))
      requires Ok(s, res)
      ensures mode == Run || ((if mode == Short then ip + 1 else ip) < buf.Length && op <= dst.Length)
    {
      hide Path;
      StageAgrees(s, res, buf[..], path, Config(ip, mode, dst[..op]), litp, lit);
      hide ReadOp;
      ShortSize(s, ip, mode);
    }
  }

  lemma ShortSize(s: seq<byte>, ip: nat, mode: Mode)
    requires ReadOp(s, ip, mode).Some?
    ensures ip < |s| && (mode == Short ==> ip + 1 < |s|)
  {
    hide ReadCount;
  }

  lemma StageDecodes(s: seq<byte>, res: (seq<byte>, nat), b: seq<byte>, cs: seq<Config>, c: Config, litp: int,
                     lit: nat)
    requires Stage(s, res, b, cs, c, litp, lit)
    ensures DecodeFrom(s, c) == Some(res)
  {}

  /** How many bytes the match instructions take. */
  lemma OpSizes(s: seq<byte>, ip: nat, mode: Mode)
    requires ReadOp(s, ip, mode).Some? && ReadOp(s, ip, mode).value.op.Match?
    ensures var f := ReadOp(s, ip, mode).value;
            && (s[ip] < 16 && mode == Short ==> f.op.len == 2 && f.next == ip + 2)
            && (s[ip] >= 64 ==> f.next == ip + 2) && (16 <= s[ip] < 64 && f.op.len == 3 ==> f.next == ip + 3)
  {
    hide ReadCount;
  }

  lemma OpKinds(s: seq<byte>, ip: nat, mode: Mode)
    requires ReadOp(s, ip, mode).Some?
    ensures var f := ReadOp(s, ip, mode).value;
            && ip < |s| && (s[ip] >= 16 ==> !f.op.Lits?)
            && (s[ip] < 16 ==> (f.op.Lits? <==> mode == Main) && !f.op.End?)
            && (s[ip] >= 64 ==> f.op.Match?)
  {
    hide ReadLength;
  }

  /** Optimises the block in `buf` in place: its length and what it decodes to stay the same. */
  method Optimize(buf: array<byte>, dst: array<byte>) returns (status: Status, outLen: nat, ghost xs: seq<State>)
    requires buf != dst && Decode(buf[..]).Some? && |Decode(buf[..]).value.0| <= dst.Length
    modifies buf, dst
    ensures Decode(buf[..]) == old(Decode(buf[..])) && outLen <= dst.Length
    ensures dst[..outLen] == Decode(buf[..]).value.0
    ensures status == if Decode(buf[..]).value.1 == buf.Length then LzoOk else InputNotConsumed
    ensures Passes(old(buf[..]), buf[..], xs)
  {
    hide Decode;
    var o := new Optimizer(buf, dst);
    status, outLen, xs := o.Pass(buf[..], Decode(buf[..]).value);
  }

  /** The short run and the match (bytes `m`) have become part of the literal run behind them. */
  predicate Merged(b: seq<byte>, n: seq<byte>, lp: nat, l: nat, k: nat, t: nat, next: nat, m: seq<byte>) {
    && k <= next && lp + 3 <= next - k + 1 && next < |b| == |n|
    && Agree(b, n, 0, lp) && n[lp] == WithTail(b[lp], 0) && n[lp + 1] == b[lp + 1] && n[lp + 2] == l + k + t
    && n[lp + 3..next - k + 1] == b[lp + 2..next - k]
    && n[next - k + 1..next + 1] == m && Agree(b, n, next + 1, |b|)
  }

  lemma TailOfByte(x: byte, tail: nat)
    requires tail <= 3
    ensures WithTail(x, tail) % 4 == tail
  {}

  lemma MergedIs(b: seq<byte>, n: seq<byte>, lp: nat, l: nat, k: nat, t: nat, next: nat, m: seq<byte>)
    requires Merged(b, n, lp, l, k, t, next, m)
    ensures lp + 2 < |n| && n[lp] % 4 == 0 && n[lp + 2] == l + k + t
    ensures Agree(b, n, next + 1, |b|)
  {}

  lemma MergedStage(s: seq<byte>, res: (seq<byte>, nat), b: seq<byte>, n: seq<byte>, cs: seq<Config>, c: Config,
                    lp: nat, l: nat, f: Found, k: nat, t: nat) returns (ds: seq<Config>)
    requires Stage(s, res, b, cs, c, lp, l) && l <= 3 && (k == 2 || k == 3)
    requires ReadOp(s, c.ip, c.mode) == Some(f) && f.op.Match? && f.next == c.ip + k
    requires f.op.len == k && f.op.tail == 0 && 1 <= f.op.dist <= |c.out|
    requires f.next < |b| == |n| && 0 < b[f.next] < 16 && l + k + b[f.next] < 16 && t == b[f.next]
    requires Merged(b, n, lp, l, k, t, f.next, Copied(c.out, f.op.dist, k))
    ensures lp + 2 < |n| && n[lp] % 4 == 0 && n[lp + 2] == l + k + t
    ensures var e := f.next + 1 + t + 3;
            && e <= |s| == |n| && n[f.next + 1..e] == s[f.next + 1..e] && |c.out| + k + t + 3 <= |res.0|
            && Stage(s, res, n, ds, Config(e, Run, c.out + Copied(c.out, f.op.dist, k) + s[f.next + 1..e]), lp + 2,
                     l + k + t + 3)
  {
    hide Stage, ReadOp, Copied, WithTail;
    MergedIs(b, n, lp, l, k, t, f.next, Copied(c.out, f.op.dist, k));
    ShortBefore(s, res, b, cs, c, lp, l);
    ds := MergeStage(s, res, b, n, cs, c, lp, l, k, f.next);
    assert s[f.next] == b[f.next];
    MergeRoom(s, res, c, k, f.next);
    SameTail(b, n, s, f.next + 1, f.next + 1 + t + 3);
  }

  /**
   * The bytes after a count is cleared (`b1`), the literals are moved (`b2`) and the new run's
   * length is set (`n`).
   */
  lemma MergedBytes(b: seq<byte>, b1: seq<byte>, b2: seq<byte>, n: seq<byte>, lp: nat, l: nat, k: nat, t: nat,
                    next: nat)
    requires |b| == |b1| == |b2| == |n| && lp + 2 + l + k == next < |b| && (k == 2 || k == 3)
    requires Agree(b, b1, 0, lp) && Agree(b, b1, lp + 1, next - k + 1) && Agree(b, b1, next + 1, |b|)
    requires Agree(b1, b2, 0, lp + 3) && b2[lp + 3..lp + 2 + l + 1] == b1[lp + 2..lp + 2 + l]
    requires Agree(b1, b2, lp + 2 + l + 1, |b|)
    requires SameBut(b2, n, lp + 2, lp + 3) && b1[lp] == WithTail(b[lp], 0) && n[lp + 2] == l + k + t
    ensures Merged(b, n, lp, l, k, t, next, b1[next - k + 1..next + 1])
  {
    hide WithTail;
    assert n[lp + 3..next - k + 1] == b2[lp + 3..next - k + 1];
    assert b1[lp + 2..next - k] == b[lp + 2..next - k];
    assert n[next - k + 1..next + 1] == b1[next - k + 1..next + 1];
    assert Agree(b, n, 0, lp) && Agree(b, n, next + 1, |b|);
  }

  lemma SameTail(b: seq<byte>, t: seq<byte>, s: seq<byte>, i: nat, j: nat)
    requires Agree(b, t, i, |b|) && Agree(b, s, i, |b|) && i <= j <= |b|
    ensures t[i..j] == s[i..j]
  {}

  /** There is room for a match and the literal run after it. */
  lemma MergeRoom(s: seq<byte>, res: (seq<byte>, nat), c: Config, k: nat, next: nat)
    requires DecodeFrom(s, c) == Some(res) && (k == 2 || k == 3)
    requires ReadOp(s, c.ip, c.mode).Some? && ReadOp(s, c.ip, c.mode).value.op.Match?
    requires var f := ReadOp(s, c.ip, c.mode).value; f.op.len == k && f.op.tail == 0 && f.next == next
    requires next < |s| && 0 < s[next] < 16
    ensures next + 1 + s[next] + 3 <= |s| && |c.out| + k + s[next] + 3 <= |res.0|
  {
    hide ReadOp, Copied, DecodeFrom;
    OverBoth(s, res, c, k);
    var f, e := ReadOp(s, c.ip, c.mode).value, next + 1 + s[next] + 3;
    DecodeGrows(s, Config(e, Run, c.out + Copied(c.out, f.op.dist, k) + s[next + 1..e]));
  }

  /** A short run ends where the current instruction starts. */
  lemma ShortBefore(s: seq<byte>, res: (seq<byte>, nat), b: seq<byte>, cs: seq<Config>, c: Config, litp: int,
                    lit: nat)
    requires Stage(s, res, b, cs, c, litp, lit) && litp >= 0 && lit <= 3
    ensures cs != [] && c.ip == litp + 2 + lit && DecodeFrom(s, c) == Some(res) && litp < |b|
    ensures Agree(b, s, c.ip, |b|)
  {
    hide ReadOp;
  }

  lemma RunBefore(s: seq<byte>, res: (seq<byte>, nat), b: seq<byte>, cs: seq<Config>, c: Config, litp: int, lit: nat)
    requires Stage(s, res, b, cs, c, litp, lit) && litp >= 0 && 3 < lit < 16
    ensures c.ip == litp + 1 + lit && DecodeFrom(s, c) == Some(res) && litp < |b| && Agree(b, s, c.ip, |b|)
  {
    hide ReadOp;
  }

  lemma CopyOne(o: seq<byte>, k: nat, dist: nat)
    requires 1 <= dist <= |o| && k > 0
    ensures Copy(o, k, dist) == Copy(o + [o[|o| - dist]], k - 1, dist)
  {}

  lemma CopyEnd(o: seq<byte>, dist: nat)
    requires 1 <= dist <= |o|
    ensures Copy(o, 0, dist) == o
  {}

  lemma StageStep(s: seq<byte>, res: (seq<byte>, nat), b: seq<byte>, cs: seq<Config>, c: Config, litp: int, lit: nat)
    requires Stage(s, res, b, cs, c, litp, lit) && Step(s, c).Some?
    ensures DecodeFrom(s, Step(s, c).value) == Some(res)
  {
    hide ReadOp, Copy, Path;
    DecodeStep(s, c, Step(s, c).value);
  }

  lemma StageAgrees(s: seq<byte>, res: (seq<byte>, nat), b: seq<byte>, cs: seq<Config>, c: Config, litp: int,
                    lit: nat)
    requires Stage(s, res, b, cs, c, litp, lit)
    ensures Agree(b, s, c.ip, |b|) && ReadOp(b, c.ip, c.mode) == ReadOp(s, c.ip, c.mode)
    ensures ReadOp(s, c.ip, c.mode).Some?
    ensures litp < |b|
  {
    hide ReadOp, AfterMatch, AfterRun;
    SameOp(s, res, b, cs, c, litp, lit);
  }
}
