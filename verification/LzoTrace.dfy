/** When the LZO1X optimiser rewrites an instruction, and how it goes on. */
module LzoTrace {
  import opened Bits
  import opened Wrappers
  import opened Lzo1x

  /** The block so far, where the pass stands, and where the literals before that are counted, and how many. */
  datatype State = State(b: seq<byte>, ip: nat, mode: Mode, litp: int, lit: nat)

  /** What becomes of an instruction; `k` bytes of a match become literals, `n` literals follow. */
  datatype Rewrite = Keep | Grow(k: nat) | Merge(k: nat, n: nat) | Join(n: nat)

  /** The number of literals of a run at `ip` that its first byte tells, or zero. */
  function ShortRun(b: seq<byte>, ip: nat): nat {
    var f := ReadOp(b, ip, Main);
    if f.Some? && f.value.op.Lits? && f.value.op.n <= 18 then f.value.op.n else 0
  }

  predicate NoRun(b: seq<byte>, ip: nat) {
    ReadOp(b, ip, Main).Some? && !ReadOp(b, ip, Main).value.op.Lits?
  }

  /**
   * A match without literals of its own becomes literals if that costs no more bytes: between two matches, if
   * the first one can take them; before a run, with the literals before it, if one byte can count them all; and
   * between two runs, if one byte can count them all and the match is one of three bytes in two.
   */
  function Due(x: State, f: Found): Rewrite {
    if x.litp < 0 || !f.op.Match? || f.op.tail != 0 then Keep else
    var k, size, n := f.op.len, f.next - x.ip, ShortRun(x.b, f.next);
    if size == k <= 3 && x.lit + k == 3 && NoRun(x.b, f.next) then Grow(k)
    else if size == k <= 3 && x.lit <= 3 && n > 0 && x.lit + k + n <= 18 then Merge(k, n)
    else if size == 2 && k == 3 && f.op.dist <= 2048 && x.lit > 3 && n > 0 && x.lit + k + n <= 18 then Join(n)
    else Keep
  }

  /** The state after an instruction that stays. */
  function Kept(x: State, f: Found): State
    requires !f.op.End? && (f.op.Match? ==> f.next >= 2)
  {
    match f.op
    case Lits(n) => State(x.b, f.next + n, Run, x.ip, n)
    case Match(len, dist, tail) => State(x.b, f.next + tail, if tail == 0 then Main else Short, f.next - 2, tail)
  }

  /** One instruction is kept or rewritten, whichever is due. */
  predicate Moves(x: State, y: State) {
    var r := ReadOp(x.b, x.ip, x.mode);
    && r.Some? && !r.value.op.End? && |y.b| == |x.b|
    && (r.value.op.Match? ==> r.value.next >= 2)
    && Becomes(x, r.value, Due(x, r.value), y)
  }

  predicate Becomes(x: State, f: Found, d: Rewrite, y: State) {
    match d
    case Keep => !f.op.End? && (f.op.Match? ==> f.next >= 2) && y == Kept(x, f)
    case Grow(k) =>
      && y.ip == f.next && y.mode == Main && y.litp == x.litp && y.lit == 3
      && 0 <= x.litp < |y.b| && y.b[x.litp] % 4 == 3
    case Merge(k, n) =>
      && y.ip == f.next + 1 + n && y.mode == Run && y.litp == x.litp + 2 && y.lit == x.lit + k + n
      && 0 <= x.litp < |y.b| - 2 && y.b[x.litp] % 4 == 0 && y.b[x.litp + 2] == y.lit - 3
    case Join(n) =>
      && y.ip == f.next + 1 + n && y.mode == Run && y.litp == x.litp && y.lit == x.lit + 3 + n
      && 0 <= x.litp < |y.b| && y.b[x.litp] == y.lit - 3
  }

  /** The states of a pass over the block `s`. */
  predicate Trace(s: seq<byte>, xs: seq<State>) {
    && xs != [] && Start(s).Some? && xs[0] == State(s, Start(s).value.ip, Start(s).value.mode, -1, 0)
    && forall i, j :: 0 <= i < |xs| && j == i + 1 < |xs| ==> Moves(xs[i], xs[j])
  }

  /** A complete pass, from the block `s` to the block `t`. */
  predicate Passes(s: seq<byte>, t: seq<byte>, xs: seq<State>) {
    && Trace(s, xs)
    && var x := xs[|xs| - 1];
       x.b == t && ReadOp(t, x.ip, x.mode).Some? && ReadOp(t, x.ip, x.mode).value.op.End?
  }

  lemma TraceMore(s: seq<byte>, xs: seq<State>, y: State)
    requires Trace(s, xs) && Moves(xs[|xs| - 1], y)
    ensures Trace(s, xs + [y])
  {
    hide Moves;
  }

  lemma Begun(s: seq<byte>, x: State)
    requires Start(s).Some? && x == State(s, Start(s).value.ip, Start(s).value.mode, -1, 0)
    ensures Trace(s, [x])
  {}

  lemma Passed(s: seq<byte>, x: State, xs: seq<State>)
    requires Trace(s, xs) && xs != [] && x == xs[|xs| - 1]
    requires ReadOp(x.b, x.ip, x.mode).Some? && ReadOp(x.b, x.ip, x.mode).value.op.End?
    ensures Passes(s, x.b, xs)
  {}

  lemma BecomesKept(x: State, f: Found)
    requires !f.op.End? && (f.op.Match? ==> f.next >= 2)
    ensures Becomes(x, f, Keep, Kept(x, f))
  {}

  lemma BecomesGrown(x: State, f: Found, k: nat, y: State)
    requires y.ip == f.next && y.mode == Main && y.litp == x.litp && y.lit == 3
    requires 0 <= x.litp < |y.b| && y.b[x.litp] % 4 == 3
    ensures Becomes(x, f, Grow(k), y)
  {}

  lemma BecomesMerged(x: State, f: Found, k: nat, n: nat, y: State)
    requires y.ip == f.next + 1 + n && y.mode == Run && y.litp == x.litp + 2 && y.lit == x.lit + k + n
    requires 0 <= x.litp < |y.b| - 2 && y.b[x.litp] % 4 == 0 && y.b[x.litp + 2] == y.lit - 3
    ensures Becomes(x, f, Merge(k, n), y)
  {}

  lemma MovesOn(x: State, y: State, f: Found, d: Rewrite)
    requires ReadOp(x.b, x.ip, x.mode) == Some(f) && !f.op.End? && |y.b| == |x.b| && (f.op.Match? ==> f.next >= 2)
    requires Due(x, f) == d && Becomes(x, f, d, y)
    ensures Moves(x, y)
  {
    hide Due, Becomes, ReadOp;
  }

  // ---------- the tests of the pass ----------

  lemma KeepTrivially(x: State, f: Found)
    requires x.litp < 0 || !f.op.Match? || f.op.tail != 0
    ensures Due(x, f) == Keep
  {}

  lemma NextKind(b: seq<byte>, ip: nat)
    requires ReadOp(b, ip, Main).Some?
    ensures ip < |b| && (NoRun(b, ip) <==> b[ip] >= 16)
    ensures 0 < b[ip] < 16 ==> ShortRun(b, ip) == b[ip] + 3
    ensures ShortRun(b, ip) > 0 ==> 0 < b[ip] < 16
  {
    hide ReadCount;
  }

  /** How many bytes match instructions take, and what they stand for. */
  lemma Sizes(b: seq<byte>, ip: nat, mode: Mode)
    requires ReadOp(b, ip, mode).Some? && ReadOp(b, ip, mode).value.op.Match?
    ensures var f := ReadOp(b, ip, mode).value;
            && f.next >= 2 && f.op.len >= 2
            && (b[ip] >= 64 ==> f.next == ip + 2 && f.op.len >= 3 && f.op.dist <= 2048)
            && (16 <= b[ip] < 64 ==> f.next >= ip + 3 && f.op.len >= 3 && (f.op.len == 3 ==> f.next == ip + 3))
            && (b[ip] < 16 && mode == Short ==> f.next == ip + 2 && f.op.len == 2)
            && (b[ip] < 16 && mode != Short ==> f.next == ip + 2 && f.op.len == 3 && f.op.dist > 2048)
  {
    hide ReadCount;
  }

  predicate RunFits(b: seq<byte>, next: nat, rest: nat) {
    next < |b| && 0 < b[next] < 16 && rest + b[next] < 16
  }

  predicate MatchFollows(b: seq<byte>, next: nat) {
    next < |b| && b[next] >= 16
  }

  /** What is due for a match, by the bytes that the pass looks at. */
  lemma DueIs(x: State, f: Found)
    requires ReadOp(x.b, x.ip, x.mode) == Some(f) && f.op.Match? && x.litp >= 0 && f.op.tail == 0
    requires f.op.len <= 3 ==> ReadOp(x.b, f.next, Main).Some?
    requires x.ip < |x.b|
    ensures f.op.len <= 3 && f.next - x.ip == f.op.len && x.lit + f.op.len == 3 && MatchFollows(x.b, f.next) ==>
              Due(x, f) == Grow(f.op.len)
    ensures f.op.len <= 3 && f.next - x.ip == f.op.len && x.lit <= 3 && RunFits(x.b, f.next, x.lit + f.op.len) ==>
              Due(x, f) == Merge(f.op.len, x.b[f.next] + 3)
    ensures x.b[x.ip] >= 64 && f.op.len == 3 && x.lit > 3 && RunFits(x.b, f.next, x.lit + 3) ==>
              Due(x, f) == Join(x.b[f.next] + 3)
  {
    hide ReadOp;
    Sizes(x.b, x.ip, x.mode);
    if f.op.len <= 3 { NextKind(x.b, f.next); }
  }

  lemma KeepIs(x: State, f: Found)
    requires ReadOp(x.b, x.ip, x.mode) == Some(f) && f.op.Match? && x.litp >= 0 && f.op.tail == 0
    requires f.op.len <= 3 ==> ReadOp(x.b, f.next, Main).Some?
    requires x.ip < |x.b| && (x.mode == Short ==> x.lit <= 3)
    ensures x.b[x.ip] < 16 && x.mode == Short && !(x.lit == 1 && MatchFollows(x.b, f.next))
              && !RunFits(x.b, f.next, x.lit + 2) ==>
              Due(x, f) == Keep
    ensures 16 <= x.b[x.ip] < 64 && !(f.op.len == 3 && x.lit == 0 && MatchFollows(x.b, f.next))
              && !(f.op.len == 3 && x.lit <= 3 && RunFits(x.b, f.next, x.lit + 3)) ==>
              Due(x, f) == Keep
    ensures x.b[x.ip] >= 64 && !(f.op.len == 3 && x.lit > 3 && RunFits(x.b, f.next, x.lit + 3)) ==> Due(x, f) == Keep
    ensures x.b[x.ip] < 16 && x.mode != Short ==> Due(x, f) == Keep
  {
    hide ReadOp;
    Sizes(x.b, x.ip, x.mode);
    if f.op.len <= 3 { NextKind(x.b, f.next); }
  }
}
