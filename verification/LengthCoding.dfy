/** Run-length coding of code lengths, section 3.2.7 of RFC 1951. */
module LengthCoding {
  import opened Numbers
  import opened Bits
  import opened Canonical
  import opened Rfc1951
  import opened Decoding

  const REP_3_6 := 16
  const REPZ_3_10 := 17
  const REPZ_11_138 := 18

  /** One symbol of the code length alphabet, with its repeat count. */
  datatype Op = Plain(l: nat) | Again(n: nat) | Zeros(n: nat) {
    predicate Ok() {
      match this
      case Plain(l) => l <= MAX_BITS
      case Again(n) => 3 <= n <= 6
      case Zeros(n) => 3 <= n <= 138
    }

    function Symbol(): (r: nat)
      requires Ok()
      ensures r < 19
    {
      match this
      case Plain(l) => l
      case Again(_) => REP_3_6
      case Zeros(n) => if n <= 10 then REPZ_3_10 else REPZ_11_138
    }

    /** The repeat count, as it is sent. */
    function Extra(): Bits
      requires Ok()
    {
      match this
      case Plain(_) => []
      case Again(n) => Lsb(n - 3, 2)
      case Zeros(n) => if n <= 10 then Lsb(n - 3, 3) else Lsb(n - 11, 7)
    }
  }

  predicate OpsOk(ops: seq<Op>) {
    forall i :: 0 <= i < |ops| ==> ops[i].Ok()
  }

  /** What an operation appends to the lengths read so far. */
  function Run(acc: seq<nat>, op: Op): seq<nat> {
    match op
    case Plain(l) => acc + [l]
    case Again(n) => if acc == [] then acc else acc + Repeat(acc[|acc| - 1], n)
    case Zeros(n) => acc + Repeat(0, n)
  }

  function RunAll(acc: seq<nat>, ops: seq<Op>): seq<nat> {
    if ops == [] then acc else Run(RunAll(acc, ops[..|ops| - 1]), ops[|ops| - 1])
  }

  lemma {:induction false} RunAllConcat(acc: seq<nat>, a: seq<Op>, b: seq<Op>)
    ensures RunAll(acc, a + b) == RunAll(RunAll(acc, a), b)
  {
    if b == [] {
      assert a + b == a;
    } else {
      assert (a + b)[..|a + b| - 1] == a + b[..|b| - 1];
      RunAllConcat(acc, a, b[..|b| - 1]);
    }
  }

  // ---------- the runs the compressor chooses ----------

  function MaxCount(cur: nat, prev: int): (r: nat)
    ensures r > 0
  {
    if cur == 0 then 138 else if cur == prev then 6 else 7
  }

  function MinCount(cur: nat, prev: int): nat {
    if cur == 0 then 3 else if cur == prev then 3 else 4
  }

  /** How many elements from `i` on equal `cur`, at most `cap`. */
  function RunLength(lens: seq<nat>, i: nat, cur: nat, cap: nat): (r: nat)
    requires i <= |lens|
    ensures r <= cap && i + r <= |lens|
    ensures forall k :: i <= k < i + r ==> lens[k] == cur
    ensures r < cap && i + r < |lens| ==> lens[i + r] != cur
    decreases cap
  {
    if cap == 0 || i == |lens| || lens[i] != cur then 0 else 1 + RunLength(lens, i + 1, cur, cap - 1)
  }

  function Plains(cur: nat, n: nat): (r: seq<Op>)
    ensures |r| == n && forall i :: 0 <= i < n ==> r[i] == Plain(cur)
  {
    if n == 0 then [] else Plains(cur, n - 1) + [Plain(cur)]
  }

  /** The operations for a run of `r` times `cur`, after the length `prev`. */
  function RunOps(cur: nat, prev: int, r: nat): seq<Op> {
    if r < MinCount(cur, prev) then Plains(cur, r)
    else if cur == 0 then [Zeros(r)]
    else if cur != prev then [Plain(cur), Again(r - 1)]
    else [Again(r)]
  }

  /** The operations for `lens[i..]`, greedily run by run. */
  function Rle(lens: seq<nat>, i: nat, prev: int): seq<Op>
    requires i <= |lens|
    decreases |lens| - i
  {
    if i == |lens| then [] else
    var r := RunLength(lens, i, lens[i], MaxCount(lens[i], prev));
    RunOps(lens[i], prev, r) + Rle(lens, i + r, lens[i])
  }

  predicate EndsWith(acc: seq<nat>, prev: int) {
    prev >= 0 ==> acc != [] && acc[|acc| - 1] == prev
  }

  lemma {:induction false} RunPlains(acc: seq<nat>, cur: nat, n: nat)
    ensures RunAll(acc, Plains(cur, n)) == acc + Repeat(cur, n)
  {
    if n > 0 {
      RunPlains(acc, cur, n - 1);
      assert Plains(cur, n)[..n - 1] == Plains(cur, n - 1);
    }
  }

  /** Every run is legal and expands to the run it stands for. */
  lemma RunOpsExpand(acc: seq<nat>, cur: nat, prev: int, r: nat)
    requires cur <= MAX_BITS && 0 < r <= MaxCount(cur, prev) && EndsWith(acc, prev)
    ensures OpsOk(RunOps(cur, prev, r))
    ensures RunAll(acc, RunOps(cur, prev, r)) == acc + Repeat(cur, r)
  {
    NoOps(acc);
    if r < MinCount(cur, prev) {
      hide MinCount, RunAll;
      RunPlains(acc, cur, r);
    } else if cur == 0 {
      hide RunAll;
      OneOp(acc, Zeros(r));
    } else if cur != prev {
      hide RunAll, Repeat;
      TwoOps(acc, Plain(cur), Again(r - 1));
      RepeatMore(acc, cur, r - 1);
    } else {
      hide RunAll;
      OneOp(acc, Again(r));
    }
  }

  lemma NoOps(acc: seq<nat>)
    ensures RunAll(acc, []) == acc
  {}

  lemma OneOp(acc: seq<nat>, op: Op)
    ensures RunAll(acc, [op]) == Run(acc, op)
  {
    assert [op][..0] == [];
  }

  lemma TwoOps(acc: seq<nat>, a: Op, b: Op)
    ensures RunAll(acc, [a, b]) == Run(Run(acc, a), b)
  {
    assert [a, b][..1] == [a];
    OneOp(acc, a);
  }

  lemma RepeatMore(acc: seq<nat>, v: nat, n: nat)
    ensures (acc + [v]) + Repeat(v, n) == acc + Repeat(v, n + 1)
  {}

  /** Section 3.2.7's expansion undoes the compressor's run-length coding. */
  lemma {:induction false} RleExpand(acc: seq<nat>, lens: seq<nat>, i: nat, prev: int)
    requires i <= |lens| && LensOk(lens) && EndsWith(acc, prev)
    ensures OpsOk(Rle(lens, i, prev))
    ensures RunAll(acc, Rle(lens, i, prev)) == acc + lens[i..]
    decreases |lens| - i
  {
    hide RunOps, MaxCount, RunAll, Repeat, RunLength, EndsWith, Rle, OpsOk;
    if i < |lens| {
      var cur := lens[i];
      var r := RunLength(lens, i, cur, MaxCount(cur, prev));
      var ops, rest := RunOps(cur, prev, r), Rle(lens, i + r, cur);
      RleStep(lens, i, prev);
      RunOpsExpand(acc, cur, prev, r);
      RunAllConcat(acc, ops, rest);
      EndsRepeat(acc, cur, r);
      RleExpand(acc + Repeat(cur, r), lens, i + r, cur);
      BothOk(ops, rest);
      Peel(lens, i, r, cur);
      Assoc(acc, Repeat(cur, r), lens[i + r..]);
    } else {
      RleEnd(acc, lens, prev);
      assert acc + lens[i..] == acc;
    }
  }

  /** A run takes at least one length, and the rest of the coding follows it. */
  lemma RleStep(lens: seq<nat>, i: nat, prev: int)
    requires i < |lens|
    ensures var r := RunLength(lens, i, lens[i], MaxCount(lens[i], prev));
            r > 0 && Rle(lens, i, prev) == RunOps(lens[i], prev, r) + Rle(lens, i + r, lens[i])
  {}

  lemma RleEnd(acc: seq<nat>, lens: seq<nat>, prev: int)
    ensures Rle(lens, |lens|, prev) == [] && OpsOk([]) && RunAll(acc, []) == acc
  {}

  lemma BothOk(a: seq<Op>, b: seq<Op>)
    requires OpsOk(a) && OpsOk(b)
    ensures OpsOk(a + b)
  {}

  lemma EndsRepeat(acc: seq<nat>, v: nat, n: nat)
    requires n > 0
    ensures EndsWith(acc + Repeat(v, n), v)
  {}

  lemma Peel(lens: seq<nat>, i: nat, r: nat, cur: nat)
    requires i + r <= |lens| && forall k :: i <= k < i + r ==> lens[k] == cur
    ensures lens[i..] == Repeat(cur, r) + lens[i + r..]
  {}

  // ---------- sending the operations ----------

  predicate Sendable(cl: seq<nat>, op: Op) {
    op.Ok() && |cl| == 19 && cl[op.Symbol()] > 0
  }

  predicate AllSendable(cl: seq<nat>, ops: seq<Op>) {
    forall i :: 0 <= i < |ops| ==> Sendable(cl, ops[i])
  }

  function EncOp(cl: seq<nat>, op: Op): Bits
    requires Sendable(cl, op)
  {
    Code(cl, op.Symbol()) + op.Extra()
  }

  function EncOps(cl: seq<nat>, ops: seq<Op>): Bits
    requires AllSendable(cl, ops)
  {
    if ops == [] then [] else EncOps(cl, ops[..|ops| - 1]) + EncOp(cl, ops[|ops| - 1])
  }

  lemma {:induction false} EncOpsConcat(cl: seq<nat>, a: seq<Op>, b: seq<Op>)
    requires AllSendable(cl, a) && AllSendable(cl, b)
    ensures EncOps(cl, a + b) == EncOps(cl, a) + EncOps(cl, b)
  {
    hide EncOp;
    if b == [] {
      assert a + b == a;
    } else {
      assert (a + b)[..|a + b| - 1] == a + b[..|b| - 1];
      EncOpsConcat(cl, a, b[..|b| - 1]);
      Assoc(EncOps(cl, a), EncOps(cl, b[..|b| - 1]), EncOp(cl, b[|b| - 1]));
    }
  }

  lemma DecodeOp(cl: seq<nat>, s: Bits, pos: nat, n: nat, acc: seq<nat>, op: Op)
    requires GoodLengths(cl) && Sendable(cl, op) && |acc| < n && (op.Again? ==> acc != [])
    requires At(s, pos, EncOp(cl, op))
    ensures DecodeLengths(cl, s, pos, n, acc) == DecodeLengths(cl, s, pos + |EncOp(cl, op)|, n, Run(acc, op))
  {
    hide Code, At, Kraft, Lsb, Rfc1951.Symbol, Repeat, Pow2, GetBits;
    var sym := op.Symbol();
    AtConcat(s, pos, Code(cl, sym), op.Extra());
    SymbolAt(cl, s, pos, sym);
    var p := pos + cl[sym];
    Pow2Table();
    match op
    case Plain(_) =>
    case Again(k) => GetBitsAt(s, p, k - 3, 2);
    case Zeros(k) => if k <= 10 { GetBitsAt(s, p, k - 3, 3); } else { GetBitsAt(s, p, k - 11, 7); }
  }

  lemma {:induction false} RunAllGrows(acc: seq<nat>, ops: seq<Op>)
    ensures |acc| <= |RunAll(acc, ops)|
  {
    if ops != [] { RunAllGrows(acc, ops[..|ops| - 1]); }
  }

  /** Decoding the sent operations appends what they expand to. */
  lemma {:induction false} DecodeOps(cl: seq<nat>, s: Bits, pos: nat, n: nat, acc: seq<nat>, ops: seq<Op>)
    requires GoodLengths(cl) && AllSendable(cl, ops) && |RunAll(acc, ops)| <= n
    requires acc == [] && ops != [] ==> !ops[0].Again?
    requires At(s, pos, EncOps(cl, ops))
    ensures DecodeLengths(cl, s, pos, n, acc) == DecodeLengths(cl, s, pos + |EncOps(cl, ops)|, n, RunAll(acc, ops))
  {
    hide At, EncOp, DecodeLengths, GoodLengths, Run, Op.Symbol;
    if ops != [] {
      var front, op := ops[..|ops| - 1], ops[|ops| - 1];
      AtConcat(s, pos, EncOps(cl, front), EncOp(cl, op));
      SendableOk(cl, ops);
      RunAllLonger(acc, front, op);
      DecodeOps(cl, s, pos, n, acc, front);
      DecodeOp(cl, s, pos + |EncOps(cl, front)|, n, RunAll(acc, front), op);
    }
  }

  lemma SendableOk(cl: seq<nat>, ops: seq<Op>)
    requires AllSendable(cl, ops) && ops != []
    ensures OpsOk(ops[..|ops| - 1]) && ops[|ops| - 1].Ok()
  {}

  lemma RunAllLonger(acc: seq<nat>, front: seq<Op>, op: Op)
    requires op.Ok() && OpsOk(front) && (acc == [] && front != [] ==> !front[0].Again?)
    requires acc == [] && front == [] ==> !op.Again?
    ensures |RunAll(acc, front)| < |Run(RunAll(acc, front), op)|
    ensures op.Again? ==> RunAll(acc, front) != []
  {
    if front != [] {
      RunAllGrows(acc, front);
      NotEmpty(acc, front);
    }
  }

  lemma {:induction false} NotEmpty(acc: seq<nat>, ops: seq<Op>)
    requires ops != [] && OpsOk(ops) && (acc == [] ==> !ops[0].Again?)
    ensures RunAll(acc, ops) != []
  {
    if |ops| > 1 { NotEmpty(acc, ops[..|ops| - 1]); }
  }
}
