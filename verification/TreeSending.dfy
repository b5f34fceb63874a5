/** Tallying and sending the code lengths of a tree, run by run. */
module TreeSending {
  import opened Numbers
  import opened Bits
  import opened Canonical
  import opened Rfc1951
  import opened LengthCoding
  import opened BitWriter
  import opened Huffman

  const GUARD := 0xffff

  /** How often the symbol `s` of the code length alphabet is sent. */
  function Tally(ops: seq<Op>, s: nat): nat
    requires OpsOk(ops)
  {
    if ops == [] then 0
    else Tally(ops[..|ops| - 1], s) + if ops[|ops| - 1].Symbol() == s then 1 else 0
  }

  lemma {:induction false} TallyConcat(a: seq<Op>, b: seq<Op>, s: nat)
    requires OpsOk(a) && OpsOk(b)
    ensures OpsOk(a + b) && Tally(a + b, s) == Tally(a, s) + Tally(b, s)
  {
    BothOk(a, b);
    if b == [] {
      assert a + b == a;
    } else {
      assert (a + b)[..|a + b| - 1] == a + b[..|b| - 1];
      TallyConcat(a, b[..|b| - 1], s);
    }
  }

  lemma {:induction false} TallyPlains(cur: nat, n: nat, s: nat)
    requires cur <= MAX_BITS
    ensures Tally(Plains(cur, n), s) == if s == cur then n else 0
  {
    if n > 0 {
      assert Plains(cur, n)[..n - 1] == Plains(cur, n - 1);
      TallyPlains(cur, n - 1, s);
    }
  }

  lemma TallyOne(op: Op, s: nat)
    requires op.Ok()
    ensures Tally([op], s) == if op.Symbol() == s then 1 else 0
  {
    assert [op][..0] == [];
  }

  lemma TallyTwo(a: Op, b: Op, s: nat)
    requires a.Ok() && b.Ok()
    ensures Tally([a, b], s) == (if a.Symbol() == s then 1 else 0) + if b.Symbol() == s then 1 else 0
  {
    assert [a, b] == [a] + [b];
    TallyOne(a, s);
    TallyOne(b, s);
    TallyConcat([a], [b], s);
  }

  /** A run that cannot be extended has the length the coding gives it. */
  lemma {:induction false} RunLengthIs(lens: seq<nat>, i: nat, cur: nat, cap: nat, r: nat)
    requires i + r <= |lens| && r <= cap && forall k :: i <= k < i + r ==> lens[k] == cur
    requires r == cap || i + r == |lens| || lens[i + r] != cur
    ensures RunLength(lens, i, cur, cap) == r
    decreases r
  {
    if r > 0 { RunLengthIs(lens, i + 1, cur, cap - 1, r - 1); }
  }

  /**
   * The loop that both scans and sends a tree: `n` lengths have been read, the last `count` of them
   * belong to a run that is still open, and `todo` is what is to be done for the rest.
   */
  ghost predicate Reading(lens: seq<nat>, D: seq<nat>, n: nat, count: nat, prevlen: int, nextlen: nat,
                          maxCount: nat, minCount: nat, todo: seq<Op>) {
    && lens != [] && LensOk(lens) && |D| > |lens| && D[..|lens|] == lens && D[|lens|] == GUARD
    && count <= n <= |lens| && nextlen == D[n]
    && (count > 0 ==> n < |lens| && count < maxCount && forall k :: n - count <= k <= n ==> lens[k] == nextlen)
    && maxCount == MaxCount(D[n - count], prevlen) && minCount == MinCount(D[n - count], prevlen)
    && todo == Rle(lens, n - count, prevlen)
  }

  lemma ReadingStart(lens: seq<nat>, D: seq<nat>)
    requires lens != [] && LensOk(lens) && |D| > |lens| && D[..|lens|] == lens && D[|lens|] == GUARD
    ensures Reading(lens, D, 0, 0, -1, D[0], if D[0] == 0 then 138 else 7,
                    if D[0] == 0 then 3 else 4, Rle(lens, 0, -1))
  {}

  /** The run goes on. */
  lemma ReadingMore(lens: seq<nat>, D: seq<nat>, n: nat, count: nat, prevlen: int, nextlen: nat, maxCount: nat,
                    minCount: nat,
                    todo: seq<Op>)
    requires Reading(lens, D, n, count, prevlen, nextlen, maxCount, minCount, todo) && n < |lens|
    requires count + 1 < maxCount && nextlen == D[n + 1]
    ensures Reading(lens, D, n + 1, count + 1, prevlen, nextlen, maxCount, minCount, todo)
  {
    assert D[n] == D[..|lens|][n] == lens[n];
    if n + 1 < |lens| { assert D[n + 1] == D[..|lens|][n + 1]; }
    assert D[n - count] == D[..|lens|][n - count];
  }

  /** The run ends with the `n`-th length, and the next one begins. */
  lemma ReadingRun(lens: seq<nat>, D: seq<nat>, n: nat, count: nat, prevlen: int, cur: nat, maxCount: nat,
                   minCount: nat,
                   todo: seq<Op>)
    requires Reading(lens, D, n, count, prevlen, cur, maxCount, minCount, todo) && n < |lens|
    requires count + 1 >= maxCount || cur != D[n + 1]
    ensures cur <= MAX_BITS && 0 < count + 1 <= MaxCount(cur, prevlen) && minCount == MinCount(cur, prevlen)
    ensures OpsOk(RunOps(cur, prevlen, count + 1))
    ensures todo == RunOps(cur, prevlen, count + 1) + Rle(lens, n + 1, cur)
    ensures var next := D[n + 1];
            Reading(lens, D, n + 1, 0, cur, next,
                    if next == 0 then 138 else if cur == next then 6 else 7,
                    if next == 0 then 3 else if cur == next then 3 else 4, Rle(lens, n + 1, cur))
  {
    hide RunOps, Rle;
    var i := n - count;
    assert D[n] == D[..|lens|][n] == lens[n];
    assert D[i] == D[..|lens|][i] == lens[i];
    if n + 1 < |lens| { assert D[n + 1] == D[..|lens|][n + 1]; }
    RunLengthIs(lens, i, cur, MaxCount(cur, prevlen), count + 1);
    RleStep(lens, i, prevlen);
    RunLegal(cur, prevlen, count + 1);
  }

  lemma RunLegal(cur: nat, prev: int, r: nat)
    requires cur <= MAX_BITS && 0 < r <= MaxCount(cur, prev)
    ensures OpsOk(RunOps(cur, prev, r))
  {}

  lemma RunTally(cur: nat, prev: int, r: nat, s: nat)
    requires cur <= MAX_BITS && 0 < r <= MaxCount(cur, prev)
    ensures OpsOk(RunOps(cur, prev, r))
    ensures Tally(RunOps(cur, prev, r), s) ==
            if r < MinCount(cur, prev) then (if s == cur then r else 0)
            else if cur == 0 then (if s == (if r <= 10 then REPZ_3_10 else REPZ_11_138) then 1 else 0)
            else (if s == cur && cur != prev then 1 else 0) + if s == REP_3_6 then 1 else 0
  {
    RunLegal(cur, prev, r);
    if r < MinCount(cur, prev) {
      TallyPlains(cur, r, s);
    } else if cur == 0 {
      TallyOne(Zeros(r), s);
    } else if cur != prev {
      TallyTwo(Plain(cur), Again(r - 1), s);
    } else {
      TallyOne(Again(r), s);
    }
  }

  /** Adds up, in `bl`, how often each symbol will be needed to send the tree's lengths. */
  method ScanTree(t: CtData, maxCode: nat, bl: CtData)
    requires maxCode + 1 < t.dl.Length && t.dl != bl.fc && bl.fc.Length >= 19
    requires LensOk(t.dl[..maxCode + 1])
    modifies t.dl, bl.fc
    ensures t.dl[..] == old(t.dl[..])[maxCode + 1 := GUARD]
    ensures OpsOk(Rle(old(t.dl[..maxCode + 1]), 0, -1))
    ensures forall s :: 0 <= s < 19 ==> bl.fc[s] == old(bl.fc[s]) + Tally(Rle(old(t.dl[..maxCode + 1]), 0, -1), s)
    ensures forall s :: 19 <= s < bl.fc.Length ==> bl.fc[s] == old(bl.fc[s])
  {
    hide Reading, Tally, Rle, RunOps, MaxCount, MinCount, OpsOk;
    ghost var lens := t.dl[..maxCode + 1];
    var prevlen: int := -1;
    var nextlen := t.dl[0];
    var count, maxCount, minCount := 0, 7, 4;
    if nextlen == 0 {
      maxCount, minCount := 138, 3;
    }
    t.dl[maxCode + 1] := GUARD;
    ghost var D: seq<nat>, done: seq<Op>, todo := t.dl[..], [], Rle(lens, 0, -1);
    assert D[..maxCode + 1] == lens;
    ReadingStart(lens, D);
    NoTally();
    var n := 0;
    while n <= maxCode
      invariant n <= maxCode + 1 && t.dl[..] == D && OpsOk(done) && done + todo == Rle(lens, 0, -1)
      invariant Reading(lens, D, n, count, prevlen, nextlen, maxCount, minCount, todo)
      invariant forall s :: 0 <= s < 19 ==> bl.fc[s] == old(bl.fc[s]) + Tally(done, s)
      invariant forall s :: 19 <= s < bl.fc.Length ==> bl.fc[s] == old(bl.fc[s])
    {
      var curlen := nextlen;
      nextlen := t.dl[n + 1];
      n := n + 1;
      count := count + 1;
      if count < maxCount && curlen == nextlen {
        ReadingMore(lens, D, n - 1, count - 1, prevlen, curlen, maxCount, minCount, todo);
        continue;
      }
      ReadingRun(lens, D, n - 1, count - 1, prevlen, curlen, maxCount, minCount, todo);
      TallyRun(bl, curlen, prevlen, count, minCount);
      ghost var ops, rest := RunOps(curlen, prevlen, count), Rle(lens, n, curlen);
      BothOk(done, ops);
      forall s | 0 <= s < 19
        ensures Tally(done + ops, s) == Tally(done, s) + Tally(ops, s)
      {
        TallyConcat(done, ops, s);
      }
      Assoc(done, ops, rest);
      done, todo := done + ops, rest;
      count := 0;
      prevlen := curlen;
      maxCount, minCount := 7, 4;
      if nextlen == 0 {
        maxCount, minCount := 138, 3;
      } else if curlen == nextlen {
        maxCount, minCount := 6, 3;
      }
    }
    ReadingEnd(lens, D, count, prevlen, nextlen, maxCount, minCount, todo);
    assert done + [] == done;
  }

  lemma ReadingEnd(lens: seq<nat>, D: seq<nat>, count: nat, prevlen: int, nextlen: nat, maxCount: nat,
                   minCount: nat, todo: seq<Op>)
    requires Reading(lens, D, |lens|, count, prevlen, nextlen, maxCount, minCount, todo)
    ensures todo == []
  {}

  lemma NoTally()
    ensures OpsOk([]) && forall s :: Tally([], s) == 0
  {}

  method TallyRun(bl: CtData, cur: nat, prev: int, count: nat, minCount: nat)
    requires bl.fc.Length >= 19 && cur <= MAX_BITS && 0 < count <= MaxCount(cur, prev)
    requires minCount == MinCount(cur, prev)
    modifies bl.fc
    ensures OpsOk(RunOps(cur, prev, count))
    ensures forall s :: 0 <= s < 19 ==> bl.fc[s] == old(bl.fc[s]) + Tally(RunOps(cur, prev, count), s)
    ensures forall s :: 19 <= s < bl.fc.Length ==> bl.fc[s] == old(bl.fc[s])
  {
    hide Tally, RunOps, OpsOk;
    RunLegal(cur, prev, count);
    forall s | 0 <= s < 19
      ensures Tally(RunOps(cur, prev, count), s) ==
              if count < minCount then (if s == cur then count else 0)
              else if cur == 0 then (if s == (if count <= 10 then REPZ_3_10 else REPZ_11_138) then 1 else 0)
              else (if s == cur && cur != prev then 1 else 0) + if s == REP_3_6 then 1 else 0
    {
      RunTally(cur, prev, count, s);
    }
    if count < minCount {
      bl.fc[cur] := bl.fc[cur] + count;
    } else if cur != 0 {
      if cur != prev {
        bl.fc[cur] := bl.fc[cur] + 1;
      }
      bl.fc[REP_3_6] := bl.fc[REP_3_6] + 1;
    } else if count <= 10 {
      bl.fc[REPZ_3_10] := bl.fc[REPZ_3_10] + 1;
    } else {
      bl.fc[REPZ_11_138] := bl.fc[REPZ_11_138] + 1;
    }
  }

  // ---------- sending ----------

  /** The bit length codes are in place. */
  ghost predicate ClReady(bl: CtData, cl: seq<nat>)
    reads bl.fc, bl.dl
  {
    |cl| == 19 <= bl.fc.Length && 19 <= bl.dl.Length && bl.dl[..19] == cl && CodesOf(bl.fc[..], cl)
    && (forall i :: 0 <= i < 19 ==> cl[i] <= 7)
  }

  method SendCode(bl: CtData, c: nat, bw: Writer, ghost cl: seq<nat>)
    requires ClReady(bl, cl) && c < 19 && cl[c] > 0 && bw.Valid() && Separate(bw, bl)
    modifies bw, bw.outbuf
    ensures bw.Valid() && bw.Stream() == old(bw.Stream()) + Code(cl, c)
  {
    hide Code, Lsb;
    assert bl.dl[c] == bl.dl[..19][c];
    assert CodeAt(bl.fc[..][c], cl, c);
    bw.SendBits(bl.fc[c], bl.dl[c]);
  }

  /** The work on the output does not touch the codes. */
  ghost predicate Separate(bw: Writer, t: CtData) {
    bw.outbuf as object != t.fc && bw.outbuf as object != t.dl
  }

  lemma EncPlainsNext(cl: seq<nat>, cur: nat, k: nat)
    requires AllSendable(cl, Plains(cur, k + 1))
    ensures cur <= MAX_BITS && AllSendable(cl, Plains(cur, k))
    ensures |cl| == 19 && cl[cur] > 0 && EncOps(cl, Plains(cur, k + 1)) == EncOps(cl, Plains(cur, k)) + Code(cl, cur)
  {
    hide Code;
    var ops := Plains(cur, k + 1);
    assert ops[..k] == Plains(cur, k) && ops[k] == Plain(cur);
    assert Sendable(cl, ops[k]);
    assert EncOp(cl, Plain(cur)) == Code(cl, cur) + [] == Code(cl, cur);
  }

  lemma EncOne(cl: seq<nat>, op: Op)
    requires Sendable(cl, op)
    ensures EncOps(cl, [op]) == Code(cl, op.Symbol()) + op.Extra()
  {
    hide Code;
    assert [op][..0] == [];
    assert EncOps(cl, []) == [];
    assert [] + EncOp(cl, op) == EncOp(cl, op);
  }

  lemma EncTwo(cl: seq<nat>, cur: nat, op: Op)
    requires Sendable(cl, Plain(cur)) && Sendable(cl, op)
    ensures EncOps(cl, [Plain(cur), op]) == Code(cl, cur) + (Code(cl, op.Symbol()) + op.Extra())
  {
    hide Code;
    var a: seq<Op>, b: seq<Op> := [Plain(cur)], [op];
    assert a + b == [Plain(cur), op];
    EncOpsConcat(cl, a, b);
    EncOne(cl, Plain(cur));
    EncOne(cl, op);
    assert Code(cl, cur) + [] == Code(cl, cur);
  }

  /** Sends a symbol and its repeat count. */
  method SendRepeat(bl: CtData, op: Op, value: nat, width: nat, bw: Writer, ghost cl: seq<nat>)
    requires ClReady(bl, cl) && Sendable(cl, op) && op.Extra() == Lsb(value, width) && width <= 7
    requires value < Pow2(width)
    requires bw.Valid() && Separate(bw, bl)
    modifies bw, bw.outbuf
    ensures bw.Valid() && bw.Stream() == old(bw.Stream()) + (Code(cl, op.Symbol()) + op.Extra())
  {
    hide Code, Lsb, Pow2;
    ghost var b := bw.Stream();
    SendCode(bl, op.Symbol(), bw, cl);
    bw.SendBits(value, width);
    Assoc(b, Code(cl, op.Symbol()), op.Extra());
  }

  /** Sends the symbols for a run. */
  method SendRun(bl: CtData, cur: nat, prev: int, count0: nat, minCount: nat, bw: Writer, ghost cl: seq<nat>)
    requires ClReady(bl, cl) && bw.Valid() && Separate(bw, bl)
    requires cur <= MAX_BITS && 0 < count0 <= MaxCount(cur, prev) && minCount == MinCount(cur, prev)
    requires AllSendable(cl, RunOps(cur, prev, count0))
    modifies bw, bw.outbuf
    ensures bw.Valid() && bw.Stream() == old(bw.Stream()) + EncOps(cl, RunOps(cur, prev, count0))
  {
    hide Code, Lsb, Pow2, EncOps, Plains, ClReady;
    Pow2Table();
    var count := count0;
    if count < minCount {
      SendPlains(bl, cur, count, bw, cl);
    } else if cur != 0 {
      ghost var b := bw.Stream();
      if cur != prev {
        assert Sendable(cl, RunOps(cur, prev, count0)[0]) && Sendable(cl, RunOps(cur, prev, count0)[1]);
        EncTwo(cl, cur, Again(count - 1));
        SendCode(bl, cur, bw, cl);
        count := count - 1;
        Assoc(b, Code(cl, cur), Code(cl, REP_3_6) + Lsb(count - 3, 2));
      } else {
        assert Sendable(cl, RunOps(cur, prev, count0)[0]);
        EncOne(cl, Again(count));
      }
      SendRepeat(bl, Again(count), count - 3, 2, bw, cl);
    } else if count <= 10 {
      assert Sendable(cl, RunOps(cur, prev, count0)[0]);
      EncOne(cl, Zeros(count));
      SendRepeat(bl, Zeros(count), count - 3, 3, bw, cl);
    } else {
      assert Sendable(cl, RunOps(cur, prev, count0)[0]);
      EncOne(cl, Zeros(count));
      SendRepeat(bl, Zeros(count), count - 11, 7, bw, cl);
    }
  }

  /** Sends the same length several times. */
  method SendPlains(bl: CtData, cur: nat, count0: nat, bw: Writer, ghost cl: seq<nat>)
    requires ClReady(bl, cl) && bw.Valid() && Separate(bw, bl) && count0 > 0 && AllSendable(cl, Plains(cur, count0))
    modifies bw, bw.outbuf
    ensures bw.Valid() && bw.Stream() == old(bw.Stream()) + EncOps(cl, Plains(cur, count0))
  {
    hide Code, EncOps, ClReady;
    var count := count0;
    ghost var k := 0;
    NoEnc(cl, cur);
    while true
      invariant count == count0 - k > 0 && bw.Valid() && ClReady(bl, cl) && AllSendable(cl, Plains(cur, k))
      invariant bw.Stream() == old(bw.Stream()) + EncOps(cl, Plains(cur, k))
      decreases count
    {
      SendablePrefix(cl, cur, k + 1, count0);
      EncPlainsNext(cl, cur, k);
      Assoc(old(bw.Stream()), EncOps(cl, Plains(cur, k)), Code(cl, cur));
      SendCode(bl, cur, bw, cl);
      count := count - 1;
      k := k + 1;
      if count == 0 {
        break;
      }
    }
  }

  lemma NoEnc(cl: seq<nat>, cur: nat)
    ensures Plains(cur, 0) == [] && EncOps(cl, []) == []
  {}

  lemma {:induction false} SendablePrefix(cl: seq<nat>, cur: nat, k: nat, n: nat)
    requires AllSendable(cl, Plains(cur, n)) && k <= n
    ensures AllSendable(cl, Plains(cur, k))
  {
    forall i | 0 <= i < k
      ensures Sendable(cl, Plains(cur, k)[i])
    {
      assert Plains(cur, n)[i] == Plains(cur, k)[i];
    }
  }

  lemma SendableParts(cl: seq<nat>, a: seq<Op>, b: seq<Op>)
    requires AllSendable(cl, a + b)
    ensures AllSendable(cl, a) && AllSendable(cl, b)
  {
    forall i | 0 <= i < |a|
      ensures Sendable(cl, a[i])
    {
      assert (a + b)[i] == a[i];
    }
    forall i | 0 <= i < |b|
      ensures Sendable(cl, b[i])
    {
      assert (a + b)[|a| + i] == b[i];
    }
  }

  /** Sends the lengths of a tree, whose guard is already set, in run-length coded form. */
  method SendTree(t: CtData, maxCode: nat, bl: CtData, bw: Writer, ghost cl: seq<nat>)
    requires maxCode + 1 < t.dl.Length && LensOk(t.dl[..maxCode + 1]) && t.dl[maxCode + 1] == GUARD
    requires ClReady(bl, cl) && bw.Valid() && Separate(bw, bl) && Separate(bw, t)
    requires AllSendable(cl, Rle(t.dl[..maxCode + 1], 0, -1))
    modifies bw, bw.outbuf
    ensures bw.Valid() && bw.Stream() == old(bw.Stream()) + EncOps(cl, Rle(t.dl[..maxCode + 1], 0, -1))
  {
    hide Reading, EncOps, AllSendable, Rle, RunOps, MaxCount, MinCount, OpsOk, ClReady;
    ghost var lens, D := t.dl[..maxCode + 1], t.dl[..];
    assert D[..maxCode + 1] == lens;
    ghost var base := bw.Stream();
    var prevlen: int := -1;
    var nextlen := t.dl[0];
    var count, maxCount, minCount := 0, 7, 4;
    if nextlen == 0 {
      maxCount, minCount := 138, 3;
    }
    ghost var done: seq<Op>, todo := [], Rle(lens, 0, -1);
    ReadingStart(lens, D);
    NothingSent(cl);
    var n := 0;
    while n <= maxCode
      invariant n <= maxCode + 1 && t.dl[..] == D && done + todo == Rle(lens, 0, -1)
      invariant Reading(lens, D, n, count, prevlen, nextlen, maxCount, minCount, todo)
      invariant AllSendable(cl, done) && AllSendable(cl, todo) && ClReady(bl, cl)
      invariant bw.Valid() && bw.Stream() == base + EncOps(cl, done)
    {
      var curlen := nextlen;
      nextlen := t.dl[n + 1];
      n := n + 1;
      count := count + 1;
      if count < maxCount && curlen == nextlen {
        ReadingMore(lens, D, n - 1, count - 1, prevlen, curlen, maxCount, minCount, todo);
        continue;
      }
      ReadingRun(lens, D, n - 1, count - 1, prevlen, curlen, maxCount, minCount, todo);
      ghost var ops, rest := RunOps(curlen, prevlen, count), Rle(lens, n, curlen);
      SendableParts(cl, ops, rest);
      SendRun(bl, curlen, prevlen, count, minCount, bw, cl);
      Assoc(base, EncOps(cl, done), EncOps(cl, ops));
      EncOpsConcat(cl, done, ops);
      BothSendable(cl, done, ops);
      Assoc(done, ops, rest);
      done, todo := done + ops, rest;
      count := 0;
      prevlen := curlen;
      if nextlen == 0 {
        maxCount, minCount := 138, 3;
      } else if curlen == nextlen {
        maxCount, minCount := 6, 3;
      } else {
        maxCount, minCount := 7, 4;
      }
    }
    ReadingEnd(lens, D, count, prevlen, nextlen, maxCount, minCount, todo);
    assert done + [] == done;
  }

  lemma NothingSent(cl: seq<nat>)
    ensures AllSendable(cl, []) && EncOps(cl, []) == []
  {}

  lemma BothSendable(cl: seq<nat>, a: seq<Op>, b: seq<Op>)
    requires AllSendable(cl, a) && AllSendable(cl, b)
    ensures AllSendable(cl, a + b)
  {}
}
