/** The sliding window: reading ahead, inserting strings, and searching for matches. */
module Window {
  import opened Numbers
  import opened Bits
  import opened Blocks
  import opened CodeLengths
  import opened HashChains
  import opened Parsing

  const WINDOW_SIZE: nat := 2 * WSIZE
  const MIN_LOOKAHEAD: nat := MAX_MATCH + MIN_MATCH + 1
  const MAX_DIST: nat := WSIZE - MIN_LOOKAHEAD
  const MAX_CHAIN: nat := 128
  const MAX_LAZY: nat := 16
  const GOOD_MATCH: nat := 8
  const NICE_MATCH: nat := 128

  /** The bytes to compress, and how many of them each read is willing to give. */
  class Input {
    const data: seq<byte>
    const splits: seq<nat>
    var pos: nat
    var calls: nat

    constructor (data: seq<byte>, splits: seq<nat>)
      ensures this.data == data && this.splits == splits && pos == 0
    {
      this.data, this.splits, pos, calls := data, splits, 0, 0;
    }

    /** Reads at least one byte and at most `max`; nothing at the end of the input only. */
    method Read(buf: array<byte>, at: nat, max: nat) returns (n: nat)
      requires pos <= |data| && max > 0 && at + max <= buf.Length
      modifies this, buf
      ensures pos == old(pos) + n <= |data| && n <= max && (n == 0 <==> old(pos) == |data|)
      ensures buf[..at] == old(buf[..at]) && buf[at..at + n] == data[old(pos)..pos]
    {
      var rest := |data| - pos;
      n := if rest <= max then rest else max;
      if calls < |splits| && 0 < splits[calls] < n {
        n := splits[calls];
      }
      calls := calls + 1;
      forall i | 0 <= i < n {
        buf[at + i] := data[pos + i];
      }
      pos := pos + n;
    }
  }

  class Matcher {
    const window: array<byte>
    const prev: array<nat> // links, and from WSIZE on the heads of the chains
    const input: Input
    var strstart: nat
    var matchStart: nat
    var lookahead: nat
    var insH: nat
    var prevLength: nat
    var eofile: bool
    var blockStart: int
    ghost var base: nat // where the window starts in the input

    /** Bytes past the window proper may be compared, but never count. */
    ghost predicate Shape() {
      window.Length == WINDOW_SIZE + MAX_MATCH && prev.Length == 2 * WSIZE && window as object != prev
    }

    constructor (input: Input)
      ensures this.input == input && Shape() && fresh(window) && fresh(prev)
      ensures strstart == 0 && matchStart == 0 && lookahead == 0 && insH == 0 && !eofile && blockStart == 0
      ensures base == 0
    {
      window := new byte[WINDOW_SIZE + MAX_MATCH](_ => 0);
      prev := new nat[2 * WSIZE](_ => 0);
      this.input := input;
      strstart, matchStart, lookahead, insH, prevLength, eofile, blockStart, base := 0, 0, 0, 0, 0, false, 0, 0;
    }

    /** How far the window holds input. */
    ghost function End(): int
      reads this`base, input`pos
    {
      input.pos - base
    }

    ghost predicate Filled()
      reads this`base, this`eofile, input`pos, window
    {
      && Shape() && base <= input.pos <= |input.data| && End() <= WINDOW_SIZE
      && window[..End()] == input.data[base..input.pos]
      && (eofile ==> input.pos == |input.data|)
    }

    /** The positions below `s` are in the hash chains. */
    ghost predicate Chained(s: nat)
      reads this`base, prev
    {
      Chains(prev[..], input.data, base, s)
    }

    /** The running hash has seen the two bytes at `s`. */
    ghost predicate Rolled(s: nat)
      reads this`base, this`insH
    {
      base + s + 1 < |input.data| ==> Agree(insH, HashTwo(input.data[base + s], input.data[base + s + 1]))
    }

    /** The window holds the current string and what is ahead of it. */
    ghost predicate Looking()
      reads this`base, this`eofile, this`strstart, this`lookahead, this`matchStart, input`pos, window
    {
      && Filled() && strstart + lookahead == End() && matchStart < U32
      && base % WSIZE == 0 && (base == 0 || strstart >= MAX_DIST)
    }

    // ---------- filling the window ----------

    method SlideLinks()
      requires prev.Length == 2 * WSIZE
      modifies prev
      ensures forall i :: 0 <= i < WSIZE + HASH_SIZE ==> prev[i] == Moved(old(prev[i]))
    {
      hide Moved;
      var n := 0;
      while n < HASH_SIZE
        invariant n <= HASH_SIZE
        invariant forall i :: 0 <= i < 2 * WSIZE ==>
                            prev[i] == if WSIZE <= i < WSIZE + n then Moved(old(prev[i])) else old(prev[i])
      {
        var m := prev[WSIZE + n];
        prev[WSIZE + n] := Moved(m);
        n := n + 1;
      }
      n := 0;
      while n < WSIZE
        invariant n <= WSIZE
        invariant forall i :: 0 <= i < WSIZE + HASH_SIZE ==>
                    prev[i] == if WSIZE <= i || i < n then Moved(old(prev[i])) else old(prev[i])
      {
        var m := prev[n];
        prev[n] := Moved(m);
        n := n + 1;
      }
    }

    /** Moves the upper half of the window to the lower half. */
    method Slide()
      requires Looking() && Chained(strstart) && strstart >= WSIZE + MAX_DIST
      modifies this`strstart, this`matchStart, this`blockStart, this`base, window, prev
      ensures Looking() && Chained(strstart) && base == old(base) + WSIZE
      ensures strstart == old(strstart) - WSIZE && blockStart == old(blockStart) - WSIZE
      ensures U(matchStart + base) == U(old(matchStart + base))
    {
      hide Chains, Moved;
      ghost var p0, b0, w0 := prev[..], base, window[..];
      ghost var s0, e0 := strstart, End();
      forall i | 0 <= i < WSIZE {
        window[i] := window[WSIZE + i];
      }
      assert window[..e0 - WSIZE] == w0[WSIZE..e0];
      assert w0[WSIZE..e0] == w0[..e0][WSIZE..];
      matchStart := U(matchStart - WSIZE);
      strstart := strstart - WSIZE;
      blockStart := blockStart - WSIZE;
      base := base + WSIZE;
      SlideLinks();
      SlideKeeps(p0, prev[..], input.data, b0, s0);
    }

    /** Reads more input when too little is ahead. */
    method FillWindow()
      requires Looking() && Chained(strstart) && lookahead < MIN_LOOKAHEAD
      modifies this`strstart, this`matchStart, this`lookahead, this`eofile, this`blockStart,
               this`base, window, prev, input
      ensures Looking() && Chained(strstart) && base + strstart == old(base + strstart)
      ensures base + blockStart == old(base + blockStart) && U(matchStart + base) == U(old(matchStart + base))
      ensures lookahead >= old(lookahead) && (old(strstart) >= 1 ==> strstart >= 1)
      ensures !old(eofile) ==> eofile || input.pos > old(input.pos)
      ensures input.pos >= old(input.pos)
    {
      hide Chains;
      var more := WINDOW_SIZE - lookahead - strstart;
      if strstart >= WSIZE + MAX_DIST {
        Slide();
        more := more + WSIZE;
      }
      if !eofile {
        ReadMore(more);
      }
    }

    lemma FilledIs()
      ensures Filled() <==>
              && Shape() && base <= input.pos <= |input.data| && End() <= WINDOW_SIZE
              && window[..End()] == input.data[base..input.pos] && (eofile ==> input.pos == |input.data|)
    {}

    method ReadMore(more: nat)
      requires Looking() && Chained(strstart) && !eofile && 0 < more && End() + more <= WINDOW_SIZE
      modifies this`lookahead, this`eofile, window, input
      ensures Looking() && Chained(strstart) && lookahead >= old(lookahead)
      ensures eofile || input.pos > old(input.pos)
      ensures input.pos >= old(input.pos)
    {
      hide Chained, Filled;
      FilledIs();
      ghost var e: nat, pos := End(), input.pos;
      var n := input.Read(window, strstart + lookahead, more);
      MoreFilled(window[..], input.data, base, pos, e, n);
      if n == 0 {
        eofile := true;
      } else {
        lookahead := lookahead + n;
      }
      FilledIs();
    }

    lemma MoreFilled(w: seq<byte>, data: seq<byte>, base: nat, pos: nat, e: nat, n: nat)
      requires base + e == pos && pos + n <= |data| && e + n <= |w|
      requires w[..e] == data[base..pos] && w[e..e + n] == data[pos..pos + n]
      ensures w[..e + n] == data[base..pos + n]
    {
      assert w[..e + n] == w[..e] + w[e..e + n];
      assert data[base..pos + n] == data[base..pos] + data[pos..pos + n];
    }

    method FillWindowIfNeeded()
      requires Looking() && Chained(strstart)
      modifies this`strstart, this`matchStart, this`lookahead, this`eofile, this`blockStart,
               this`base, window, prev, input
      ensures Looking() && Chained(strstart) && base + strstart == old(base + strstart)
      ensures base + blockStart == old(base + blockStart) && U(matchStart + base) == U(old(matchStart + base))
      ensures lookahead >= MIN_LOOKAHEAD || eofile
      ensures lookahead >= old(lookahead) && (old(strstart) >= 1 ==> strstart >= 1)
      ensures old(eofile) ==> eofile && lookahead == old(lookahead)
      ensures old(Rolled(strstart)) ==> Rolled(strstart)
    {
      hide Chained, Filled;
      while lookahead < MIN_LOOKAHEAD && !eofile
        invariant Looking() && Chained(strstart) && base + strstart == old(base + strstart)
        invariant base + blockStart == old(base + blockStart) && U(matchStart + base) == U(old(matchStart + base))
        invariant lookahead >= old(lookahead) && (old(strstart) >= 1 ==> strstart >= 1)
        invariant old(eofile) ==> eofile && lookahead == old(lookahead)
        decreases |input.data| - input.pos, !eofile
      {
        FilledFacts();
        FillWindow();
        FilledFacts();
      }
    }

    lemma FilledFacts()
      requires Filled()
      ensures base <= input.pos <= |input.data|
    {}

    /** Prepares for a new input: the first bytes are read, and no string is in the chains. */
    method LmInit()
      requires Shape() && input.pos == 0 && base == 0 && strstart == 0 && matchStart == 0 && insH == 0 && !eofile
      requires blockStart == 0
      modifies this`strstart, this`matchStart, this`lookahead, this`eofile, this`blockStart,
               this`base, this`insH, window, prev, input
      ensures Looking() && Chained(strstart) && Rolled(strstart) && base + strstart == 0 && base + blockStart == 0
      ensures lookahead >= MIN_LOOKAHEAD || eofile
    {
      hide Chains, UpdateHash, Agree;
      ClearHeads();
      lookahead := input.Read(window, 0, WINDOW_SIZE);
      NoChains(prev[..], input.data);
      if lookahead == 0 {
        eofile := true;
        return;
      }
      FillWindowIfNeeded();
      FirstHash();
    }

    /** Takes the first two bytes into the hash. */
    method FirstHash()
      requires Filled() && insH == 0 && base == 0 && (eofile || End() >= MIN_LOOKAHEAD)
      modifies this`insH
      ensures Rolled(0)
    {
      hide UpdateHash, Agree;
      var j := 0;
      while j < MIN_MATCH - 1
        invariant j <= 2 && Filled()
        invariant j == 0 ==> insH == 0
        invariant j == 1 ==> insH == UpdateHash(0, window[0])
        invariant j == 2 ==> insH == HashTwo(window[0], window[1])
      {
        insH := UpdateHash(insH, window[j]);
        j := j + 1;
      }
      if 1 < |input.data| {
        assert window[0] == window[..End()][0] && window[1] == window[..End()][1];
        AgreeSelf(insH);
      }
    }

    method ClearHeads()
      requires prev.Length == 2 * WSIZE
      modifies prev
      ensures forall i :: WSIZE <= i < WSIZE + HASH_SIZE ==> prev[i] == 0
    {
      var n := 0;
      while n < HASH_SIZE
        invariant n <= HASH_SIZE && forall i :: WSIZE <= i < WSIZE + n ==> prev[i] == 0
      {
        prev[WSIZE + n] := 0;
        n := n + 1;
      }
    }

    /** Puts the strings inside the match that starts one byte back into the chains, and steps over it. */
    method SkipMatch()
      requires Looking() && Chained(strstart + 1) && Rolled(strstart + 1)
      requires MIN_MATCH <= prevLength <= MAX_MATCH && prevLength <= lookahead + 1
      requires (lookahead >= MIN_LOOKAHEAD || eofile)
      modifies this`strstart, this`lookahead, this`prevLength, this`insH, prev
      ensures Looking() && Chained(strstart) && Rolled(strstart)
      ensures strstart == old(strstart) + old(prevLength) - 1
    {
      hide Chained, Rolled, Filled, Nearest, HashAt;
      ghost var s0, n: nat, ahead := strstart, prevLength - 2, lookahead - (prevLength - 1);
      SkipFacts();
      lookahead := lookahead - (prevLength - 1);
      prevLength := prevLength - 2;
      while true
        invariant Filled() && Chained(strstart + 1) && Rolled(strstart + 1) && 1 <= prevLength
        invariant strstart == s0 + n - prevLength
        invariant lookahead == ahead
        decreases prevLength
      {
        strstart := strstart + 1;
        var hashHead := InsertString(strstart);
        prevLength := prevLength - 1;
        if prevLength == 0 {
          break;
        }
      }
      strstart := strstart + 1;
    }

    lemma SkipFacts()
      requires Looking()
      ensures End() == strstart + lookahead <= WINDOW_SIZE
    {}

    // ---------- strings and matches ----------

    /** `m` may be a string like the one at `s`: it is earlier, and has the same hash. */
    ghost predicate Candidate(m: nat, s: nat)
      reads this`base
    {
      m < s && (base + s + 2 < |input.data| ==> HashAt(input.data, base + m) == HashAt(input.data, base + s))
    }

    /** The running hash with one more byte is the hash of the string at `s`. */
    lemma NextHash(s: nat)
      requires Filled() && Rolled(s) && s < WINDOW_SIZE && (!eofile ==> s + 2 < End()) && base + s + 2 < |input.data|
      ensures s + 2 < window.Length && UpdateHash(insH, window[s + 2]) == HashAt(input.data, base + s)
      ensures Agree(UpdateHash(insH, window[s + 2]), HashTwo(input.data[base + s + 1], input.data[base + s + 2]))
    {
      hide UpdateHash, Agree, HashTwo, HashThree;
      var d := input.data;
      assert window[s + 2] == window[..End()][s + 2] == d[base + s + 2];
      RollHash(insH, d[base + s], d[base + s + 1], d[base + s + 2]);
    }

    /** Puts the string at `s` into the chains, and returns the head of its chain before: the last with its hash. */
    method InsertString(s: nat) returns (matchHead: nat)
      requires Filled() && Chained(s) && Rolled(s) && s < WINDOW_SIZE
      requires !eofile ==> s + 2 < End()
      modifies this`insH, prev
      ensures Chained(s + 1) && Rolled(s + 1)
      ensures matchHead == 0 || Candidate(matchHead, s)
      ensures insH < HASH_SIZE && matchHead == old(prev[..])[WSIZE + insH]
      ensures base + s + 2 < |input.data| ==>
                insH == HashAt(input.data, base + s) && Nearest(input.data, base, base + s, base + matchHead)
    {
      hide Chains, UpdateHash, Agree, HashTwo, HashThree, HashAt, Nearest, NoneBetween, HeadOk;
      ghost var p: seq<nat>, d := prev[..], input.data;
      if base + s + 2 < |d| { NextHash(s); }
      insH := UpdateHash(insH, window[s + MIN_MATCH - 1]);
      matchHead := prev[WSIZE + insH];
      HeadAt(p, d, base, s, insH);
      HeadIsCandidate(p, d, base, s, insH);
      InsertKeeps(p, d, base, s, insH);
      prev[s % WSIZE] := matchHead;
      prev[WSIZE + insH] := s;
      assert prev[..] == p[s % WSIZE := p[WSIZE + insH]][WSIZE + insH := s];
    }

    /** The bytes `k` places after `m` and after the current string are the same. */
    ghost predicate Same(m: nat, k: nat)
      reads this`strstart, window
    {
      m + k < window.Length && strstart + k < window.Length && window[m + k] == window[strstart + k]
    }

    /** How many bytes at `m` and at the current string are the same, given that the first three are. */
    method MatchLength(m: nat) returns (len: nat)
      requires Shape() && m < strstart < WINDOW_SIZE
      ensures 3 <= len <= MAX_MATCH && forall k :: 3 <= k < len ==> Same(m, k)
      ensures len < MAX_MATCH ==> !Same(m, len)
    {
      len := 2;
      while true
        invariant 2 <= len <= MAX_MATCH - 8 && len % 8 == 2
        invariant forall k :: 3 <= k <= len ==> Same(m, k)
        decreases MAX_MATCH - len
      {
        // The end is looked for after every eight comparisons only.
        var i := 0;
        ghost var start := len;
        while i < 8
          invariant i <= 8 && len == start + i
          invariant forall k :: 3 <= k <= len ==> Same(m, k)
        {
          len := len + 1;
          i := i + 1;
          if window[m + len] != window[strstart + len] {
            return;
          }
          assert Same(m, len);
        }
        if len >= MAX_MATCH {
          return;
        }
      }
    }

    /** The first `n` bytes at `m` and at the current string are the same. */
    ghost predicate AllSame(m: nat, n: nat)
      reads this`strstart, window
    {
      forall k :: 0 <= k < n ==> Same(m, k)
    }

    /** A match of `len` bytes at `m` is one for all of the input that is ahead. */
    ghost predicate RealMatch(m: nat, len: nat)
      reads this`base, this`strstart, this`lookahead
    {
      && m < strstart <= m + MAX_DIST
      && Repeats(input.data, base + strstart, strstart - m, if len <= lookahead then len else lookahead)
    }

    /** The window holds the input. */
    lemma InWindow(i: nat)
      requires Looking() && i < strstart + lookahead
      ensures i < window.Length && base + i < |input.data| && window[i] == input.data[base + i]
    {
      assert window[..End()][i] == input.data[base + i];
    }

    /** The third byte was not compared; the equal hashes make it the same. */
    lemma MatchIsReal(m: nat, len: nat)
      requires Looking() && m < strstart <= m + MAX_DIST && lookahead >= MIN_MATCH && Candidate(m, strstart)
      requires Same(m, 0) && Same(m, 1) && forall k :: 3 <= k < len ==> Same(m, k)
      ensures RealMatch(m, len)
    {
      hide HashThree, Looking;
      var d, a, dist := input.data, base + strstart, strstart - m;
      var n := if len <= lookahead then len else lookahead;
      InWindow(strstart);
      InWindow(strstart + 1);
      InWindow(strstart + 2);
      InWindow(m);
      InWindow(m + 1);
      ThirdByte(d[a], d[a + 1], d[a + 2], d[a - dist + 2]);
      AheadFits();
      forall i | a <= i < a + n
        ensures d[i] == d[i - dist]
      {
        var k := i - a;
        InWindow(strstart + k);
        InWindow(m + k);
        if k != 2 { assert Same(m, k); }
      }
    }

    lemma AheadFits()
      requires Looking()
      ensures base + strstart + lookahead <= |input.data|
    {}

    lemma RealByte(m: nat, len: nat, k: nat)
      requires RealMatch(m, len) && k < len && k < lookahead
      ensures base + strstart + k < |input.data| && input.data[base + strstart + k] == input.data[base + m + k]
    {
      var d, a := input.data, base + strstart;
      assert d[a + k] == d[a + k - (strstart - m)];
    }

    /** So the bytes in the window are the same. */
    lemma SameInWindow(m: nat, len: nat)
      requires Looking() && m < strstart && lookahead >= MIN_MATCH && RealMatch(m, len)
      requires Same(m, 0) && Same(m, 1) && forall k :: 3 <= k < len ==> Same(m, k)
      ensures AllSame(m, len)
    {
      hide Looking, RealMatch;
      if len >= 3 {
        InWindow(strstart + 2);
        InWindow(m + 2);
        RealByte(m, len, 2);
      }
    }

    /** Matches further back are out of reach; the first byte of the window is never used. */
    ghost function Limit(): nat
      reads this`strstart
    {
      if strstart > MAX_DIST then strstart - MAX_DIST else 0
    }

    /** How many candidates are tried at most: fewer when the previous match is already good. */
    ghost function Budget(): nat
      reads this`prevLength
    {
      if prevLength >= GOOD_MATCH then MAX_CHAIN / 4 else MAX_CHAIN
    }

    lemma LimitIs()
      ensures Limit() == if strstart > MAX_DIST then strstart - MAX_DIST else 0
      ensures Budget() == if prevLength >= GOOD_MATCH then MAX_CHAIN / 4 else MAX_CHAIN
    {}

    /** The candidates `tried` follow the links from `first`, all within reach. */
    ghost predicate Followed(tried: seq<nat>, first: nat)
      requires prev.Length == 2 * WSIZE
      reads this`strstart, prev
    {
      && tried != [] && tried[0] == first
      && forall i, j :: 0 <= i < |tried| && j == i + 1 < |tried| ==> Links(tried[i], tried[j])
    }

    ghost predicate Links(a: nat, b: nat)
      requires prev.Length == 2 * WSIZE
      reads this`strstart, prev
    {
      b == prev[a % WSIZE] > Limit()
    }

    /** No candidate is left to try, or the match is so good that none needs to be tried. */
    ghost predicate Exhausted(tried: seq<nat>, bestLen: nat)
      requires prev.Length == 2 * WSIZE && tried != []
      reads this`strstart, this`prevLength, prev
    {
      bestLen >= NICE_MATCH || |tried| == Budget() || prev[tried[|tried| - 1] % WSIZE] <= Limit()
    }

    ghost predicate AllBeaten(tried: seq<nat>, len: nat)
      reads this`strstart, window
    {
      forall i :: 0 <= i < |tried| ==> Beaten(tried[i], len)
    }

    /** The match is the first of the longest among the candidates. */
    ghost predicate First(tried: seq<nat>, at: nat, len: nat)
      reads this`strstart, this`matchStart, this`lookahead, window
    {
      && at < |tried| && tried[at] == matchStart && 0 < len && AllBeaten(tried[..at], len - 1)
      && (lookahead >= MIN_MATCH ==> AllSame(matchStart, len))
    }

    /** Looks through the chain from `curMatch` for a match longer than the previous one. */
    method LongestMatch(curMatch: nat) returns (bestLen: nat, ghost tried: seq<nat>, ghost at: nat)
      requires Looking() && Chained(strstart + 1) && lookahead >= 1 && 2 <= prevLength < MAX_LAZY
      requires Candidate(curMatch, strstart) && strstart <= curMatch + MAX_DIST
      modifies this`matchStart
      ensures Looking() && prevLength <= bestLen <= MAX_MATCH
      ensures bestLen == prevLength ==> matchStart == old(matchStart)
      ensures bestLen > prevLength && lookahead >= MIN_MATCH ==> RealMatch(matchStart, bestLen)
      ensures bestLen > prevLength ==> First(tried, at, bestLen)
      ensures Followed(tried, curMatch) && Exhausted(tried, bestLen) && AllBeaten(tried, bestLen)
      ensures |tried| <= Budget() && AllBeaten(tried[..|tried| - 1], NICE_MATCH - 1)
    {
      hide Chained, Candidate, AllBeaten, Beaten, Followed, RealMatch, First, AllSame, Looking, Progress, Exhausted;
      hide Links, Limit, Budget;
      LookingFacts(curMatch);
      var chainLength := MAX_CHAIN;
      bestLen := prevLength;
      var limit := if strstart > MAX_DIST then strstart - MAX_DIST else 0;
      if prevLength >= GOOD_MATCH {
        chainLength := chainLength / 4;
      }
      LimitIs();
      var scanEnd1, scanEnd := window[strstart + bestLen - 1], window[strstart + bestLen];
      var cur: nat := curMatch;
      tried, at := [], 0;
      NoneTried(curMatch, bestLen);
      ProgressIs([], 0, bestLen);
      while true
        invariant Looking() && cur < strstart <= cur + MAX_DIST && Candidate(cur, strstart)
        invariant prevLength <= bestLen < NICE_MATCH && chainLength > 0 && chainLength + |tried| == Budget()
        invariant scanEnd1 == window[strstart + bestLen - 1] && scanEnd == window[strstart + bestLen]
        invariant bestLen == prevLength ==> matchStart == old(matchStart)
        invariant Progress(tried, at, bestLen) && Followed(tried + [cur], curMatch)
        decreases cur
      {
        bestLen, at := TryCandidate(cur, bestLen, scanEnd1, scanEnd, tried, at);
        tried := tried + [cur];
        if bestLen >= NICE_MATCH {
          break;
        }
        scanEnd1, scanEnd := window[strstart + bestLen - 1], window[strstart + bestLen];
        cur := NextLink(cur);
        if cur <= limit {
          break;
        }
        FollowOn(tried, curMatch, cur);
        chainLength := chainLength - 1;
        if chainLength == 0 {
          break;
        }
      }
      Stops(tried, bestLen);
      ProgressIs(tried, at, bestLen);
    }

    /** What has been found among the candidates so far. */
    ghost predicate Progress(tried: seq<nat>, at: nat, best: nat)
      reads this`base, this`strstart, this`matchStart, this`lookahead, this`prevLength, window
    {
      && AllBeaten(tried, best)
      && (best > prevLength ==> First(tried, at, best) && (lookahead >= MIN_MATCH ==> RealMatch(matchStart, best)))
    }

    /** A match that is no longer changes nothing. */
    lemma Tried(tried: seq<nat>, at: nat, best: nat, cur: nat, len: nat)
      requires Progress(tried, at, best) && best < NICE_MATCH && Beaten(cur, if len > best then len else best)
      ensures AllBeaten(tried, best) && AllBeaten((tried + [cur])[..|tried + [cur]| - 1], NICE_MATCH - 1)
      ensures len <= best ==> Progress(tried + [cur], at, best)
    {
      hide AllBeaten, Beaten, RealMatch, AllSame;
      assert (tried + [cur])[..|tried|] == tried;
      Beating(tried, best, NICE_MATCH - 1);
      MoreBeaten(tried, cur, best, len);
      assert at <= |tried| ==> (tried + [cur])[..at] == tried[..at];
    }

    /** A longer match is the first of its length. */
    lemma Better(tried: seq<nat>, best: nat, cur: nat, len: nat)
      requires AllBeaten(tried, best) && best < len && Beaten(cur, len) && matchStart == cur
      requires lookahead >= MIN_MATCH ==> RealMatch(cur, len) && AllSame(cur, len)
      ensures Progress(tried + [cur], |tried|, len)
    {
      hide AllBeaten, Beaten, RealMatch, AllSame;
      assert (tried + [cur])[..|tried|] == tried;
      Beating(tried, best, len - 1);
      MoreBeaten(tried, cur, best, len);
    }

    /** Tries a candidate, and takes it if its match is longer than the best so far. */
    method TryCandidate(cur: nat, bestLen: nat, scanEnd1: byte, scanEnd: byte, ghost tried: seq<nat>, ghost at0: nat)
      returns (best: nat, ghost at: nat)
      requires Looking() && lookahead >= 1 && Candidate(cur, strstart) && strstart <= cur + MAX_DIST
      requires 2 <= bestLen < NICE_MATCH && Progress(tried, at0, bestLen) && prevLength <= bestLen
      requires scanEnd1 == window[strstart + bestLen - 1] && scanEnd == window[strstart + bestLen]
      modifies this`matchStart
      ensures Looking() && bestLen <= best <= MAX_MATCH && Progress(tried + [cur], at, best)
      ensures best == bestLen ==> matchStart == old(matchStart)
      ensures AllBeaten((tried + [cur])[..|tried + [cur]| - 1], NICE_MATCH - 1)
    {
      hide Filled, AllBeaten, Beaten, RealMatch, AllSame, Progress;
      SkipFacts();
      best, at := bestLen, at0;
      var len := TryMatch(cur, bestLen, scanEnd1, scanEnd);
      Tried(tried, at, bestLen, cur, len);
      if len > bestLen {
        matchStart := cur;
        best, at := len, |tried|;
        Better(tried, bestLen, cur, len);
      }
    }

    /** Before the first candidate nothing has been found, and at the end what has been found stands. */
    lemma ProgressIs(tried: seq<nat>, at: nat, best: nat)
      ensures AllBeaten([], best) && best == prevLength ==> Progress([], at, best)
      ensures Progress(tried, at, best) ==>
                && AllBeaten(tried, best)
                && (best > prevLength ==>
                    First(tried, at, best) && (lookahead >= MIN_MATCH ==> RealMatch(matchStart, best)))
    {
      hide AllBeaten, First, RealMatch;
    }

    lemma Beating(tried: seq<nat>, k: nat, len: nat)
      requires AllBeaten(tried, k) && k <= len
      ensures AllBeaten(tried, len)
    {
      forall i | 0 <= i < |tried|
        ensures Beaten(tried[i], len)
      {
        assert Beaten(tried[i], k);
      }
    }

    lemma NoneTried(cur: nat, len: nat)
      requires prev.Length == 2 * WSIZE
      ensures Followed([] + [cur], cur) && AllBeaten([], len)
    {}

    lemma FollowOn(tried: seq<nat>, first: nat, next: nat)
      requires prev.Length == 2 * WSIZE && Followed(tried, first)
      requires next == prev[tried[|tried| - 1] % WSIZE] > Limit()
      ensures Followed(tried + [next], first)
    {
      hide Links;
      LinksTo(tried[|tried| - 1], next);
    }

    lemma LinksTo(a: nat, b: nat)
      requires prev.Length == 2 * WSIZE && b == prev[a % WSIZE] > Limit()
      ensures Links(a, b)
    {}

    lemma Stops(tried: seq<nat>, best: nat)
      requires prev.Length == 2 * WSIZE && tried != []
      requires best >= NICE_MATCH || |tried| == Budget() || prev[tried[|tried| - 1] % WSIZE] <= Limit()
      ensures Exhausted(tried, best)
    {}

    lemma MoreBeaten(tried: seq<nat>, cur: nat, k: nat, len: nat)
      requires AllBeaten(tried, k) && Beaten(cur, if len > k then len else k)
      ensures AllBeaten(tried + [cur], if len > k then len else k)
    {
      forall i | 0 <= i < |tried|
        ensures Beaten(tried[i], if len > k then len else k)
      {
        assert Beaten(tried[i], k);
      }
    }

    /** A candidate that is skipped, or that ends where `len` says, has no longer match. */
    lemma LongEnough(cur: nat, bestLen: nat, len: nat)
      requires Shape() && cur < strstart < WINDOW_SIZE && 2 <= bestLen < NICE_MATCH
      requires len == 0 ==> !(Same(cur, bestLen) && Same(cur, bestLen - 1) && Same(cur, 0) && Same(cur, 1))
      requires 0 < len < MAX_MATCH ==> !Same(cur, len)
      ensures Beaten(cur, if len > bestLen then len else bestLen)
    {
      hide Same;
    }

    /** The match at `m` has at most `len` bytes. */
    ghost predicate Beaten(m: nat, len: nat)
      reads this`strstart, window
    {
      forall n: nat :: n <= MAX_MATCH && AllSame(m, n) ==> n <= len
    }

    lemma LookingFacts(m: nat)
      requires Looking() && lookahead >= 1 && Candidate(m, strstart)
      ensures window.Length == WINDOW_SIZE + MAX_MATCH && prev.Length == 2 * WSIZE && m < strstart < WINDOW_SIZE
    {}

    /** The next older string with the same hash, or zero. */
    method NextLink(cur: nat) returns (next: nat)
      requires Shape() && Chained(strstart + 1) && Candidate(cur, strstart) && strstart <= cur + MAX_DIST
      ensures next == prev[cur % WSIZE] && (next == 0 || (next < cur && Candidate(next, strstart)))
    {
      hide Chains, HashAt;
      LinkAt(prev[..], input.data, base, strstart + 1, cur);
      next := prev[cur % WSIZE];
    }

    /** Compares the string at `cur` if it may be longer than the best so far. */
    method TryMatch(cur: nat, bestLen: nat, scanEnd1: byte, scanEnd: byte) returns (len: nat)
      requires Looking() && lookahead >= 1 && Candidate(cur, strstart) && strstart <= cur + MAX_DIST
      requires 2 <= bestLen < NICE_MATCH
      requires scanEnd1 == window[strstart + bestLen - 1] && scanEnd == window[strstart + bestLen]
      ensures len <= MAX_MATCH && Beaten(cur, if len > bestLen then len else bestLen)
      ensures len > 0 && lookahead >= MIN_MATCH ==> RealMatch(cur, len) && AllSame(cur, len)
    {
      hide Beaten, HashAt;
      len := 0;
      if window[cur + bestLen] == scanEnd && window[cur + bestLen - 1] == scanEnd1
         && window[cur] == window[strstart] && window[cur + 1] == window[strstart + 1]
      {
        len := MatchLength(cur);
        if lookahead >= MIN_MATCH {
          MatchIsReal(cur, len);
          SameInWindow(cur, len);
        }
      }
      LongEnough(cur, bestLen, len);
    }
  }

  lemma LinkAt(prev: seq<nat>, data: seq<byte>, base: nat, s: nat, p: nat)
    requires Chains(prev, data, base, s) && p < s <= p + WSIZE
    ensures |prev| == 2 * WSIZE && LinkOk(prev, data, base, p)
  {}

  lemma AgreeSelf(h: nat)
    ensures Agree(h, h)
  {}

  /** The head of a chain is the nearest candidate. */
  lemma HeadIsCandidate(prev: seq<nat>, data: seq<byte>, base: nat, s: nat, h: nat)
    requires |prev| == 2 * WSIZE && h < HASH_SIZE && HeadOk(prev, data, base, s, h)
    requires base + s + 2 < |data| ==> h == HashAt(data, base + s)
    ensures var q := prev[WSIZE + h];
            && (q == 0 || (q < s && (base + s + 2 < |data| ==> HashAt(data, base + q) == HashAt(data, base + s))))
            && (base + s + 2 < |data| ==> Nearest(data, base, base + s, base + q))
  {
    hide HashAt, NoneBetween;
  }

  /** A link leads to the next nearest one. */
  lemma LinkIsNearest(prev: seq<nat>, data: seq<byte>, base: nat, p: nat)
    requires |prev| == 2 * WSIZE && LinkOk(prev, data, base, p) && base + p + 2 < |data|
    ensures Nearest(data, base, base + p, base + prev[p % WSIZE])
  {
    hide HashAt, NoneBetween;
  }

  lemma HeadAt(prev: seq<nat>, data: seq<byte>, base: nat, s: nat, h: nat)
    requires Chains(prev, data, base, s) && h < HASH_SIZE
    ensures HeadOk(prev, data, base, s, h)
  {}
}
