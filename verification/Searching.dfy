/** The search in the window finds what the relation between input and tokens says. */
module Searching {
  import opened Wrappers
  import opened Bits
  import opened Blocks
  import opened CodeLengths
  import opened HashChains
  import opened Parsing
  import opened Window

  /** Enough input is ahead of the current string, or all there is. */
  ghost predicate Enough(m: Matcher)
    reads m, m.input, m.window
  {
    m.Looking() && (m.lookahead >= MIN_LOOKAHEAD || m.eofile) && m.lookahead >= 1
  }

  /** What stands behind the input in the window. */
  ghost function Tail(m: Matcher): (t: seq<byte>)
    requires m.Looking()
    reads m, m.input, m.window
    ensures |t| == 258
  {
    assert m.window.Length == WINDOW_SIZE + 258 && 0 <= m.End() <= WINDOW_SIZE;
    m.window[m.End()..m.End() + 258]
  }

  ghost function Text(m: Matcher): seq<byte>
    requires m.Looking()
    reads m, m.input, m.window
  {
    m.input.data + Tail(m)
  }

  lemma TextAt(m: Matcher, i: nat)
    requires Enough(m) && i < m.strstart + 258
    ensures i < m.window.Length && m.base + i < |Text(m)| && Text(m)[m.base + i] == m.window[i]
  {
    if i < m.strstart + m.lookahead {
      m.InWindow(i);
    } else {
      assert m.base + m.End() == |m.input.data|;
      assert Tail(m)[i - m.End()] == m.window[i];
    }
  }

  /** The place `c` of the window, and that of the current string, in the input. */
  lemma SameIsRepeat(m: Matcher, c: nat, n: nat)
    requires Enough(m) && c < m.strstart && n <= 258
    ensures m.AllSame(c, n) <==> Repeats(Text(m), m.base + m.strstart, m.strstart - c, n)
  {
    var t, p, dist := Text(m), m.base + m.strstart, m.strstart - c;
    InText(m);
    forall k | 0 <= k < n
      ensures m.Same(c, k) <==> t[p + k] == t[p + k - dist]
    {
      TextAt(m, m.strstart + k);
      TextAt(m, c + k);
    }
    if m.AllSame(c, n) {
      forall i | p <= i < p + n
        ensures t[i] == t[i - dist]
      {
        assert m.Same(c, i - p);
      }
    }
  }

  lemma InText(m: Matcher)
    requires Enough(m)
    ensures m.base + m.strstart < |m.input.data| && |Text(m)| == |m.input.data| + 258
  {}

  lemma BeatenIs(m: Matcher, c: nat, len: nat)
    requires Enough(m) && c < m.strstart && m.Beaten(c, len)
    ensures NotLonger(Text(m), m.base + m.strstart, m.base + c, len)
  {
    hide Repeats, Matcher.AllSame, Matcher.Looking;
    if len < 258 { SameIsRepeat(m, c, len + 1); }
  }

  /** The places of the candidates in the input. */
  function Shifted(base: nat, tried: seq<nat>): (cs: seq<nat>)
    ensures |cs| == |tried| && forall i :: 0 <= i < |cs| ==> cs[i] == base + tried[i]
  {
    seq(|tried|, i requires 0 <= i < |tried| => base + tried[i])
  }

  predicate AllBelow(tried: seq<nat>, s: nat) {
    forall i :: 0 <= i < |tried| ==> tried[i] < s
  }

  lemma AllBeatenIs(m: Matcher, tried: seq<nat>, len: nat)
    requires Enough(m) && AllBelow(tried, m.strstart) && m.AllBeaten(tried, len)
    ensures NoneLonger(Text(m), m.base + m.strstart, Shifted(m.base, tried), len)
  {
    hide NotLonger, Matcher.Beaten, Matcher.Looking;
    forall i | 0 <= i < |tried|
      ensures NotLonger(Text(m), m.base + m.strstart, m.base + tried[i], len)
    {
      BeatenIs(m, tried[i], len);
    }
  }

  lemma FrontBeatenIs(m: Matcher, tried: seq<nat>, k: nat, len: nat)
    requires Enough(m) && AllBelow(tried, m.strstart) && k <= |tried| && m.AllBeaten(tried[..k], len)
    ensures NoneLonger(Text(m), m.base + m.strstart, Shifted(m.base, tried)[..k], len)
  {
    hide NoneLonger, Matcher.Looking;
    assert Shifted(m.base, tried)[..k] == Shifted(m.base, tried[..k]);
    AllBeatenIs(m, tried[..k], len);
  }

  // ---------- following the links ----------

  /** Whatever a link leads to is the nearest place with the same hash. */
  lemma LinkNearest(m: Matcher, c: nat)
    requires Enough(m) && m.Chained(m.strstart + 1) && m.lookahead >= MIN_MATCH
    requires c < m.strstart <= c + MAX_DIST
    ensures m.base + c + 2 < |m.input.data|
    ensures Nearest(m.input.data, m.base, m.base + c, m.base + m.prev[c % WSIZE])
    ensures m.prev[c % WSIZE] == 0 || m.prev[c % WSIZE] < c
  {
    hide Chains, Nearest, HashAt;
    LinkAt(m.prev[..], m.input.data, m.base, m.strstart + 1, c);
    LinkIsNearest(m.prev[..], m.input.data, m.base, c);
  }

  /** A candidate that is within the window's limit is in reach. */
  predicate Near(tried: seq<nat>, s: nat) {
    forall i :: 0 <= i < |tried| ==> tried[i] < s <= tried[i] + MAX_DIST
  }

  lemma Sizes(m: Matcher)
    requires Enough(m)
    ensures m.prev.Length == 2 * WSIZE
  {}

  lemma {:induction false} FollowedNear(m: Matcher, tried: seq<nat>, first: nat)
    requires Enough(m) && m.Chained(m.strstart + 1) && m.lookahead >= MIN_MATCH
    requires m.Followed(tried, first) && first < m.strstart <= first + MAX_DIST
    ensures tried != [] && Near(tried, m.strstart) && AllBelow(tried, m.strstart)
    decreases |tried|
  {
    hide Matcher.Looking, Matcher.Chained;
    var n := |tried| - 1;
    Sizes(m);
    if n > 0 {
      FollowedFront(m, tried, first);
      FollowedNear(m, tried[..n], first);
      assert tried[..n][n - 1] == tried[n - 1];
      LinkNearest(m, tried[n - 1]);
      assert forall i :: 0 <= i < n ==> tried[i] == tried[..n][i];
    }
  }

  lemma FollowedFront(m: Matcher, tried: seq<nat>, first: nat)
    requires m.prev.Length == 2 * WSIZE && m.Followed(tried, first) && |tried| > 1
    ensures m.Followed(tried[..|tried| - 1], first)
    ensures m.Links(tried[|tried| - 2], tried[|tried| - 1])
  {
    hide Matcher.Links;
  }

  lemma CandidatesAre(m: Matcher, tried: seq<nat>, first: nat)
    requires Enough(m) && m.Chained(m.strstart + 1) && m.lookahead >= MIN_MATCH
    requires m.Followed(tried, first) && 0 < first < m.strstart <= first + MAX_DIST
    requires m.base + m.strstart + 2 < |m.input.data|
    requires Nearest(m.input.data, m.base, m.base + m.strstart, m.base + first)
    ensures Candidates(m.input.data, m.base, m.base + m.strstart, Shifted(m.base, tried))
  {
    hide Matcher.Looking, Matcher.Chained, Nearest;
    FollowedNear(m, tried, first);
    Sizes(m);
    var cs := Shifted(m.base, tried);
    forall i, j | 0 <= i < |cs| && j == i + 1 < |cs|
      ensures Follows(m.input.data, m.base, m.base + m.strstart, cs[i], cs[j])
    {
      assert m.Links(tried[i], tried[j]);
      LinkNearest(m, tried[i]);
    }
  }

  /** When no link is left within the limit, no candidate is left in reach. */
  lemma NoneIsLeft(m: Matcher, c: nat)
    requires Enough(m) && m.Chained(m.strstart + 1) && m.lookahead >= MIN_MATCH
    requires c < m.strstart <= c + MAX_DIST && m.prev[c % WSIZE] <= m.Limit()
    ensures NoneFollows(m.input.data, m.base, m.base + m.strstart, m.base + c)
  {
    Sizes(m);
    hide Matcher.Looking, Matcher.Chained, Nearest;
    LinkNearest(m, c);
    assert LastOne(m.input.data, m.base, m.base + m.strstart, m.base + c, m.base + m.prev[c % WSIZE]);
  }

  lemma EarlierShort(m: Matcher, tried: seq<nat>, n: nat, at: nat)
    requires n <= |tried| && m.AllBeaten(tried[..n], NICE_MATCH - 1)
    ensures at < n ==> !m.AllSame(tried[at], 128)
  {
    hide Matcher.AllSame;
    if at < n { assert tried[..n][at] == tried[at] && m.Beaten(tried[..n][at], 127); }
  }

  /** The last candidate has 128 bytes if the best has. */
  lemma NiceIsLast(m: Matcher, tried: seq<nat>, at: nat, len: nat)
    requires Enough(m) && m.lookahead >= MIN_MATCH && AllBelow(tried, m.strstart)
    requires m.First(tried, at, len) && NICE_MATCH <= len <= MAX_MATCH
    requires m.AllBeaten(tried[..|tried| - 1], NICE_MATCH - 1)
    ensures !NotLonger(Text(m), m.base + m.strstart, m.base + tried[|tried| - 1], 127)
  {
    hide Matcher.Looking, Matcher.Same, Repeats;
    var n := |tried| - 1;
    assert m.AllSame(m.matchStart, 128);
    EarlierShort(m, tried, n, at);
    SameIsRepeat(m, tried[n], 128);
    BelowText(m, tried[n]);
  }

  lemma BelowText(m: Matcher, c: nat)
    requires Enough(m) && c < m.strstart
    ensures m.base + c <= m.base + m.strstart && m.base + m.strstart - (m.base + c) == m.strstart - c
  {}

  lemma SearchedIs(m: Matcher, tried: seq<nat>, at: nat, first: nat, len: nat)
    requires Enough(m) && m.Chained(m.strstart + 1) && m.lookahead >= MIN_MATCH && m.prevLength < MAX_LAZY
    requires m.Followed(tried, first) && 0 < first < m.strstart <= first + MAX_DIST
    requires m.base + m.strstart + 2 < |m.input.data|
    requires Nearest(m.input.data, m.base, m.base + m.strstart, m.base + first)
    requires m.Exhausted(tried, len) && m.prevLength <= len <= MAX_MATCH
    requires len > m.prevLength ==> m.First(tried, at, len)
    requires |tried| <= m.Budget() && m.AllBeaten(tried[..|tried| - 1], NICE_MATCH - 1)
    ensures Searched(m.input.data, m.base, Text(m), m.base + m.strstart, m.prevLength, Shifted(m.base, tried))
  {
    hide Matcher.Looking, Matcher.Chained, Nearest, Candidates, NoneLonger, Matcher.First, Matcher.AllBeaten;
    hide NotLonger;
    CandidatesAre(m, tried, first);
    FollowedNear(m, tried, first);
    FrontBeatenIs(m, tried, |tried| - 1, NICE_MATCH - 1);
    var last := tried[|tried| - 1];
    if len >= NICE_MATCH {
      NiceIsLast(m, tried, at, len);
    } else if |tried| != m.Budget() {
      NoneIsLeft(m, last);
    }
  }

  /** What the search found, as a candidate of the input. */
  lemma LongestIs(m: Matcher, tried: seq<nat>, at: nat, len: nat)
    requires Enough(m) && m.lookahead >= MIN_MATCH && AllBelow(tried, m.strstart)
    requires m.First(tried, at, len) && m.AllBeaten(tried, len) && len <= MAX_MATCH
    ensures Longest(Text(m), m.base + m.strstart, Shifted(m.base, tried), at, len)
    ensures m.prevLength < len ==>
              !NoneLonger(Text(m), m.base + m.strstart, Shifted(m.base, tried), m.prevLength)
  {
    hide Matcher.Looking, Matcher.AllSame, Matcher.AllBeaten;
    FirstFacts(m, tried, at, len);
    AllBeatenIs(m, tried, len);
    FrontBeatenIs(m, tried, at, len - 1);
    SameIsRepeat(m, tried[at], len);
    var t, p, cs := Text(m), m.base + m.strstart, Shifted(m.base, tried);
    var n := m.prevLength;
    if n < len {
      assert Repeats(t, p, p - cs[at], n + 1);
      assert !NotLonger(t, p, cs[at], n);
    }
  }

  lemma FirstFacts(m: Matcher, tried: seq<nat>, at: nat, len: nat)
    requires m.First(tried, at, len)
    ensures at < |tried| && tried[at] == m.matchStart && 0 < len && m.AllBeaten(tried[..at], len - 1)
    ensures m.lookahead >= MIN_MATCH ==> m.AllSame(tried[at], len)
  {}

  // ---------- the result ----------

  /** The match that a search has ended with, if it is longer than the previous one. */
  ghost function HitOf(m: Matcher, matchLength: nat): Option<Hit>
    requires matchLength > m.prevLength ==> m.matchStart <= m.strstart
    reads m
  {
    if matchLength > m.prevLength then Some(Hit(matchLength, m.strstart - m.matchStart)) else None
  }

  lemma StartIs(m: Matcher)
    requires Enough(m)
    ensures WindowStart(m.base, m.base + m.strstart) && m.base + m.strstart < |m.input.data|
    ensures m.lookahead >= MIN_MATCH <==> m.base + m.strstart + 2 < |m.input.data|
    ensures m.lookahead == |m.input.data| - (m.base + m.strstart)
         || 258 <= m.lookahead < |m.input.data| - (m.base + m.strstart)
  {}

  /** Without a search nothing is found. */
  lemma NothingFound(m: Matcher, head: nat)
    requires Enough(m) && m.prevLength >= 2
    requires m.base + m.strstart + 2 < |m.input.data| ==>
               Nearest(m.input.data, m.base, m.base + m.strstart, m.base + head)
    requires m.lookahead < MIN_MATCH || head == 0 || m.prevLength >= MAX_LAZY || m.strstart - head > MAX_DIST
    ensures m.base + m.strstart < |m.input.data| && Found(m.input.data, m.base + m.strstart, m.prevLength, None)
  {
    hide Matcher.Looking, Nearest, SearchGives, WindowStart;
    StartIs(m);
    var d, p := m.input.data, m.base + m.strstart;
    if p + 2 < |d| && m.prevLength < 16 { assert NoHead(d, m.base, p, m.base + head); }
    FoundWith(d, m.base, Tail(m), p, m.prevLength, None);
  }

  lemma FoundWith(data: seq<byte>, base: nat, tail: seq<byte>, p: nat, prev: nat, r: Option<Hit>)
    requires p <= |data| && WindowStart(base, p) && |tail| == 258 && FoundIn(data, base, tail, p, prev, r)
    ensures Found(data, p, prev, r)
  {}

  /** What comes of the candidates. */
  lemma OutcomeIs(m: Matcher, tried: seq<nat>, at: nat, len: nat, matchLength: nat)
    requires Enough(m) && m.lookahead >= MIN_MATCH && AllBelow(tried, m.strstart) && tried != []
    requires 2 <= m.prevLength <= len <= MAX_MATCH && m.AllBeaten(tried, len)
    requires len > m.prevLength ==> m.First(tried, at, len) && m.matchStart < m.strstart
    requires len == m.prevLength ==> matchLength <= len
    requires len > m.prevLength ==> matchLength == Cut(len, m.lookahead, m.strstart - m.matchStart)
    ensures m.base + m.strstart < |m.input.data|
    ensures Outcome(|m.input.data|, Text(m), m.base + m.strstart, m.prevLength, Shifted(m.base, tried),
                    HitOf(m, matchLength))
  {
    hide Matcher.Looking, Matcher.AllBeaten, NoneLonger, Longest, WindowStart, Matcher.First, Worthwhile, Cut;
    hide AllBelow;
    StartIs(m);
    CutSmall(len, m.lookahead, m.strstart - m.matchStart);
    var d, p, prev, cs := m.input.data, m.base + m.strstart, m.prevLength, Shifted(m.base, tried);
    if len == prev {
      AllBeatenIs(m, tried, len);
    } else {
      LongestIs(m, tried, at, len);
      FirstFacts(m, tried, at, len);
      CutIs(m, len, matchLength);
      ShiftedAt(m.base, tried, at, m.strstart);
      assert Settles(|d|, Text(m), p, prev, cs, at, len, HitOf(m, matchLength));
    }
  }

  lemma ShiftedAt(base: nat, tried: seq<nat>, at: nat, s: nat)
    requires at < |tried|
    ensures base + s - Shifted(base, tried)[at] == s - tried[at]
  {}

  /** A match ends with the input that is ahead; three bytes that are too far away are none. */
  function Cut(len: nat, ahead: nat, dist: int): nat {
    var cut := if len > ahead then ahead else len;
    if cut == 3 && dist > 4096 then 2 else cut
  }

  lemma CutSmall(len: nat, ahead: nat, dist: int)
    requires len >= 2
    ensures Cut(len, ahead, dist) <= len
  {}

  lemma CutIs(m: Matcher, len: nat, matchLength: nat)
    requires Enough(m) && m.lookahead >= MIN_MATCH && 2 <= m.prevLength < len <= MAX_MATCH
    requires m.matchStart < m.strstart
    requires matchLength == Cut(len, m.lookahead, m.strstart - m.matchStart)
    ensures m.base + m.strstart < |m.input.data|
    ensures HitOf(m, matchLength)
         == Worthwhile(|m.input.data|, m.base + m.strstart, m.prevLength, len, m.strstart - m.matchStart)
  {
    hide Matcher.Looking, WindowStart;
    StartIs(m);
  }

  /** What a search with these candidates has found. */
  lemma SomethingFound(m: Matcher, tried: seq<nat>, at: nat, first: nat, len: nat, matchLength: nat)
    requires Enough(m) && m.Chained(m.strstart + 1) && m.lookahead >= MIN_MATCH && 2 <= m.prevLength < MAX_LAZY
    requires m.Followed(tried, first) && 0 < first < m.strstart <= first + MAX_DIST
    requires m.base + m.strstart + 2 < |m.input.data|
    requires Nearest(m.input.data, m.base, m.base + m.strstart, m.base + first)
    requires m.Exhausted(tried, len) && m.prevLength <= len <= MAX_MATCH && m.AllBeaten(tried, len)
    requires len > m.prevLength ==> m.First(tried, at, len) && m.matchStart < m.strstart
    requires |tried| <= m.Budget() && m.AllBeaten(tried[..|tried| - 1], NICE_MATCH - 1)
    requires len == m.prevLength ==> matchLength <= len
    requires len > m.prevLength ==> matchLength == Cut(len, m.lookahead, m.strstart - m.matchStart)
    ensures Found(m.input.data, m.base + m.strstart, m.prevLength, HitOf(m, matchLength))
  {
    hide *;
    StartIs(m);
    SearchedIs(m, tried, at, first, len);
    FollowedNear(m, tried, first);
    CutSmall(len, m.lookahead, m.strstart - m.matchStart);
    OutcomeIs(m, tried, at, len, matchLength);
    HasHead(m, first);
    GivesFound(m, Shifted(m.base, tried), HitOf(m, matchLength));
  }

  lemma GivesFound(m: Matcher, cs: seq<nat>, r: Option<Hit>)
    requires Enough(m) && m.base + m.strstart + 2 < |m.input.data| && WindowStart(m.base, m.base + m.strstart)
    requires !NoSearch(m.input.data, m.base, m.base + m.strstart, m.prevLength)
    requires Searched(m.input.data, m.base, Text(m), m.base + m.strstart, m.prevLength, cs)
    requires Outcome(|m.input.data|, Text(m), m.base + m.strstart, m.prevLength, cs, r)
    ensures Found(m.input.data, m.base + m.strstart, m.prevLength, r)
  {
    hide Searched, Outcome, NoSearch, Matcher.Looking, WindowStart;
    var d, p := m.input.data, m.base + m.strstart;
    assert SearchGives(d, m.base, Text(m), p, m.prevLength, cs, r);
    FoundWith(d, m.base, Tail(m), p, m.prevLength, r);
  }

  lemma HasHead(m: Matcher, first: nat)
    requires m.base + m.strstart + 2 < |m.input.data| && 0 < first < m.strstart <= first + MAX_DIST
    requires Nearest(m.input.data, m.base, m.base + m.strstart, m.base + first) && m.prevLength < MAX_LAZY
    ensures !NoSearch(m.input.data, m.base, m.base + m.strstart, m.prevLength)
  {
    hide HashAt;
    var d, p := m.input.data, m.base + m.strstart;
    forall c: nat | Nearest(d, m.base, p, c)
      ensures FirstInReach(m.base, p, c)
    {
      OneNearest(d, m.base, p, c, m.base + first);
    }
  }

  lemma OneNearest(data: seq<byte>, base: nat, p: nat, c: nat, d: nat)
    requires p + 2 < |data| && Nearest(data, base, p, c) && Nearest(data, base, p, d) && base < d
    ensures c == d
  {
    hide HashAt;
    NotPast(data, c, p, HashAt(data, p), d);
    if c > base { NotPast(data, d, p, HashAt(data, p), c); }
  }
}
