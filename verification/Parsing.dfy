/** Which matches are looked for and which are sent, as a relation between the input and the tokens. */
module Parsing {
  import opened Wrappers
  import opened Bits
  import opened Blocks
  import opened HashChains

  /** The bytes from `a` on are those `dist` bytes before, for `len` bytes. */
  predicate Repeats(data: seq<byte>, a: nat, dist: nat, len: nat) {
    dist <= a && a + len <= |data| && forall i :: a <= i < a + len ==> data[i] == data[i - dist]
  }

  /** A match that a search found. */
  datatype Hit = Hit(len: nat, dist: nat)

  function Less(a: nat, b: nat): nat {
    if a <= b then a else b
  }

  // ---------- the candidates of a search ----------

  /**
   * The last place before `p` where a string with the same hash starts, or `base`, where the window starts,
   * if there is none behind it.
   */
  predicate Nearest(data: seq<byte>, base: nat, p: nat, c: nat)
    requires p + 2 < |data|
  {
    && base <= c <= p && (c > base ==> c < p && HasHash(data, c, HashAt(data, p)))
    && NoneBetween(data, c, p, HashAt(data, p))
  }

  /** The first candidate may be 32506 bytes away. */
  predicate FirstInReach(base: nat, p: nat, c: nat) {
    base < c < p <= c + 32506
  }

  /** The others must be closer. */
  predicate InReach(base: nat, p: nat, c: nat) {
    base < c < p < c + 32506
  }

  predicate Follows(data: seq<byte>, base: nat, p: nat, c: nat, d: nat) {
    c + 2 < |data| && Nearest(data, base, c, d) && InReach(base, p, d)
  }

  /** The candidates: the nearest places with the same hash, one after another, as far as they are in reach. */
  predicate Candidates(data: seq<byte>, base: nat, p: nat, cs: seq<nat>)
    requires p + 2 < |data|
  {
    && cs != [] && Nearest(data, base, p, cs[0]) && FirstInReach(base, p, cs[0])
    && forall i, j :: 0 <= i < |cs| && j == i + 1 < |cs| ==> Follows(data, base, p, cs[i], cs[j])
  }

  /** How many are tried at most: fewer if the search has to find more than 7 bytes anyway. */
  function Tries(prev: nat): nat {
    if prev >= 8 then 32 else 128
  }

  /** At most `n` bytes at `c` and at `p` are the same, or all 258. */
  predicate NotLonger(text: seq<byte>, p: nat, c: nat, n: nat) {
    !(n < 258 && c <= p && Repeats(text, p, p - c, n + 1))
  }

  predicate NoneLonger(text: seq<byte>, p: nat, cs: seq<nat>, n: nat) {
    forall i :: 0 <= i < |cs| ==> NotLonger(text, p, cs[i], n)
  }

  ghost predicate NoneFollows(data: seq<byte>, base: nat, p: nat, c: nat) {
    exists d: nat :: LastOne(data, base, p, c, d)
  }

  predicate LastOne(data: seq<byte>, base: nat, p: nat, c: nat, d: nat) {
    c + 2 < |data| && Nearest(data, base, c, d) && !InReach(base, p, d)
  }

  /** The search stops early only at a match of 128 bytes, and else at the last try or the last candidate. */
  ghost predicate Searched(data: seq<byte>, base: nat, text: seq<byte>, p: nat, prev: nat, cs: seq<nat>)
    requires p + 2 < |data|
  {
    && Candidates(data, base, p, cs) && |cs| <= Tries(prev) && NoneLonger(text, p, cs[..|cs| - 1], 127)
    && (|cs| == Tries(prev) || !NotLonger(text, p, cs[|cs| - 1], 127)
        || NoneFollows(data, base, p, cs[|cs| - 1]))
  }

  /** The first one of the longest, with `n` bytes. */
  predicate Longest(text: seq<byte>, p: nat, cs: seq<nat>, i: nat, n: nat) {
    && i < |cs| && 0 < n <= 258 && cs[i] < p && Repeats(text, p, p - cs[i], n)
    && NoneLonger(text, p, cs, n) && NoneLonger(text, p, cs[..i], n - 1)
  }

  /** A match ends with the input, must be longer than `prev`, and with 3 bytes at most 4096 bytes away. */
  function Worthwhile(size: nat, p: nat, prev: nat, n: nat, dist: nat): Option<Hit>
    requires p <= size
  {
    var len := Less(n, size - p);
    if len <= prev || (len == 3 && dist > 4096) then None else Some(Hit(len, dist))
  }

  ghost predicate Outcome(size: nat, text: seq<byte>, p: nat, prev: nat, cs: seq<nat>, r: Option<Hit>)
    requires p <= size
  {
    if NoneLonger(text, p, cs, prev) then r == None
    else exists i: nat, n: nat :: Settles(size, text, p, prev, cs, i, n, r)
  }

  predicate Settles(size: nat, text: seq<byte>, p: nat, prev: nat, cs: seq<nat>, i: nat, n: nat, r: Option<Hit>)
    requires p <= size
  {
    Longest(text, p, cs, i, n) && r == Worthwhile(size, p, prev, n, p - cs[i])
  }

  predicate NoHead(data: seq<byte>, base: nat, p: nat, c: nat)
    requires p + 2 < |data|
  {
    Nearest(data, base, p, c) && !FirstInReach(base, p, c)
  }

  /** There is nothing to search for, or nothing to search in. */
  ghost predicate NoSearch(data: seq<byte>, base: nat, p: nat, prev: nat) {
    p + 2 >= |data| || prev >= 16 || exists c: nat :: NoHead(data, base, p, c)
  }

  /** What a search at `p` for more than `prev` bytes finds, from `base` on and with `tail` behind the input. */
  ghost predicate FoundIn(data: seq<byte>, base: nat, tail: seq<byte>, p: nat, prev: nat, r: Option<Hit>)
    requires p <= |data|
  {
    if NoSearch(data, base, p, prev) then r == None
    else exists cs :: SearchGives(data, base, data + tail, p, prev, cs, r)
  }

  ghost predicate SearchGives(data: seq<byte>, base: nat, text: seq<byte>, p: nat, prev: nat, cs: seq<nat>,
                              r: Option<Hit>)
    requires p + 2 < |data|
  {
    Searched(data, base, text, p, prev, cs) && Outcome(|data|, text, p, prev, cs, r)
  }

  /** The window moves by half its size, and then holds at least 32506 bytes before `p`. */
  predicate WindowStart(base: nat, p: nat) {
    base % 32768 == 0 && base <= p && (base == 0 || base + 32506 <= p)
  }

  /** What a search at `p` for more than `prev` bytes finds. */
  ghost predicate Found(data: seq<byte>, p: nat, prev: nat, r: Option<Hit>)
    requires p <= |data|
  {
    exists base: nat, tail :: WindowStart(base, p) && |tail| == 258 && FoundIn(data, base, tail, p, prev, r)
  }

  // ---------- lazy matching ----------

  /** A search at `a` for more than `prev` bytes, and what it found. */
  datatype Point = Point(a: nat, prev: nat, hit: Option<Hit>)

  /** After a match that was given up for a longer one, the longer one has been found. */
  ghost predicate IsPoint(data: seq<byte>, x: Point) {
    x.a < |data| && Found(data, x.a, x.prev, x.hit) && (x.prev > 2 ==> x.hit.Some?)
  }

  /**
   * The token `t` for the search `x`, after which `a` is next and has to find more than `prev` bytes: what was
   * found is sent if the next search finds nothing longer; else the byte is sent.
   */
  ghost predicate Sends(data: seq<byte>, x: Point, t: Token, a: nat, prev: nat) {
    && IsPoint(data, x)
    && match x.hit
       case None => t == Literal(data[x.a]) && a == x.a + 1 && prev == 2
       case Some(h) =>
         || (t == Match(h.len, h.dist) && a == x.a + h.len && prev == 2 && Found(data, x.a + 1, h.len, None))
         || (t == Literal(data[x.a]) && a == x.a + 1 && prev == h.len)
  }

  /** The tokens for the searches `xs`, after which `a` and `prev` are next. */
  ghost predicate Run(data: seq<byte>, xs: seq<Point>, ts: seq<Token>, a: nat, prev: nat) {
    if xs == [] then ts == [] && a == 0 && prev == 2
    else
      var n := |xs| - 1;
      |ts| == n + 1 && Run(data, xs[..n], ts[..n], xs[n].a, xs[n].prev) && Sends(data, xs[n], ts[n], a, prev)
  }

  /** The tokens are what lazy matching makes of the input. */
  ghost predicate Parses(data: seq<byte>, ts: seq<Token>) {
    exists xs :: Run(data, xs, ts, |data|, 2)
  }

  lemma RunSnoc(data: seq<byte>, xs: seq<Point>, ts: seq<Token>, x: Point, t: Token, a: nat, prev: nat)
    requires Run(data, xs, ts, x.a, x.prev) && Sends(data, x, t, a, prev)
    ensures Run(data, xs + [x], ts + [t], a, prev)
  {
    hide Sends;
    assert (xs + [x])[..|xs|] == xs && (ts + [t])[..|xs|] == ts by { RunLength(data, xs, ts, x.a, x.prev); }
  }

  lemma RunLength(data: seq<byte>, xs: seq<Point>, ts: seq<Token>, a: nat, prev: nat)
    requires Run(data, xs, ts, a, prev)
    ensures |xs| == |ts|
  {}

  // ---------- runs of one byte ----------

  predicate AllOf(data: seq<byte>, c: byte) {
    forall i :: 0 <= i < |data| ==> data[i] == c
  }

  /** The tokens from `a` on: two bytes, matches at distance 1, as long as they can be, and one or two bytes. */
  function OneByteTokens(c: byte, n: nat, a: nat): seq<Token>
    decreases n - a
  {
    if a >= n then []
    else if a < 2 || n - a < 3 then [Literal(c)] + OneByteTokens(c, n, a + 1)
    else [Match(Less(258, n - a), 1)] + OneByteTokens(c, n, a + Less(258, n - a))
  }

  /** What is found is longer than what was asked for, and ends with the input. */
  lemma HitFacts(data: seq<byte>, p: nat, prev: nat, h: Hit)
    requires p <= |data| && Found(data, p, prev, Some(h))
    ensures prev < h.len <= |data| - p && prev < 16 && h.len <= 258
  {
    hide Searched, NoneLonger, NotLonger, Repeats;
    var base: nat, tail :| WindowStart(base, p) && |tail| == 258 && FoundIn(data, base, tail, p, prev, Some(h));
    var cs :| SearchGives(data, base, data + tail, p, prev, cs, Some(h));
  }

  lemma NearestOne(data: seq<byte>, c: byte, base: nat, p: nat, d: nat)
    requires AllOf(data, c) && p + 2 < |data| && Nearest(data, base, p, d) && base + 1 < p
    ensures d == p - 1
  {
    SameHash(data, c, p - 1, p);
    NotPast(data, d, p, HashAt(data, p), p - 1);
  }

  lemma NotPast(data: seq<byte>, lo: int, hi: int, h: nat, a: int)
    requires NoneBetween(data, lo, hi, h) && HasHash(data, a, h) && a < hi
    ensures a <= lo
  {}

  lemma SameHash(data: seq<byte>, c: byte, a: nat, p: nat)
    requires AllOf(data, c) && a <= p && p + 2 < |data|
    ensures HasHash(data, a, HashAt(data, p))
  {
    hide HashThree;
  }

  /** Whatever repeats anything before it within one byte, repeats the byte before. */
  lemma {:induction false} RepeatsOne(text: seq<byte>, c: byte, p: nat, d: nat, n: nat)
    requires 0 < d <= p && p <= |text| && AllOf(text[..p], c) && Repeats(text, p, d, n)
    ensures AllOf(text[..p + n], c) && Repeats(text, p, 1, n)
  {
    if n > 0 {
      RepeatsOne(text, c, p, d, n - 1);
      assert text[p + n - 1] == text[..p + n - 1][p + n - 1 - d];
      OneMore(text, c, p, n);
    }
  }

  lemma OneMore(text: seq<byte>, c: byte, p: nat, n: nat)
    requires 0 < p && 0 < n && p + n <= |text| && AllOf(text[..p + n - 1], c) && Repeats(text, p, 1, n - 1)
    requires text[p + n - 1] == c
    ensures AllOf(text[..p + n], c) && Repeats(text, p, 1, n)
  {
    assert text[..p + n - 1][p + n - 2] == text[p + n - 2];
    assert text[..p + n] == text[..p + n - 1] + [c];
  }

  lemma OneRepeats(data: seq<byte>, tail: seq<byte>, c: byte, p: nat, n: nat)
    requires AllOf(data, c) && 0 < p && p + n <= |data|
    ensures Repeats(data + tail, p, 1, n)
  {}

  /** Within a run of one byte, what was found repeats the byte before. */
  lemma BestIsNear(text: seq<byte>, c: byte, p: nat, cs: seq<nat>, i: nat, n: nat)
    requires cs != [] && 0 < p <= |text| && cs[0] == p - 1 && AllOf(text[..p], c) && Longest(text, p, cs, i, n)
    ensures i == 0
  {
    if i > 0 {
      FirstNotLonger(text, p, cs[..i], n - 1);
      RepeatsOne(text, c, p, p - cs[i], n);
    }
  }

  lemma SearchOne(data: seq<byte>, tail: seq<byte>, c: byte, base: nat, p: nat, cs: seq<nat>, r: Option<Hit>)
    requires AllOf(data, c) && p + 2 < |data| && base + 1 < p
    requires SearchGives(data, base, data + tail, p, 2, cs, r)
    ensures r == Some(Hit(Less(258, |data| - p), 1))
  {
    hide Nearest, Follows, Repeats, AllOf, Longest;
    var text, m := data + tail, Less(258, |data| - p);
    NearestOne(data, c, base, p, cs[0]);
    OneRepeats(data, tail, c, p, m);
    AllBefore(data, tail, c, p);
    Longer(text, p, cs, 2, m);
    var i: nat, n: nat :| Settles(|data|, text, p, 2, cs, i, n, r);
    BestIsNear(text, c, p, cs, i, n);
    LongestFacts(text, p, cs, i, n);
    Longer(text, p, cs, n, m);
  }

  lemma AllBefore(data: seq<byte>, tail: seq<byte>, c: byte, p: nat)
    requires AllOf(data, c) && p <= |data|
    ensures AllOf((data + tail)[..p], c)
  {}

  lemma LongestFacts(text: seq<byte>, p: nat, cs: seq<nat>, i: nat, n: nat)
    requires Longest(text, p, cs, i, n)
    ensures NoneLonger(text, p, cs, n) && n <= 258
  {}

  lemma Longer(text: seq<byte>, p: nat, cs: seq<nat>, n: nat, m: nat)
    requires cs != [] && cs[0] + 1 == p && Repeats(text, p, 1, m) && m <= 258
    ensures NoneLonger(text, p, cs, n) ==> n >= m
  {
    if NoneLonger(text, p, cs, n) { FirstNotLonger(text, p, cs, n); }
  }

  lemma FirstNotLonger(text: seq<byte>, p: nat, cs: seq<nat>, n: nat)
    requires cs != [] && NoneLonger(text, p, cs, n)
    ensures NotLonger(text, p, cs[0], n)
  {}

  /** What a search finds within a run of one byte. */
  lemma FoundOne(data: seq<byte>, c: byte, p: nat, r: Option<Hit>)
    requires AllOf(data, c) && p <= |data| && Found(data, p, 2, r)
    ensures r == if p < 2 || p + 2 >= |data| then None else Some(Hit(Less(258, |data| - p), 1))
  {
    hide SearchGives, AllOf;
    var base: nat, tail :| WindowStart(base, p) && |tail| == 258 && FoundIn(data, base, tail, p, 2, r);
    if p + 2 < |data| {
      if p < 2 {
        EarlyHead(data, p);
      } else {
        forall d | Nearest(data, base, p, d)
          ensures FirstInReach(base, p, d)
        {
          NearestOne(data, c, base, p, d);
        }
        var cs :| SearchGives(data, base, data + tail, p, 2, cs, r);
        SearchOne(data, tail, c, base, p, cs, r);
      }
    }
  }

  lemma EarlyHead(data: seq<byte>, p: nat)
    requires p < 2 && p + 2 < |data|
    ensures NoHead(data, 0, p, 0)
  {}

  lemma {:induction false} RunOne(data: seq<byte>, c: byte, xs: seq<Point>, ts: seq<Token>, a: nat, prev: nat)
    requires AllOf(data, c) && Run(data, xs, ts, a, prev) && a <= |data|
    ensures prev >= 2
    ensures prev == 2 ==> ts + OneByteTokens(c, |data|, a) == OneByteTokens(c, |data|, 0)
    ensures prev != 2 ==> forall h: Hit :: !Found(data, a, prev, Some(h))
  {
    hide Found, OneByteTokens, AllOf;
    if xs == [] {
      assert [] + OneByteTokens(c, |data|, 0) == OneByteTokens(c, |data|, 0);
    } else {
      var n := |xs| - 1;
      var x, t := xs[n], ts[n];
      RunOne(data, c, xs[..n], ts[..n], x.a, x.prev);
      assert x.prev == 2;
      FoundOne(data, c, x.a, x.hit);
      OneByteStep(c, |data|, x.a);
      assert ts == ts[..n] + [t];
      if x.hit.Some? { HitFacts(data, x.a, 2, x.hit.value); }
      if prev == 2 {
        OneToken(data, c, x);
        assert ts[..n] + [t] + OneByteTokens(c, |data|, a) == ts[..n] + ([t] + OneByteTokens(c, |data|, a));
      } else {
        forall h: Hit
          ensures !Found(data, a, prev, Some(h))
        {
          if Found(data, a, prev, Some(h)) { HitFacts(data, a, prev, h); }
        }
      }
    }
  }

  lemma OneToken(data: seq<byte>, c: byte, x: Point)
    requires AllOf(data, c) && x.a < |data|
    ensures data[x.a] == c
  {}

  lemma OneByteStep(c: byte, n: nat, a: nat)
    requires a < n
    ensures OneByteTokens(c, n, a)
         == if a < 2 || n - a < 3 then [Literal(c)] + OneByteTokens(c, n, a + 1)
            else [Match(Less(258, n - a), 1)] + OneByteTokens(c, n, a + Less(258, n - a))
  {}

  /** What lazy matching makes of `n` times the same byte. */
  lemma RunsOfOneByte(data: seq<byte>, c: byte, ts: seq<Token>)
    requires AllOf(data, c) && Parses(data, ts)
    ensures ts == OneByteTokens(c, |data|, 0)
  {
    hide Run, AllOf;
    var xs :| Run(data, xs, ts, |data|, 2);
    RunOne(data, c, xs, ts, |data|, 2);
    assert ts + [] == ts;
  }

  /** For instance, 300 bytes are two bytes, a match of 258 bytes, and one of 40. */
  lemma ThreeHundred(c: byte)
    ensures OneByteTokens(c, 300, 0) == [Literal(c), Literal(c), Match(258, 1), Match(40, 1)]
  {
    hide OneByteTokens;
    OneByteStep(c, 300, 0);
    OneByteStep(c, 300, 1);
    OneByteStep(c, 300, 2);
    OneByteStep(c, 300, 260);
    NoMore(c, 300);
  }

  lemma NoMore(c: byte, n: nat)
    ensures OneByteTokens(c, n, n) == []
  {}
}
