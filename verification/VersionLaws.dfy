/** How Debian versions are ordered, section 5.6.12 of the Debian Policy Manual, as laws about texts. */
module VersionLaws {
  import opened Wrappers
  import opened DebVersion

  // ---------- words of the manual ----------

  predicate Numeral(c: char) {
    '0' <= c <= '9'
  }

  predicate Letter(c: char) {
    'A' <= c <= 'Z' || 'a' <= c <= 'z'
  }

  /** Of two characters that are no digits, which sorts first: a tilde, then letters, then all others. */
  predicate SortsBefore(c: char, d: char) {
    if c == '~' || d == '~' then c == '~' && d != '~'
    else if Letter(c) != Letter(d) then Letter(c)
    else c < d
  }

  /** A run of digits, leading zeros included. */
  predicate AllNumerals(s: text) {
    forall i :: 0 <= i < |s| ==> Numeral(s[i])
  }

  function Decimal(s: text): nat
    requires AllNumerals(s)
  {
    if s == "" then 0 else 10 * Decimal(s[..|s| - 1]) + (s[|s| - 1] as int - '0' as int)
  }

  /** How two version parts compare. */
  function CompareParts(a: text, b: text): int {
    CompareKeys(Key(a, 0), Key(b, 0))
  }

  predicate StartsWithDigit(s: text) {
    s != "" && Numeral(s[0])
  }

  predicate EndsWithDigit(s: text) {
    s != "" && Numeral(s[|s| - 1])
  }

  // ---------- a common beginning ----------

  lemma {:induction false} ShiftDigits(s: text, x: text, i: nat)
    requires i <= |x|
    ensures DigitsEnd(s + x, |s| + i) == |s| + DigitsEnd(x, i)
    decreases |x| - i
  {
    if i < |x| && IsDigit(x[i]) { ShiftDigits(s, x, i + 1); }
  }

  lemma {:induction false} ShiftNumber(s: text, x: text, i: nat, e: nat)
    requires i <= e <= |x| && forall k :: i <= k < e ==> IsDigit(x[k])
    ensures forall k :: |s| + i <= k < |s| + e ==> IsDigit((s + x)[k])
    ensures Number(s + x, |s| + i, |s| + e) == Number(x, i, e)
    decreases e
  {
    if i < e { ShiftNumber(s, x, i, e - 1); }
  }

  lemma KeyIs(s: text, i: nat)
    requires i <= |s|
    ensures i == |s| ==> Key(s, i) == []
    ensures i < |s| && IsDigit(s[i]) ==>
              Key(s, i) == [0, Number(s, i, DigitsEnd(s, i))] + Key(s, DigitsEnd(s, i))
    ensures i < |s| && !IsDigit(s[i]) ==> Key(s, i) == [Order(s[i])] + Key(s, i + 1)
  {
    hide DigitsEnd, Number, Order;
  }

  /** The key of a text from the end of its beginning on is the key of the rest. */
  lemma {:induction false} ShiftKey(s: text, x: text, i: nat)
    requires i <= |x|
    ensures Key(s + x, |s| + i) == Key(x, i)
    decreases |x| - i
  {
    hide Key, DigitsEnd, Number, Order;
    KeyIs(x, i);
    KeyIs(s + x, |s| + i);
    if i < |x| {
      if IsDigit(x[i]) {
        var e := DigitsEnd(x, i);
        ShiftDigits(s, x, i);
        ShiftNumber(s, x, i, e);
        ShiftKey(s, x, e);
      } else {
        ShiftKey(s, x, i + 1);
      }
    }
  }

  /** A run of digits in `s` is the same in `s + x`, unless `x` goes on with it. */
  lemma PrefixDigits(s: text, x: text, i: nat)
    requires i <= |s| && !(EndsWithDigit(s) && StartsWithDigit(x))
    requires i < |s|
    ensures DigitsEnd(s + x, i) == DigitsEnd(s, i)
    ensures Number(s + x, i, DigitsEnd(s, i)) == Number(s, i, DigitsEnd(s, i))
  {
    PrefixDigitsEnd(s, x, i);
    SameNumber(s, s + x, i, DigitsEnd(s, i));
  }

  lemma {:induction false} PrefixDigitsEnd(s: text, x: text, i: nat)
    requires i <= |s| && (i == |s| ==> !StartsWithDigit(x)) && !(EndsWithDigit(s) && StartsWithDigit(x))
    ensures DigitsEnd(s + x, i) == DigitsEnd(s, i)
    decreases |s| - i
  {
    if i < |s| {
      if IsDigit(s[i]) {
        if i + 1 == |s| { assert EndsWithDigit(s); }
        PrefixDigitsEnd(s, x, i + 1);
      }
    } else if x != "" {
      assert (s + x)[i] == x[0];
    }
  }

  /** A common beginning does not count, unless a number goes on behind it. */
  lemma {:induction false} SamePrefix(s: text, x: text, y: text, i: nat)
    requires i <= |s| && (EndsWithDigit(s) ==> !StartsWithDigit(x) && !StartsWithDigit(y))
    ensures CompareKeys(Key(s + x, i), Key(s + y, i)) == CompareKeys(Key(x, 0), Key(y, 0))
    decreases |s| - i
  {
    hide Key, CompareKeys, DigitsEnd, Number;
    if i == |s| {
      ShiftKey(s, x, 0);
      ShiftKey(s, y, 0);
    } else if IsDigit(s[i]) {
      PrefixDigits(s, x, i);
      PrefixDigits(s, y, i);
      NumberStep(s + x, i, s + y, i);
      SamePrefix(s, x, y, DigitsEnd(s, i));
    } else {
      CharStep(s + x, i, s + y, i);
      SamePrefix(s, x, y, i + 1);
    }
  }

  // ---------- the laws ----------

  /** The first characters that differ decide, if they are no digits. */
  lemma DifferentCharacters(s: text, c: char, t: text, d: char, u: text)
    requires '\0' < c < '\U{80}' && '\0' < d < '\U{80}' && c != d && !Numeral(c) && !Numeral(d)
    ensures CompareParts(s + [c] + t, s + [d] + u) < 0 <==> SortsBefore(c, d)
    ensures CompareParts(s + [c] + t, s + [d] + u) > 0 <==> SortsBefore(d, c)
  {
    var x: text, y: text := [c] + t, [d] + u;
    assert s + [c] + t == s + x && s + [d] + u == s + y;
    SamePrefix(s, x, y, 0);
    CharStep(x, 0, y, 0);
  }

  /** The end of a part sorts before everything but a tilde. */
  lemma EndOfPart(s: text, c: char, t: text)
    requires '\0' < c < '\U{80}' && !Numeral(c)
    ensures c == '~' ==> CompareParts(s + [c] + t, s) < 0
    ensures c != '~' ==> CompareParts(s, s + [c] + t) < 0
  {
    var x: text := [c] + t;
    assert s + [c] + t == s + x && s + "" == s;
    SamePrefix(s, x, "", 0);
    SamePrefix(s, "", x, 0);
    CharStep(x, 0, "", 0);
    CharStep("", 0, x, 0);
  }

  /** A digit sorts where the end of a part does: before every other character but a tilde. */
  lemma DigitBeforeCharacter(s: text, m: text, c: char, t: text)
    requires StartsWithDigit(m) && !EndsWithDigit(s) && '\0' < c < '\U{80}' && !Numeral(c)
    ensures c == '~' ==> CompareParts(s + [c] + t, s + m) < 0
    ensures c != '~' ==> CompareParts(s + m, s + [c] + t) < 0
  {
    var x: text := [c] + t;
    assert s + [c] + t == s + x;
    SamePrefix(s, x, m, 0);
    SamePrefix(s, m, x, 0);
    CharStep(x, 0, m, 0);
    CharStep(m, 0, x, 0);
  }

  lemma {:induction false} DecimalIs(m: text, t: text)
    requires AllNumerals(m)
    ensures Number(m + t, 0, |m|) == Decimal(m)
  {
    if m != "" {
      var front: text, last: text := m[..|m| - 1], [m[|m| - 1]];
      assert m + t == front + (last + t);
      DecimalIs(front, last + t);
    }
  }

  lemma {:induction false} DigitsAre(m: text, t: text, i: nat)
    requires AllNumerals(m) && !StartsWithDigit(t) && i <= |m|
    ensures DigitsEnd(m + t, i) == |m|
    decreases |m| - i
  {
    if i < |m| {
      DigitsAre(m, t, i + 1);
    } else if t != "" {
      assert (m + t)[i] == t[0];
    }
  }

  /** Numbers decide by their values, however many zeros lead them; after equal ones the rests decide. */
  lemma Numbers(s: text, m: text, t: text, n: text, u: text)
    requires AllNumerals(m) && AllNumerals(n) && m != "" && n != "" && !EndsWithDigit(s)
    requires !StartsWithDigit(t) && !StartsWithDigit(u)
    ensures CompareParts(s + m + t, s + n + u)
         == if Decimal(m) != Decimal(n) then Decimal(m) - Decimal(n) else CompareParts(t, u)
  {
    hide Key, CompareKeys, DigitsEnd, Number;
    NumbersAfter(s, m, t, n, u);
    NumberStep(m + t, 0, n + u, 0);
    DigitsAre(m, t, 0);
    DigitsAre(n, u, 0);
    DecimalIs(m, t);
    DecimalIs(n, u);
    ShiftKey(m, t, 0);
    ShiftKey(n, u, 0);
  }

  lemma NumbersAfter(s: text, m: text, t: text, n: text, u: text)
    requires !EndsWithDigit(s)
    ensures CompareParts(s + m + t, s + n + u) == CompareParts(m + t, n + u)
  {
    assert s + m + t == s + (m + t) && s + n + u == s + (n + u);
    SamePrefix(s, m + t, n + u, 0);
  }

  /** A missing number at the end of a part is zero. */
  lemma MissingNumber(s: text, n: text)
    requires AllNumerals(n) && n != "" && !EndsWithDigit(s)
    ensures CompareParts(s, s + n) == 0 - Decimal(n)
  {
    hide Key, CompareKeys, DigitsEnd, Number;
    assert s + "" == s && n + "" == n;
    SamePrefix(s, "", n, 0);
    NumberStep("", 0, n, 0);
    DigitsAre("", "", 0);
    DigitsAre(n, "", 0);
    DecimalIs(n, "");
    DecimalIs("", "");
    BothEmpty(n);
  }

  lemma BothEmpty(n: text)
    ensures "" + "" == "" && CompareKeys(Key("", 0), Key(n, |n|)) == 0
  {}

  // ---------- whole versions ----------

  /** The parts a version is written from. */
  datatype Parts = Parts(epoch: Option<text>, upstream: text, revision: Option<text>)

  function WithRevision(p: Parts): text {
    if p.revision.Some? then p.upstream + "-" + p.revision.value else p.upstream
  }

  function Written(p: Parts): text {
    if p.epoch.Some? then p.epoch.value + ":" + WithRevision(p) else WithRevision(p)
  }

  /** Whether the parts can be told apart: section 5.6.12 allows a colon only after an epoch, and so for hyphens. */
  predicate Separable(p: Parts) {
    && (p.epoch.Some? ==> AllNumerals(p.epoch.value))
    && (p.epoch.None? ==> ':' !in WithRevision(p))
    && (p.revision.Some? ==> '-' !in p.revision.value)
    && (p.revision.None? ==> '-' !in p.upstream)
  }

  function EpochValue(p: Parts): nat
    requires Separable(p)
  {
    if p.epoch.Some? then Decimal(p.epoch.value) else 0
  }

  function RevisionText(p: Parts): text {
    if p.revision.Some? then p.revision.value else ""
  }

  lemma {:induction false} FirstIs(s: text, c: char, t: text, i: nat)
    requires i <= |s| && c !in s && '\0' < c < '\U{80}'
    ensures FirstOf(s + [c] + t, c, i) == Some(|s|)
    decreases |s| - i
  {
    if i < |s| { FirstIs(s, c, t, i + 1); }
  }

  lemma {:induction false} LastIs(s: text, c: char, t: text, e: nat)
    requires |s| < e <= |s| + 1 + |t| && c !in t && '\0' < c < '\U{80}'
    ensures LastOf(s + [c] + t, c, e) == Some(|s|)
    decreases e
  {
    if e > |s| + 1 {
      assert (s + [c] + t)[e - 1] == t[e - 2 - |s|];
      LastIs(s, c, t, e - 1);
    }
  }

  lemma EpochRead(p: Parts)
    requires Separable(p)
    ensures Epoch(Written(p)) == EpochValue(p) && AfterEpoch(Written(p)) == WithRevision(p)
  {
    hide Number, DigitsEnd, Decimal, FirstOf;
    if p.epoch.Some? {
      var e, rest := p.epoch.value, WithRevision(p);
      FirstIs(e, ':', rest, 0);
      var tail: text := ":" + rest;
      assert Written(p) == e + tail;
      DigitsAre(e, tail, 0);
      DecimalIs(e, tail);
      assert Written(p)[|e| + 1..] == rest;
    }
  }

  lemma RevisionRead(p: Parts)
    requires Separable(p)
    ensures Upstream(Written(p)) == p.upstream && Revision(Written(p)) == RevisionText(p)
  {
    EpochRead(p);
    hide AfterEpoch, LastOf, Epoch, Written;
    if p.revision.Some? {
      LastIs(p.upstream, '-', p.revision.value, |WithRevision(p)|);
    }
  }

  /** First the values of the epochs decide, then the upstream versions, then the revisions. */
  lemma WholeVersions(a: Parts, b: Parts)
    requires Separable(a) && Separable(b)
    ensures CompareVersions(Written(a), Written(b))
         == if EpochValue(a) != EpochValue(b) then EpochValue(a) - EpochValue(b)
            else if CompareParts(a.upstream, b.upstream) != 0 then CompareParts(a.upstream, b.upstream)
            else CompareParts(RevisionText(a), RevisionText(b))
  {
    EpochRead(a);
    EpochRead(b);
    RevisionRead(a);
    RevisionRead(b);
    hide Epoch, Upstream, Revision, Key, CompareKeys, Written;
  }

  // ---------- relations ----------

  /** Between two versions, exactly one of less, equal and more holds, and the others are put together from them. */
  lemma RelationLaws(a: text, b: text)
    ensures Holds(a, b, VerAny)
    ensures Holds(a, b, VerLess) <==> Holds(b, a, VerMore)
    ensures Holds(a, b, VerEqual) <==> Holds(b, a, VerEqual)
    ensures Holds(a, b, VerLessEqual) <==> Holds(a, b, VerLess) || Holds(a, b, VerEqual)
    ensures Holds(a, b, VerMoreEqual) <==> Holds(a, b, VerMore) || Holds(a, b, VerEqual)
    ensures Holds(a, b, VerLess) || Holds(a, b, VerEqual) || Holds(a, b, VerMore)
    ensures !(Holds(a, b, VerLess) && Holds(a, b, VerEqual)) && !(Holds(a, b, VerEqual) && Holds(a, b, VerMore))
    ensures !(Holds(a, b, VerLess) && Holds(a, b, VerMore))
  {
    hide CompareVersions;
    VersionsAntisymmetric(a, b);
  }

  /** Which of them holds, on written versions: what comes first is less. */
  lemma WrittenRelations(a: Parts, b: Parts)
    requires Separable(a) && Separable(b)
    ensures EpochValue(a) < EpochValue(b) ==> Holds(Written(a), Written(b), VerLess)
    ensures EpochValue(a) == EpochValue(b) && CompareParts(a.upstream, b.upstream) < 0 ==>
              Holds(Written(a), Written(b), VerLess)
    ensures EpochValue(a) == EpochValue(b) && CompareParts(a.upstream, b.upstream) == 0 ==>
              && (CompareParts(RevisionText(a), RevisionText(b)) < 0 ==> Holds(Written(a), Written(b), VerLess))
              && (CompareParts(RevisionText(a), RevisionText(b)) == 0 ==> Holds(Written(a), Written(b), VerEqual))
  {
    hide CompareVersions;
    WholeVersions(a, b);
  }
}
