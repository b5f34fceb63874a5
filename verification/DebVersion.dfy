/** Comparing Debian package versions, section 5.6.12 of the Debian Policy Manual. */
module DebVersion {
  import opened Wrappers

  /** A string of ASCII characters. */
  type text = s: string | forall i :: 0 <= i < |s| ==> '\0' < s[i] < '\U{80}' witness ""

  /** The character at `i`, or the one that ends the string. */
  function CharAt(s: text, i: nat): char {
    if i < |s| then s[i] else '\0'
  }

  predicate IsDigit(c: char) {
    '0' <= c <= '9'
  }

  function DigitValue(c: char): (v: nat)
    requires IsDigit(c)
    ensures v < 10
  {
    c as int - '0' as int
  }

  predicate IsAlpha(c: char) {
    'A' <= c <= 'Z' || 'a' <= c <= 'z'
  }

  /** Where a character sorts: a tilde before the end of a part, then letters, then everything else. */
  function Order(c: char): int {
    if c == '~' then -1
    else if c == '\0' then 0
    else if IsDigit(c) then 0
    else if IsAlpha(c) then c as int
    else c as int + 256
  }

  // ---------- the key of a version part ----------

  /** Where the digits from `i` on end. */
  function DigitsEnd(s: text, i: nat): (e: nat)
    requires i <= |s|
    ensures i <= e <= |s| && (forall k :: i <= k < e ==> IsDigit(s[k])) && !IsDigit(CharAt(s, e))
    ensures i < |s| && IsDigit(s[i]) ==> e > i
    decreases |s| - i
  {
    if i < |s| && IsDigit(s[i]) then DigitsEnd(s, i + 1) else i
  }

  /** The number that the digits from `i` to `e` stand for. */
  function Number(s: text, i: nat, e: nat): nat
    requires i <= e <= |s| && forall k :: i <= k < e ==> IsDigit(s[k])
    decreases e
  {
    if i == e then 0 else 10 * Number(s, i, e - 1) + DigitValue(s[e - 1])
  }

  /** The part from `i` on: the order of each character, and for each run of digits a zero and its number. */
  function Key(s: text, i: nat): seq<int>
    requires i <= |s|
    decreases |s| - i
  {
    if i == |s| then []
    else if IsDigit(s[i]) then [0, Number(s, i, DigitsEnd(s, i))] + Key(s, DigitsEnd(s, i))
    else [Order(s[i])] + Key(s, i + 1)
  }

  function Head(k: seq<int>): int {
    if k == [] then 0 else k[0]
  }

  function Tail(k: seq<int>): (t: seq<int>)
    ensures k != [] ==> |t| < |k|
    ensures k == [] ==> t == []
  {
    if k == [] then [] else k[1..]
  }

  /** Lexicographic comparison; a key that has ended goes on with zeros. */
  function CompareKeys(a: seq<int>, b: seq<int>): int
    decreases |a| + |b|
  {
    if a == [] && b == [] then 0
    else if Head(a) != Head(b) then Head(a) - Head(b)
    else CompareKeys(Tail(a), Tail(b))
  }

  function Sign(v: int): int {
    if v < 0 then -1 else if v > 0 then 1 else 0
  }

  lemma {:induction false} CompareSelf(a: seq<int>)
    ensures CompareKeys(a, a) == 0
    decreases |a|
  {
    if a != [] { CompareSelf(Tail(a)); }
  }

  lemma {:induction false} CompareSwapped(a: seq<int>, b: seq<int>)
    ensures CompareKeys(a, b) == -CompareKeys(b, a)
    decreases |a| + |b|
  {
    if !(a == [] && b == []) { CompareSwapped(Tail(a), Tail(b)); }
  }

  lemma {:induction false} CompareTransitive(a: seq<int>, b: seq<int>, c: seq<int>)
    requires CompareKeys(a, b) <= 0 && CompareKeys(b, c) <= 0
    ensures CompareKeys(a, c) <= 0
    ensures CompareKeys(a, b) < 0 || CompareKeys(b, c) < 0 ==> CompareKeys(a, c) < 0
    decreases |a| + |b| + |c|
  {
    if a == [] && b == [] && c == [] {
    } else if Head(a) == Head(b) == Head(c) {
      Skip(a, b); Skip(b, c); Skip(a, c);
      CompareTransitive(Tail(a), Tail(b), Tail(c));
    } else {
      Skip(a, b); Skip(b, c); Skip(a, c);
    }
  }

  lemma Skip(a: seq<int>, b: seq<int>)
    ensures CompareKeys(a, b) == if Head(a) != Head(b) then Head(a) - Head(b) else CompareKeys(Tail(a), Tail(b))
  {}

  // ---------- comparing two parts ----------

  lemma KeyHead(s: text, i: nat)
    requires i <= |s|
    ensures Head(Key(s, i)) == Order(CharAt(s, i))
    ensures i < |s| && !IsDigit(s[i]) ==> Tail(Key(s, i)) == Key(s, i + 1)
    ensures !(i < |s| && !IsDigit(s[i])) ==>
              Head(Tail(Key(s, i))) == Number(s, i, DigitsEnd(s, i))
              && Tail(Tail(Key(s, i))) == Key(s, DigitsEnd(s, i))
  {}

  /** Two characters of which one is no digit: the orders decide, or both are passed over. */
  lemma CharStep(v: text, i: nat, r: text, j: nat)
    requires i <= |v| && j <= |r|
    requires (i < |v| && !IsDigit(v[i])) || (j < |r| && !IsDigit(r[j]))
    ensures var vc, rc := Order(CharAt(v, i)), Order(CharAt(r, j));
            if vc != rc then CompareKeys(Key(v, i), Key(r, j)) == vc - rc
            else i < |v| && j < |r| && CompareKeys(Key(v, i), Key(r, j)) == CompareKeys(Key(v, i + 1), Key(r, j + 1))
  {
    hide Key, CompareKeys;
    KeyHead(v, i);
    KeyHead(r, j);
    Skip(Key(v, i), Key(r, j));
  }

  /** Two numbers, either of which may be missing: they decide, or both are passed over. */
  lemma NumberStep(v: text, i: nat, r: text, j: nat)
    requires i <= |v| && j <= |r| && !(i < |v| && !IsDigit(v[i])) && !(j < |r| && !IsDigit(r[j]))
    ensures var a, b := DigitsEnd(v, i), DigitsEnd(r, j);
            var m, n := Number(v, i, a), Number(r, j, b);
            CompareKeys(Key(v, i), Key(r, j)) == if m != n then m - n else CompareKeys(Key(v, a), Key(r, b))
  {
    hide Key, CompareKeys;
    KeyHead(v, i);
    KeyHead(r, j);
    Skip(Key(v, i), Key(r, j));
    Skip(Tail(Key(v, i)), Tail(Key(r, j)));
  }

  function Pow10(n: nat): (p: nat)
    ensures p > 0
  {
    if n == 0 then 1 else 10 * Pow10(n - 1)
  }

  lemma {:induction false} NumberBound(s: text, i: nat, e: nat)
    requires i <= e <= |s| && forall k :: i <= k < e ==> IsDigit(s[k])
    ensures Number(s, i, e) < Pow10(e - i)
    ensures i < e && s[i] != '0' ==> Number(s, i, e) >= Pow10(e - i - 1)
    decreases e
  {
    if i < e { NumberBound(s, i, e - 1); }
  }

  lemma {:induction false} Pow10Mono(a: nat, b: nat)
    requires a <= b
    ensures Pow10(a) <= Pow10(b)
    decreases b
  {
    if a < b { Pow10Mono(a, b - 1); }
  }

  /** Leading zeros do not count. */
  lemma {:induction false} LeadingZeros(s: text, i: nat, p: nat, e: nat)
    requires i <= p <= e <= |s| && (forall k :: i <= k < e ==> IsDigit(s[k]))
    requires forall k :: i <= k < p ==> s[k] == '0'
    ensures Number(s, i, e) == Number(s, p, e)
    decreases e
  {
    if e > p {
      LeadingZeros(s, i, p, e - 1);
    } else if i < p {
      LeadingZeros(s, i, p - 1, p - 1);
    }
  }

  lemma {:induction false} SameEnd(s: text, i: nat, p: nat)
    requires i <= p <= |s| && forall k :: i <= k < p ==> IsDigit(s[k])
    ensures DigitsEnd(s, i) == DigitsEnd(s, p)
    decreases p - i
  {
    if i < p { SameEnd(s, i + 1, p); }
  }

  /** The number with more digits is the greater one, if it does not start with a zero. */
  lemma LongerIsGreater(v: text, p: nat, a: nat, r: text, q: nat, b: nat)
    requires p < a <= |v| && (forall k :: p <= k < a ==> IsDigit(v[k])) && v[p] != '0'
    requires q <= b <= |r| && (forall k :: q <= k < b ==> IsDigit(r[k])) && b - q < a - p
    ensures Number(r, q, b) < Number(v, p, a)
  {
    NumberBound(v, p, a);
    NumberBound(r, q, b);
    Pow10Mono(b - q, a - p - 1);
  }

  /** The difference of the first digits that differ has the sign of the difference of the numbers. */
  ghost predicate DiffSoFar(firstDiff: int, m: nat, n: nat) {
    Sign(firstDiff) == Sign(m - n)
  }

  lemma NoDigits(s: text, i: nat)
    requires i <= |s|
    ensures Number(s, i, i) == 0 && DiffSoFar(0, 0, 0)
  {}

  lemma OneDigit(s: text, i: nat, e: nat)
    requires i <= e < |s| && forall k :: i <= k <= e ==> IsDigit(s[k])
    ensures Number(s, i, e + 1) == 10 * Number(s, i, e) + DigitValue(s[e])
  {}

  lemma AtEnd(s: text, i: nat)
    requires i <= |s|
    ensures !IsDigit(CharAt(s, i)) ==> DigitsEnd(s, i) == i
    ensures IsDigit(CharAt(s, i)) ==> i < DigitsEnd(s, i)
  {}

  lemma DiffIs(firstDiff: int, m: nat, n: nat)
    requires DiffSoFar(firstDiff, m, n)
    ensures Sign(firstDiff) == Sign(m - n)
  {}

  lemma NextDigit(firstDiff: int, m: nat, n: nat, x: nat, y: nat)
    requires DiffSoFar(firstDiff, m, n) && x < 10 && y < 10
    ensures DiffSoFar(if firstDiff == 0 then x - y else firstDiff, 10 * m + x, 10 * n + y)
  {}

  /** Passes over the zeros a number may start with. */
  method SkipZeros(s: text, i: nat) returns (p: nat)
    requires i <= |s|
    ensures i <= p <= DigitsEnd(s, i) && CharAt(s, p) != '0' && forall k :: i <= k < p ==> s[k] == '0'
    ensures DigitsEnd(s, p) == DigitsEnd(s, i) && Number(s, i, DigitsEnd(s, i)) == Number(s, p, DigitsEnd(s, i))
  {
    p := i;
    while CharAt(s, p) == '0'
      invariant i <= p <= |s| && forall k :: i <= k < p ==> s[k] == '0'
      decreases |s| - p
    {
      p := p + 1;
    }
    SameEnd(s, i, p);
    LeadingZeros(s, i, p, DigitsEnd(s, i));
  }

  /** Compares the numbers at `i` and `j`, digit by digit; `more` tells whether they decide. */
  method CompareNumbers(v: text, i: nat, r: text, j: nat) returns (a: nat, b: nat, diff: int)
    requires i <= |v| && j <= |r|
    ensures a <= |v| && b <= |r| && Sign(diff) == Sign(Number(v, i, DigitsEnd(v, i)) - Number(r, j, DigitsEnd(r, j)))
    ensures diff == 0 ==> a == DigitsEnd(v, i) && b == DigitsEnd(r, j)
  {
    hide DigitsEnd, Number, DiffSoFar;
    var p := SkipZeros(v, i);
    var q := SkipZeros(r, j);
    a, b := p, q;
    var firstDiff := 0;
    NoDigits(v, p);
    NoDigits(r, q);
    while IsDigit(CharAt(v, a)) && IsDigit(CharAt(r, b))
      invariant p <= a <= |v| && q <= b <= |r| && a - p == b - q
      invariant (forall k :: p <= k < a ==> IsDigit(v[k])) && forall k :: q <= k < b ==> IsDigit(r[k])
      invariant DiffSoFar(firstDiff, Number(v, p, a), Number(r, q, b))
      decreases |v| - a
    {
      OneDigit(v, p, a);
      OneDigit(r, q, b);
      NextDigit(firstDiff, Number(v, p, a), Number(r, q, b), DigitValue(v[a]), DigitValue(r[b]));
      if firstDiff == 0 {
        firstDiff := v[a] as int - r[b] as int;
      }
      a := a + 1;
      b := b + 1;
    }
    SameEnd(v, p, a);
    SameEnd(r, q, b);
    AtEnd(v, a);
    AtEnd(r, b);
    DiffIs(firstDiff, Number(v, p, a), Number(r, q, b));
    if IsDigit(CharAt(v, a)) {
      LongerIsGreater(v, p, DigitsEnd(v, i), r, q, b);
      return a, b, 1;
    }
    if IsDigit(CharAt(r, b)) {
      LongerIsGreater(r, q, DigitsEnd(r, j), v, p, a);
      return a, b, -1;
    }
    diff := firstDiff;
  }

  /** Compares two version parts as their keys compare. */
  method VersionComparePart(val: text, ref: text) returns (result: int)
    ensures Sign(result) == Sign(CompareKeys(Key(val, 0), Key(ref, 0)))
  {
    hide Key, CompareKeys, Number, DigitsEnd;
    var i: nat, j: nat := 0, 0;
    while i < |val| || j < |ref|
      invariant i <= |val| && j <= |ref|
      invariant CompareKeys(Key(val, i), Key(ref, j)) == CompareKeys(Key(val, 0), Key(ref, 0))
      decreases |val| - i + |ref| - j
    {
      ghost var i0, j0 := i, j;
      while (i < |val| && !IsDigit(val[i])) || (j < |ref| && !IsDigit(ref[j]))
        invariant i0 <= i <= |val| && j0 <= j <= |ref|
        invariant CompareKeys(Key(val, i), Key(ref, j)) == CompareKeys(Key(val, 0), Key(ref, 0))
        decreases |val| - i
      {
        CharStep(val, i, ref, j);
        var vc, rc := Order(CharAt(val, i)), Order(CharAt(ref, j));
        if vc != rc {
          return vc - rc;
        }
        i := i + 1;
        j := j + 1;
      }
      NumberStep(val, i, ref, j);
      var diff;
      i, j, diff := CompareNumbers(val, i, ref, j);
      if diff != 0 {
        return diff;
      }
    }
    NothingLeft(val, ref);
    return 0;
  }

  lemma NothingLeft(v: text, r: text)
    ensures CompareKeys(Key(v, |v|), Key(r, |r|)) == 0
  {}

  // ---------- whole versions ----------

  /** C's `strchr`, from `i` on. */
  function FirstOf(s: text, c: char, i: nat): (r: Option<nat>)
    requires i <= |s|
    ensures r.Some? ==> i <= r.value < |s| && s[r.value] == c && c !in s[i..r.value]
    ensures r.None? ==> c !in s[i..]
    decreases |s| - i
  {
    if i == |s| then None else if s[i] == c then Some(i) else FirstOf(s, c, i + 1)
  }

  /** C's `strrchr`, below `e`. */
  function LastOf(s: text, c: char, e: nat): (r: Option<nat>)
    requires e <= |s|
    ensures r.Some? ==> r.value < e && s[r.value] == c && c !in s[r.value + 1..e]
    ensures r.None? ==> c !in s[..e]
  {
    if e == 0 then None else if s[e - 1] == c then Some(e - 1) else LastOf(s, c, e - 1)
  }

  /** The number before the first colon, or zero. */
  function Epoch(s: text): nat {
    if FirstOf(s, ':', 0).Some? then Number(s, 0, DigitsEnd(s, 0)) else 0
  }

  function AfterEpoch(s: text): text {
    var c := FirstOf(s, ':', 0);
    if c.Some? then s[c.value + 1..] else s
  }

  /** What stands before the last hyphen, and after it. */
  function Upstream(s: text): text {
    var t := AfterEpoch(s);
    var h := LastOf(t, '-', |t|);
    if h.Some? then t[..h.value] else t
  }

  function Revision(s: text): text {
    var t := AfterEpoch(s);
    var h := LastOf(t, '-', |t|);
    if h.Some? then t[h.value + 1..] else ""
  }

  /** First the epochs decide, then the upstream versions, then the revisions. */
  function CompareVersions(a: text, b: text): int {
    var u := CompareKeys(Key(Upstream(a), 0), Key(Upstream(b), 0));
    if Epoch(a) != Epoch(b) then Epoch(a) - Epoch(b)
    else if u != 0 then u
    else CompareKeys(Key(Revision(a), 0), Key(Revision(b), 0))
  }

  /** Takes the epoch off a version. */
  method SplitEpoch(ver: text) returns (epoch: nat, rest: text)
    ensures epoch == Epoch(ver) && rest == AfterEpoch(ver)
  {
    epoch, rest := 0, ver;
    var colon := FirstOf(ver, ':', 0);
    if colon.Some? {
      epoch := Number(ver, 0, DigitsEnd(ver, 0));
      rest := ver[colon.value + 1..];
    }
  }

  /** Chops off the revision. */
  method SplitRevision(ver: text, ghost whole: text) returns (up: text, deb: text)
    requires ver == AfterEpoch(whole)
    ensures up == Upstream(whole) && deb == Revision(whole)
  {
    up, deb := ver, "";
    var dash := LastOf(ver, '-', |ver|);
    if dash.Some? {
      deb := ver[dash.value + 1..];
      up := ver[..dash.value];
    }
  }

  /** Compares two versions as section 5.6.12 does. */
  method VersionCompare(ver1: text, ver2: text) returns (result: int)
    ensures Sign(result) == Sign(CompareVersions(ver1, ver2))
  {
    hide Key, CompareKeys, Epoch, AfterEpoch, Upstream, Revision;
    var epoch1, rest1 := SplitEpoch(ver1);
    var epoch2, rest2 := SplitEpoch(ver2);
    if epoch1 < epoch2 {
      return -1;
    }
    if epoch1 > epoch2 {
      return 1;
    }
    var up1, deb1 := SplitRevision(rest1, ver1);
    var up2, deb2 := SplitRevision(rest2, ver2);
    result := VersionComparePart(up1, up2);
    if result == 0 {
      result := VersionComparePart(deb1, deb2);
    }
  }

  /** The order of versions is a total preorder. */
  lemma VersionsReflexive(a: text)
    ensures CompareVersions(a, a) == 0
  {
    CompareSelf(Key(Upstream(a), 0));
    CompareSelf(Key(Revision(a), 0));
  }

  lemma VersionsAntisymmetric(a: text, b: text)
    ensures CompareVersions(a, b) == -CompareVersions(b, a)
  {
    hide Key, CompareKeys, Epoch, Upstream, Revision;
    CompareSwapped(Key(Upstream(a), 0), Key(Upstream(b), 0));
    CompareSwapped(Key(Revision(a), 0), Key(Revision(b), 0));
  }

  lemma VersionsTransitive(a: text, b: text, c: text)
    requires CompareVersions(a, b) <= 0 && CompareVersions(b, c) <= 0
    ensures CompareVersions(a, c) <= 0
    ensures CompareVersions(a, b) < 0 || CompareVersions(b, c) < 0 ==> CompareVersions(a, c) < 0
  {
    hide Key, CompareKeys, Epoch, Upstream, Revision;
    if Epoch(a) == Epoch(b) == Epoch(c) {
      var x, y, z := Key(Upstream(a), 0), Key(Upstream(b), 0), Key(Upstream(c), 0);
      CompareTransitive(x, y, z);
      if CompareKeys(x, y) == 0 && CompareKeys(y, z) == 0 {
        CompareSwapped(x, y);
        CompareSwapped(y, z);
        CompareTransitive(z, y, x);
        CompareSwapped(x, z);
        CompareTransitive(Key(Revision(a), 0), Key(Revision(b), 0), Key(Revision(c), 0));
      }
    }
  }

  /** A tilde sorts even before the end of a part. */
  lemma {:induction false} TildeFirst(s: text, t: text, i: nat)
    requires i <= |s|
    ensures CompareKeys(Key(s + "~" + t, i), Key(s, i)) < 0
    decreases |s| - i
  {
    hide Key, CompareKeys;
    var l := s + "~" + t;
    if i == |s| {
      KeyHead(l, i);
      KeyHead(s, i);
      Skip(Key(l, i), Key(s, i));
    } else if IsDigit(s[i]) {
      SameDigits(s, l, i);
      NumberStep(l, i, s, i);
      TildeFirst(s, t, DigitsEnd(s, i));
    } else {
      CharStep(l, i, s, i);
      TildeFirst(s, t, i + 1);
    }
  }

  lemma {:induction false} SameDigits(s: text, l: text, i: nat)
    requires |s| < |l| && l[..|s|] == s && i <= |s| && !IsDigit(l[|s|])
    ensures DigitsEnd(l, i) == DigitsEnd(s, i) && Number(l, i, DigitsEnd(l, i)) == Number(s, i, DigitsEnd(s, i))
    decreases |s| - i
  {
    SameDigitsEnd(s, l, i);
    SameNumber(s, l, i, DigitsEnd(s, i));
  }

  lemma {:induction false} SameDigitsEnd(s: text, l: text, i: nat)
    requires |s| < |l| && l[..|s|] == s && i <= |s| && !IsDigit(l[|s|])
    ensures DigitsEnd(l, i) == DigitsEnd(s, i)
    decreases |s| - i
  {
    if i < |s| {
      assert l[i] == l[..|s|][i] == s[i];
      if IsDigit(s[i]) { SameDigitsEnd(s, l, i + 1); }
    }
  }

  lemma {:induction false} SameNumber(s: text, l: text, i: nat, e: nat)
    requires i <= e <= |s| <= |l| && l[..|s|] == s && forall k :: i <= k < e ==> IsDigit(s[k]) && IsDigit(l[k])
    ensures Number(l, i, e) == Number(s, i, e)
    decreases e
  {
    if i < e {
      assert l[e - 1] == l[..|s|][e - 1] == s[e - 1];
      SameNumber(s, l, i, e - 1);
    }
  }

  // ---------- relations ----------

  datatype Relation = VerAny | VerEqual | VerLess | VerLessEqual | VerMore | VerMoreEqual

  /** What a relation between versions means. */
  predicate Holds(a: text, b: text, rel: Relation) {
    match rel
    case VerAny => true
    case VerEqual => CompareVersions(a, b) == 0
    case VerLess => CompareVersions(a, b) < 0
    case VerLessEqual => CompareVersions(a, b) <= 0
    case VerMore => CompareVersions(b, a) < 0
    case VerMoreEqual => CompareVersions(b, a) <= 0
  }

  method TestVersion(version1: text, version2: text, rel: Relation) returns (r: bool)
    ensures r <==> Holds(version1, version2, rel)
  {
    hide CompareVersions;
    VersionsAntisymmetric(version1, version2);
    var result := VersionCompare(version1, version2);
    match rel
    case VerAny => r := true;
    case VerEqual => r := result == 0;
    case VerLess => r := result < 0;
    case VerLessEqual => r := result <= 0;
    case VerMore => r := result > 0;
    case VerMoreEqual => r := result >= 0;
  }
}
