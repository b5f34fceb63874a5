/** The table that gives every name and version string its index: open addressing with double hashing. */
module NameTable {
  import opened Wrappers
  import opened Numbers
  import opened Primes
  import opened CodeLengths
  import opened DebVersion

  const NAME_HASH_PRIME: nat := 16381
  const PACKAGE_HASH_PRIME: nat := 10007
  const STATUS_HASH_PRIME: nat := 8191

  // ---------- the sizes of the tables ----------

  /** The sizes of the three tables are primes. */
  lemma TableSizes()
    ensures Prime(NAME_HASH_PRIME) && Prime(PACKAGE_HASH_PRIME) && Prime(STATUS_HASH_PRIME)
  {
    NamePrime();
    PackagePrime();
    StatusPrime();
  }

  lemma NamePrime()
    ensures Prime(NAME_HASH_PRIME)
  {
    assert forall d :: 2 <= d <= 127 ==> NAME_HASH_PRIME % d != 0;
    SmallDivisors(NAME_HASH_PRIME, 127);
  }

  lemma PackagePrime()
    ensures Prime(PACKAGE_HASH_PRIME)
  {
    assert forall d :: 2 <= d <= 100 ==> PACKAGE_HASH_PRIME % d != 0;
    SmallDivisors(PACKAGE_HASH_PRIME, 100);
  }

  lemma StatusPrime()
    ensures Prime(STATUS_HASH_PRIME)
  {
    assert forall d :: 2 <= d <= 90 ==> STATUS_HASH_PRIME % d != 0;
    SmallDivisors(STATUS_HASH_PRIME, 90);
  }

  // ---------- the probes of a search ----------

  /** Where a search starts, and how far back each probe goes. */
  datatype Hash = Hash(start: nat, dec: nat)

  ghost predicate GoodHash(h: Hash, p: nat) {
    h.start < p && 0 < h.dec < p
  }

  /** The address of probe `i`. */
  function Probe(h: Hash, p: nat, i: nat): (a: nat)
    requires p > 0
    ensures a < p
  {
    (h.start - i * h.dec) % p
  }

  lemma ProbeNext(h: Hash, p: nat, i: nat)
    requires GoodHash(h, p)
    ensures var a := Probe(h, p, i) - h.dec;
            Probe(h, p, i + 1) == if a < 0 then a + p else a
  {
    var v := h.start - i * h.dec;
    var q, r := v / p, v % p;
    assert v == q * p + r;
    Distribute(i, 1, h.dec);
    assert h.start - (i + 1) * h.dec == v - h.dec;
    if r < h.dec {
      Distribute(q - 1, 1, p);
      DivMod(v - h.dec, p, q - 1, r - h.dec + p);
    } else {
      DivMod(v - h.dec, p, q, r - h.dec);
    }
  }

  /** With a prime size, different probes go to different slots. */
  lemma ProbesDiffer(h: Hash, p: nat, i: nat, j: nat)
    requires Prime(p) && GoodHash(h, p) && i < j < p
    ensures Probe(h, p, i) != Probe(h, p, j)
  {
    if Probe(h, p, i) == Probe(h, p, j) {
      SameResidue(h.start - i * h.dec, h.start - j * h.dec, p);
      Distribute(i, j - i, h.dec);
      NoProduct(p, h.dec, j - i);
    }
  }

  lemma SameResidue(u: int, v: int, p: nat)
    requires p > 0 && u % p == v % p
    ensures (u - v) % p == 0
  {
    var m := u / p - v / p;
    Distribute(v / p, m, p);
    DivMod(u - v, p, m, 0);
  }

  /** The slots that the first `n` probes go to. */
  ghost function Probed(h: Hash, p: nat, n: nat): set<nat>
    requires p > 0
  {
    if n == 0 then {} else Probed(h, p, n - 1) + {Probe(h, p, n - 1)}
  }

  lemma {:induction false} ProbedIs(h: Hash, p: nat, n: nat)
    requires Prime(p) && GoodHash(h, p) && n <= p
    ensures |Probed(h, p, n)| == n
    ensures forall a :: a in Probed(h, p, n) ==> a < p && exists i :: 0 <= i < n && Probe(h, p, i) == a
  {
    hide Probe;
    if n > 0 {
      ProbedIs(h, p, n - 1);
      if Probe(h, p, n - 1) in Probed(h, p, n - 1) {
        var i :| 0 <= i < n - 1 && Probe(h, p, i) == Probe(h, p, n - 1);
        ProbesDiffer(h, p, i, n - 1);
      }
    }
  }

  function Below(n: nat): (s: set<nat>)
    ensures |s| == n && forall a: nat :: a in s <==> a < n
  {
    if n == 0 then {} else Below(n - 1) + {n - 1}
  }

  lemma SameSize(a: set<nat>, b: set<nat>)
    requires a <= b && |a| == |b|
    ensures a == b
  {
    if exists x :: x in b && x !in a {
      var x :| x in b && x !in a;
      SubsetSize(a, b - {x});
    }
  }

  lemma {:induction false} SubsetSize(a: set<nat>, b: set<nat>)
    requires a <= b
    ensures |a| <= |b|
  {
    if a != {} {
      var x :| x in a;
      SubsetSize(a - {x}, b - {x});
    }
  }

  /** Double hashing with a prime size goes to every slot, so that a search ends while a slot is free. */
  lemma EverySlot(h: Hash, p: nat, a: nat) returns (i: nat)
    requires Prime(p) && GoodHash(h, p) && a < p
    ensures i < p && Probe(h, p, i) == a
  {
    hide Probe;
    ProbedIs(h, p, p);
    SameSize(Probed(h, p, p), Below(p));
    assert a in Probed(h, p, p);
    i :| 0 <= i < p && Probe(h, p, i) == a;
  }

  // ---------- interning ----------

  type Table = seq<Option<text>>

  /** Probe `i` finds the key, or a free slot. */
  predicate Stops(t: Table, h: Hash, key: text, i: nat)
    requires |t| > 0
  {
    var e := t[Probe(h, |t|, i)];
    e == None || e == Some(key)
  }

  /** Every key stands where a search for it stops. */
  ghost predicate Findable(t: Table) {
    && Prime(|t|)
    && forall a: nat :: a < |t| && t[a].Some? ==> FoundAt(t, t[a].value, a)
  }

  /** The search for `key` goes over other keys and then comes to slot `a`, which holds it. */
  ghost predicate FoundAt(t: Table, key: text, a: nat)
    requires |t| > 0
  {
    exists i: nat :: i < |t| && Ends(t, key, i, a) && t[a] == Some(key)
  }

  /** Probe `i` of the search for `key` is the first one that stops, at `a`. */
  ghost predicate Ends(t: Table, key: text, i: nat, a: nat)
    requires |t| > 0
  {
    && a < |t| && GoodHash(HashOf(key, |t|), |t|) && a == Probe(HashOf(key, |t|), |t|, i)
    && Stops(t, HashOf(key, |t|), key, i)
    && forall j: nat :: j < i ==> !Stops(t, HashOf(key, |t|), key, j)
  }

  lemma EndsOnce(t: Table, key: text, i: nat, a: nat, j: nat, b: nat)
    requires |t| > 0 && Ends(t, key, i, a) && Ends(t, key, j, b)
    ensures i == j && a == b
  {
    hide Stops, Probe, HashOf, GoodHash;
  }

  /** The numbers that `make_hash` adds up, in an `unsigned long` of 32 bits. */
  function HashNum(key: text, i: nat): (v: nat)
    requires i <= |key|
    ensures v < U32
  {
    if i == 0 then 0
    else if i == 1 then key[0] as int
    else U(HashNum(key, i - 1) + Shl(key[i - 1] as int + key[i - 2] as int, key[i - 1] as int * (i - 1) % 24))
  }

  function HashOf(key: text, p: nat): Hash
    requires p > 0
  {
    var n := HashNum(key, |key|);
    Hash(n % p, 1 + if p > 1 then n % (p - 1) else 0)
  }

  lemma HashIsGood(key: text, p: nat)
    requires p >= 2
    ensures GoodHash(HashOf(key, p), p)
  {
    hide HashNum;
  }

  /** Makes the start and the step of the search for a key. */
  method MakeHash(key: text, prime: nat) returns (start: nat, decrement: nat)
    requires prime >= 2
    ensures Hash(start, decrement) == HashOf(key, prime) && start < prime && 0 < decrement < prime
  {
    hide Shl, U;
    var hashNum: nat := if |key| > 0 then key[0] as int else 0;
    var i := 1;
    while i < |key|
      invariant 1 <= i && (|key| > 0 ==> i <= |key| && hashNum == HashNum(key, i)) && (key == "" ==> hashNum == 0)
    {
      hashNum := U(hashNum + Shl(key[i] as int + key[i - 1] as int, key[i] as int * i % 24));
      i := i + 1;
    }
    start := hashNum % prime;
    decrement := 1 + hashNum % (prime - 1);
  }

  /** A free slot is found by every search. */
  lemma SearchEnds(t: Table, key: text, free: nat) returns (i: nat, a: nat)
    requires Prime(|t|) && free < |t| && t[free] == None
    ensures i < |t| && Ends(t, key, i, a)
  {
    HashIsGood(key, |t|);
    var h := HashOf(key, |t|);
    var n := EverySlot(h, |t|, free);
    i := FirstStop(t, h, key, n);
    a := Probe(h, |t|, i);
  }

  lemma {:induction false} FirstStop(t: Table, h: Hash, key: text, n: nat) returns (i: nat)
    requires |t| > 0 && Stops(t, h, key, n)
    ensures i <= n && Stops(t, h, key, i) && forall j: nat :: j < i ==> !Stops(t, h, key, j)
    decreases n
  {
    if m: nat :| m < n && Stops(t, h, key, m) {
      i := FirstStop(t, h, key, m);
    } else {
      i := n;
    }
  }

  /** Filling the free slot at which the search for a new key stops keeps everything findable. */
  lemma StoreKeeps(t: Table, key: text, i: nat, a: nat)
    requires Findable(t) && i < |t| && Ends(t, key, i, a) && a < |t| && t[a] == None
    ensures Findable(t[a := Some(key)]) && FoundAt(t[a := Some(key)], key, a)
  {
    hide Ends, Prime;
    var u := t[a := Some(key)];
    NewEnds(t, key, i, a);
    assert FoundAt(u, key, a);
    NewKey(t, key, i, a);
    forall b: nat | b < |u| && u[b].Some?
      ensures FoundAt(u, u[b].value, b)
    {
      if b != a {
        var k := t[b].value;
        assert FoundAt(t, k, b);
        var j: nat :| j < |t| && Ends(t, k, j, b) && t[b] == Some(k);
        StillEnds(t, k, j, b, a, key);
      }
    }
  }

  lemma NewEnds(t: Table, key: text, i: nat, a: nat)
    requires |t| > 0 && Ends(t, key, i, a)
    ensures Ends(t[a := Some(key)], key, i, a)
  {
    hide HashOf, GoodHash, Probe;
    var u := t[a := Some(key)];
    forall j: nat | j < i
      ensures !Stops(u, HashOf(key, |u|), key, j)
    {
      assert !Stops(t, HashOf(key, |t|), key, j);
    }
  }

  lemma StillEnds(t: Table, k: text, j: nat, b: nat, a: nat, key: text)
    requires |t| > 0 && Ends(t, k, j, b) && t[b] == Some(k) && a < |t| && t[a] == None && k != key
    ensures Ends(t[a := Some(key)], k, j, b)
  {
    hide HashOf, GoodHash, Probe;
    var u := t[a := Some(key)];
    forall m: nat | m < j
      ensures !Stops(u, HashOf(k, |u|), k, m)
    {
      assert !Stops(t, HashOf(k, |t|), k, m);
    }
  }

  /** Two slots never hold the same key. */
  lemma NoTwice(t: Table, a: nat, b: nat)
    requires Findable(t) && a < |t| && b < |t| && t[a].Some? && t[a] == t[b]
    ensures a == b
  {
    var key := t[a].value;
    assert FoundAt(t, key, a) && FoundAt(t, key, b);
    var i: nat :| i < |t| && Ends(t, key, i, a);
    var j: nat :| j < |t| && Ends(t, key, j, b);
    EndsOnce(t, key, i, a, j, b);
  }

  /** A search comes to the free slot only if the key is nowhere in the table. */
  lemma NewKey(t: Table, key: text, i: nat, a: nat)
    requires Findable(t) && Ends(t, key, i, a) && t[a] == None
    ensures Some(key) !in t
  {
    forall b: nat | b < |t| && t[b] == Some(key)
      ensures a == b
    {
      OnlySlot(t, key, i, a, b);
    }
  }

  lemma OnlySlot(t: Table, key: text, i: nat, a: nat, b: nat)
    requires Findable(t) && Ends(t, key, i, a) && b < |t| && t[b] == Some(key)
    ensures a == b
  {
    hide Ends, Prime;
    assert FoundAt(t, t[b].value, b);
    var j: nat :| j < |t| && Ends(t, key, j, b);
    EndsOnce(t, key, i, a, j, b);
  }

  lemma FirstProbe(h: Hash, p: nat)
    requires h.start < p
    ensures Probe(h, p, 0) == h.start
  {
    DivMod(h.start, p, 0, h.start);
  }

  /** What one search does: the key gets the slot `a`, which was free or its own, and nothing else changes. */
  predicate Interned(t: Table, key: text, u: Table, a: nat) {
    && a < |t| && u == t[a := Some(key)] && (t[a] == None || t[a] == Some(key))
    && (Some(key) in t ==> u == t)
  }

  /** A run of searches: table `k` and the key `k` give table `k + 1` and the index `k`. */
  ghost predicate Searches(ts: seq<Table>, keys: seq<text>, at: seq<nat>) {
    && |ts| == |keys| + 1 && |at| == |keys|
    && (forall k :: 0 <= k < |ts| ==> Findable(ts[k]))
    && forall k :: 0 <= k < |keys| ==> Interned(ts[k], keys[k], ts[k + 1], at[k])
  }

  lemma {:induction false} StaysStored(ts: seq<Table>, keys: seq<text>, at: seq<nat>, i: nat, j: nat)
    requires Searches(ts, keys, at) && i < j < |ts|
    ensures at[i] < |ts[j]| && ts[j][at[i]] == Some(keys[i])
    decreases j
  {
    assert Interned(ts[i], keys[i], ts[i + 1], at[i]);
    if i + 1 < j {
      StaysStored(ts, keys, at, i, j - 1);
      assert Interned(ts[j - 1], keys[j - 1], ts[j - 1 + 1], at[j - 1]);
    }
  }

  /** In every run of searches, equal strings get the same index, and different strings never share one. */
  lemma SameIndexSameName(ts: seq<Table>, keys: seq<text>, at: seq<nat>, i: nat, j: nat)
    requires Searches(ts, keys, at) && i < j < |keys|
    ensures at[i] == at[j] <==> keys[i] == keys[j]
  {
    hide Findable;
    StaysStored(ts, keys, at, i, j);
    assert Interned(ts[j], keys[j], ts[j + 1], at[j]);
    if keys[i] == keys[j] {
      assert Findable(ts[j]);
      assert ts[j][at[j]] == Some(keys[j]);
      NoTwice(ts[j], at[i], at[j]);
    }
  }

  class Names {
    const table: array<Option<text>>

    ghost predicate Valid()
      reads table
    {
      Findable(table[..])
    }

    constructor (prime: nat)
      requires Prime(prime)
      ensures Valid() && fresh(table) && table.Length == prime && forall a :: 0 <= a < prime ==> table[a] == None
    {
      table := new Option<text>[prime](_ => None);
    }

    /** The index of a string, which is stored if it is new; a free slot makes the search end. */
    method SearchName(key: text, ghost free: nat) returns (index: nat)
      requires Valid() && free < table.Length && table[free] == None
      modifies table
      ensures Valid() && Interned(old(table[..]), key, table[..], index)
    {
      hide Probe, HashOf, GoodHash;
      ghost var t: Table := table[..];
      ghost var n, a := SearchEnds(t, key, free);
      var address, decrement := MakeHash(key, table.Length);
      ghost var h := HashOf(key, table.Length);
      ghost var i := 0;
      FirstProbe(h, table.Length);
      while table[address] != None && table[address] != Some(key)
        invariant table[..] == t && i <= n && address == Probe(h, table.Length, i)
        decreases n - i
      {
        assert !Stops(t, h, key, i);
        ProbeNext(h, table.Length, i);
        var next := address - decrement;
        if next < 0 {
          next := next + table.Length;
        }
        address := next;
        i := i + 1;
      }
      assert Stops(t, h, key, i);
      index := address;
      if table[address] == None {
        StoreKeeps(t, key, i, a);
        NewKey(t, key, i, a);
        table[address] := Some(key);
        assert table[..] == t[a := Some(key)];
      }
    }
  }
}
