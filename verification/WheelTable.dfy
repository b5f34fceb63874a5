/** The packed table of the increments between trial divisors. */
module WheelTable {

  // ---------- the packed table ----------

  /** Ten increments of the packed table. */
  datatype Half = Half(a: nat, b: nat, c: nat, d: nat, e: nat, f: nat, g: nat, h: nat, i: nat, j: nat) {
    function Incs(): (r: seq<nat>)
      ensures |r| == 10
    {
      [a, b, c, d, e, f, g, h, i, j]
    }
  }

  /** An entry of the packed table: twenty increments. */
  datatype Entry = P(lo: Half, hi: Half) {
    function Incs(): (r: seq<nat>)
      ensures |r| == 20
    {
      lo.Incs() + hi.Incs()
    }
  }

  const ENTRY01 := P(Half(4, 2, 4, 6, 2, 6, 4, 2, 4, 6), Half(6, 2, 6, 4, 2, 6, 4, 6, 8, 4))
  const ENTRY02 := P(Half(2, 4, 2, 4, 14, 4, 6, 2, 10, 2), Half(6, 6, 4, 2, 4, 6, 2, 10, 2, 4))
  const ENTRY03 := P(Half(2, 12, 10, 2, 4, 2, 4, 6, 2, 6), Half(4, 6, 6, 6, 2, 6, 4, 2, 6, 4))
  const ENTRY04 := P(Half(6, 8, 4, 2, 4, 6, 8, 6, 10, 2), Half(4, 6, 2, 6, 6, 4, 2, 4, 6, 2))
  const ENTRY05 := P(Half(6, 4, 2, 6, 10, 2, 10, 2, 4, 2), Half(4, 6, 8, 4, 2, 4, 12, 2, 6, 4))
  const ENTRY06 := P(Half(2, 6, 4, 6, 12, 2, 4, 2, 4, 8), Half(6, 4, 6, 2, 4, 6, 2, 6, 10, 2))
  const ENTRY07 := P(Half(4, 6, 2, 6, 4, 2, 4, 2, 10, 2), Half(10, 2, 4, 6, 6, 2, 6, 6, 4, 6))
  const ENTRY08 := P(Half(6, 2, 6, 4, 2, 6, 4, 6, 8, 4), Half(2, 6, 4, 8, 6, 4, 6, 2, 4, 6))
  const ENTRY09 := P(Half(8, 6, 4, 2, 10, 2, 6, 4, 2, 4), Half(2, 10, 2, 10, 2, 4, 2, 4, 8, 6))
  const ENTRY10 := P(Half(4, 2, 4, 6, 6, 2, 6, 4, 8, 4), Half(6, 8, 4, 2, 4, 2, 4, 8, 6, 4))
  const ENTRY11 := P(Half(6, 6, 6, 2, 6, 6, 4, 2, 4, 6), Half(2, 6, 4, 2, 4, 2, 10, 2, 10, 2))
  const ENTRY12 := P(Half(6, 4, 6, 2, 6, 4, 2, 4, 6, 6), Half(8, 4, 2, 6, 10, 8, 4, 2, 4, 2))
  const ENTRY13 := P(Half(4, 8, 10, 6, 2, 4, 8, 6, 6, 4), Half(2, 4, 6, 2, 6, 4, 6, 2, 10, 2))
  const ENTRY14 := P(Half(10, 2, 4, 2, 4, 6, 2, 6, 4, 2), Half(4, 6, 6, 2, 6, 6, 6, 4, 6, 8))
  const ENTRY15 := P(Half(4, 2, 4, 2, 4, 8, 6, 4, 8, 4), Half(6, 2, 6, 6, 4, 2, 4, 6, 8, 4))
  const ENTRY16 := P(Half(2, 4, 2, 10, 2, 10, 2, 4, 2, 4), Half(6, 2, 10, 2, 4, 6, 8, 6, 4, 2))
  const ENTRY17 := P(Half(6, 4, 6, 8, 4, 6, 2, 4, 8, 6), Half(4, 6, 2, 4, 6, 2, 6, 6, 4, 6))
  const ENTRY18 := P(Half(6, 2, 6, 6, 4, 2, 10, 2, 10, 2), Half(4, 2, 4, 6, 2, 6, 4, 2, 10, 6))
  const ENTRY19 := P(Half(2, 6, 4, 2, 6, 4, 6, 8, 4, 2), Half(4, 2, 12, 6, 4, 6, 2, 4, 6, 2))
  const ENTRY20 := P(Half(12, 4, 2, 4, 8, 6, 4, 2, 4, 2), Half(10, 2, 10, 6, 2, 4, 6, 2, 6, 4))
  const ENTRY21 := P(Half(2, 4, 6, 6, 2, 6, 4, 2, 10, 6), Half(8, 6, 4, 2, 4, 8, 6, 4, 6, 2))
  const ENTRY22 := P(Half(4, 6, 2, 6, 6, 6, 4, 6, 2, 6), Half(4, 2, 4, 2, 10, 12, 2, 4, 2, 10))
  const ENTRY23 := P(Half(2, 6, 4, 2, 4, 6, 6, 2, 10, 2), Half(6, 4, 14, 4, 2, 4, 2, 4, 8, 6))
  const ENTRY24 := P(Half(4, 6, 2, 4, 6, 2, 6, 6, 4, 2), Half(4, 6, 2, 6, 4, 2, 4, 12, 2, 12))

  function PackedWheel(k: nat): Entry
    requires k < 24
  {
    match k
    case 0 => ENTRY01
    case 1 => ENTRY02
    case 2 => ENTRY03
    case 3 => ENTRY04
    case 4 => ENTRY05
    case 5 => ENTRY06
    case 6 => ENTRY07
    case 7 => ENTRY08
    case 8 => ENTRY09
    case 9 => ENTRY10
    case 10 => ENTRY11
    case 11 => ENTRY12
    case 12 => ENTRY13
    case 13 => ENTRY14
    case 14 => ENTRY15
    case 15 => ENTRY16
    case 16 => ENTRY17
    case 17 => ENTRY18
    case 18 => ENTRY19
    case 19 => ENTRY20
    case 20 => ENTRY21
    case 21 => ENTRY22
    case 22 => ENTRY23
    case _ => ENTRY24
  }

  /** The candidate at which entry `k` of the table starts, on the first round. */
  function Start(k: nat): nat
    requires k <= 24
  {
    match k
    case 0 => 13
    case 1 => 101
    case 2 => 197
    case 3 => 293
    case 4 => 391
    case 5 => 491
    case 6 => 589
    case 7 => 683
    case 8 => 779
    case 9 => 877
    case 10 => 971
    case 11 => 1063
    case 12 => 1159
    case 13 => 1261
    case 14 => 1357
    case 15 => 1451
    case 16 => 1543
    case 17 => 1643
    case 18 => 1739
    case 19 => 1831
    case 20 => 1931
    case 21 => 2029
    case 22 => 2129
    case 23 => 2227
    case _ => 2323
  }

  // ---------- what the table must hold ----------

  predicate Small(x: nat) {
    x % 3 == 0 || x % 5 == 0 || x % 7 == 0 || x % 11 == 0
  }

  /** Every number between the odd numbers `p` and `p + d` has a divisor among 2, 3, 5, 7 and 11. */
  predicate Gap(p: nat, d: nat) {
    && p % 2 == 1 && d % 2 == 0 && 0 < d <= 14 && (d > 2 ==> Small(p + 2)) && (d > 4 ==> Small(p + 4))
    && (d > 6 ==> Small(p + 6)) && (d > 8 ==> Small(p + 8)) && (d > 10 ==> Small(p + 10))
    && (d > 12 ==> Small(p + 12))
  }

  /** The ten increments of `s`, from `p` to `z`, skip no number without such a divisor. */
  predicate HalfOk(p: nat, s: Half, z: nat) {
    && Gap(p, s.a)
    && Gap(p + s.a, s.b)
    && Gap(p + s.a + s.b, s.c)
    && Gap(p + s.a + s.b + s.c, s.d)
    && Gap(p + s.a + s.b + s.c + s.d, s.e)
    && Gap(p + s.a + s.b + s.c + s.d + s.e, s.f)
    && Gap(p + s.a + s.b + s.c + s.d + s.e + s.f, s.g)
    && Gap(p + s.a + s.b + s.c + s.d + s.e + s.f + s.g, s.h)
    && Gap(p + s.a + s.b + s.c + s.d + s.e + s.f + s.g + s.h, s.i)
    && Gap(p + s.a + s.b + s.c + s.d + s.e + s.f + s.g + s.h + s.i, s.j)
    && z == p + s.a + s.b + s.c + s.d + s.e + s.f + s.g + s.h + s.i + s.j
  }

  lemma Entry01Lo()
    ensures HalfOk(13, ENTRY01.lo, 53)
  {}

  lemma Entry01Hi()
    ensures HalfOk(53, ENTRY01.hi, 101)
  {}

  lemma Entry02Lo()
    ensures HalfOk(101, ENTRY02.lo, 151)
  {}

  lemma Entry02Hi()
    ensures HalfOk(151, ENTRY02.hi, 197)
  {}

  lemma Entry03Lo()
    ensures HalfOk(197, ENTRY03.lo, 247)
  {}

  lemma Entry03Hi()
    ensures HalfOk(247, ENTRY03.hi, 293)
  {}

  lemma Entry04Lo()
    ensures HalfOk(293, ENTRY04.lo, 349)
  {}

  lemma Entry04Hi()
    ensures HalfOk(349, ENTRY04.hi, 391)
  {}

  lemma Entry05Lo()
    ensures HalfOk(391, ENTRY05.lo, 439)
  {}

  lemma Entry05Hi()
    ensures HalfOk(439, ENTRY05.hi, 491)
  {}

  lemma Entry06Lo()
    ensures HalfOk(491, ENTRY06.lo, 541)
  {}

  lemma Entry06Hi()
    ensures HalfOk(541, ENTRY06.hi, 589)
  {}

  lemma Entry07Lo()
    ensures HalfOk(589, ENTRY07.lo, 631)
  {}

  lemma Entry07Hi()
    ensures HalfOk(631, ENTRY07.hi, 683)
  {}

  lemma Entry08Lo()
    ensures HalfOk(683, ENTRY08.lo, 731)
  {}

  lemma Entry08Hi()
    ensures HalfOk(731, ENTRY08.hi, 779)
  {}

  lemma Entry09Lo()
    ensures HalfOk(779, ENTRY09.lo, 827)
  {}

  lemma Entry09Hi()
    ensures HalfOk(827, ENTRY09.hi, 877)
  {}

  lemma Entry10Lo()
    ensures HalfOk(877, ENTRY10.lo, 923)
  {}

  lemma Entry10Hi()
    ensures HalfOk(923, ENTRY10.hi, 971)
  {}

  lemma Entry11Lo()
    ensures HalfOk(971, ENTRY11.lo, 1019)
  {}

  lemma Entry11Hi()
    ensures HalfOk(1019, ENTRY11.hi, 1063)
  {}

  lemma Entry12Lo()
    ensures HalfOk(1063, ENTRY12.lo, 1109)
  {}

  lemma Entry12Hi()
    ensures HalfOk(1109, ENTRY12.hi, 1159)
  {}

  lemma Entry13Lo()
    ensures HalfOk(1159, ENTRY13.lo, 1217)
  {}

  lemma Entry13Hi()
    ensures HalfOk(1217, ENTRY13.hi, 1261)
  {}

  lemma Entry14Lo()
    ensures HalfOk(1261, ENTRY14.lo, 1303)
  {}

  lemma Entry14Hi()
    ensures HalfOk(1303, ENTRY14.hi, 1357)
  {}

  lemma Entry15Lo()
    ensures HalfOk(1357, ENTRY15.lo, 1403)
  {}

  lemma Entry15Hi()
    ensures HalfOk(1403, ENTRY15.hi, 1451)
  {}

  lemma Entry16Lo()
    ensures HalfOk(1451, ENTRY16.lo, 1493)
  {}

  lemma Entry16Hi()
    ensures HalfOk(1493, ENTRY16.hi, 1543)
  {}

  lemma Entry17Lo()
    ensures HalfOk(1543, ENTRY17.lo, 1597)
  {}

  lemma Entry17Hi()
    ensures HalfOk(1597, ENTRY17.hi, 1643)
  {}

  lemma Entry18Lo()
    ensures HalfOk(1643, ENTRY18.lo, 1693)
  {}

  lemma Entry18Hi()
    ensures HalfOk(1693, ENTRY18.hi, 1739)
  {}

  lemma Entry19Lo()
    ensures HalfOk(1739, ENTRY19.lo, 1783)
  {}

  lemma Entry19Hi()
    ensures HalfOk(1783, ENTRY19.hi, 1831)
  {}

  lemma Entry20Lo()
    ensures HalfOk(1831, ENTRY20.lo, 1879)
  {}

  lemma Entry20Hi()
    ensures HalfOk(1879, ENTRY20.hi, 1931)
  {}

  lemma Entry21Lo()
    ensures HalfOk(1931, ENTRY21.lo, 1979)
  {}

  lemma Entry21Hi()
    ensures HalfOk(1979, ENTRY21.hi, 2029)
  {}

  lemma Entry22Lo()
    ensures HalfOk(2029, ENTRY22.lo, 2077)
  {}

  lemma Entry22Hi()
    ensures HalfOk(2077, ENTRY22.hi, 2129)
  {}

  lemma Entry23Lo()
    ensures HalfOk(2129, ENTRY23.lo, 2173)
  {}

  lemma Entry23Hi()
    ensures HalfOk(2173, ENTRY23.hi, 2227)
  {}

  lemma Entry24Lo()
    ensures HalfOk(2227, ENTRY24.lo, 2269)
  {}

  lemma Entry24Hi()
    ensures HalfOk(2269, ENTRY24.hi, 2323)
  {}

  /** The table holds what it should. */
  lemma TableOk(k: nat) returns (m: nat)
    requires k < 24
    ensures HalfOk(Start(k), PackedWheel(k).lo, m) && HalfOk(m, PackedWheel(k).hi, Start(k + 1))
  {
    hide HalfOk;
    match k
    case 0 =>
      Entry01Lo();
      Entry01Hi();
      m := 53;
    case 1 =>
      Entry02Lo();
      Entry02Hi();
      m := 151;
    case 2 =>
      Entry03Lo();
      Entry03Hi();
      m := 247;
    case 3 =>
      Entry04Lo();
      Entry04Hi();
      m := 349;
    case 4 =>
      Entry05Lo();
      Entry05Hi();
      m := 439;
    case 5 =>
      Entry06Lo();
      Entry06Hi();
      m := 541;
    case 6 =>
      Entry07Lo();
      Entry07Hi();
      m := 631;
    case 7 =>
      Entry08Lo();
      Entry08Hi();
      m := 731;
    case 8 =>
      Entry09Lo();
      Entry09Hi();
      m := 827;
    case 9 =>
      Entry10Lo();
      Entry10Hi();
      m := 923;
    case 10 =>
      Entry11Lo();
      Entry11Hi();
      m := 1019;
    case 11 =>
      Entry12Lo();
      Entry12Hi();
      m := 1109;
    case 12 =>
      Entry13Lo();
      Entry13Hi();
      m := 1217;
    case 13 =>
      Entry14Lo();
      Entry14Hi();
      m := 1303;
    case 14 =>
      Entry15Lo();
      Entry15Hi();
      m := 1403;
    case 15 =>
      Entry16Lo();
      Entry16Hi();
      m := 1493;
    case 16 =>
      Entry17Lo();
      Entry17Hi();
      m := 1597;
    case 17 =>
      Entry18Lo();
      Entry18Hi();
      m := 1693;
    case 18 =>
      Entry19Lo();
      Entry19Hi();
      m := 1783;
    case 19 =>
      Entry20Lo();
      Entry20Hi();
      m := 1879;
    case 20 =>
      Entry21Lo();
      Entry21Hi();
      m := 1979;
    case 21 =>
      Entry22Lo();
      Entry22Hi();
      m := 2077;
    case 22 =>
      Entry23Lo();
      Entry23Hi();
      m := 2173;
    case _ =>
      Entry24Lo();
      Entry24Hi();
      m := 2269;
  }
}
