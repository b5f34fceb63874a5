/** Evaluating arithmetic and logical expressions given as a list of words. */
module Expr {
  import opened Wrappers

  // ---------- values ----------

  datatype Value = IntVal(i: int) | StrVal(s: string)

  predicate IsSpace(c: char) {
    c == ' ' || '\t' <= c <= '\r'
  }

  predicate AllDigits(s: string) {
    s != "" && forall i :: 0 <= i < |s| ==> '0' <= s[i] <= '9'
  }

  function DigitsValue(s: string): nat
    requires forall i :: 0 <= i < |s| ==> '0' <= s[i] <= '9'
  {
    if s == "" then 0 else 10 * DigitsValue(s[..|s| - 1]) + (s[|s| - 1] as int - '0' as int)
  }

  /** What C's `strtoll` makes of a whole string, blanks and a sign included; nothing if it stops early. */
  function ReadInt(s: string): Option<int> {
    if s != "" && IsSpace(s[0]) then ReadInt(s[1..])
    else if s != "" && s[0] == '-' then (if AllDigits(s[1..]) then Some(0 - DigitsValue(s[1..])) else None)
    else if s != "" && s[0] == '+' then (if AllDigits(s[1..]) then Some(DigitsValue(s[1..])) else None)
    else if AllDigits(s) then Some(DigitsValue(s)) else None
  }

  function Digits(n: nat): (s: string)
    ensures AllDigits(s) && DigitsValue(s) == n && (n > 0 ==> s[0] != '0') && (n < 10 ==> |s| == 1)
  {
    if n < 10 then [('0' as int + n) as char] else
    var d := Digits(n / 10) + [('0' as int + n % 10) as char];
    assert d[..|d| - 1] == Digits(n / 10);
    d
  }

  /** An integer as it is printed. */
  function Decimal(i: int): string {
    if i < 0 then "-" + Digits(-i) else Digits(i)
  }

  lemma ReadDecimal(i: int)
    ensures ReadInt(Decimal(i)) == Some(i)
  {
    if i < 0 { assert ("-" + Digits(-i))[1..] == Digits(-i); }
  }

  function ToInt(v: Value): Option<int> {
    match v
    case IntVal(i) => Some(i)
    case StrVal(s) => ReadInt(s)
  }

  function ToText(v: Value): string {
    match v
    case IntVal(i) => Decimal(i)
    case StrVal(s) => s
  }

  /** A number that is zero, or a string that is empty or a single zero. */
  predicate IsNull(v: Value) {
    match v
    case IntVal(i) => i == 0
    case StrVal(s) => s == "" || s == "0"
  }

  /** The sign of C's `strcmp`. */
  function CompareText(a: string, b: string): int {
    if a == "" && b == "" then 0
    else if a == "" then -1
    else if b == "" then 1
    else if a[0] != b[0] then a[0] as int - b[0] as int
    else CompareText(a[1..], b[1..])
  }

  // ---------- operators ----------

  datatype Op = Or | And | Lt | Le | Eq | EqEq | Ne | Ge | Gt | Add | Sub | Mul | Div | Mod

  /** How tightly an operator binds. */
  function Level(op: Op): (k: nat)
    ensures k < 5
  {
    match op
    case Or => 0
    case And => 1
    case Lt => 2
    case Le => 2
    case Eq => 2
    case EqEq => 2
    case Ne => 2
    case Ge => 2
    case Gt => 2
    case Add => 3
    case Sub => 3
    case _ => 4
  }

  function OpText(op: Op): string {
    match op
    case Or => "|"
    case And => "&"
    case Lt => "<"
    case Le => "<="
    case Eq => "="
    case EqEq => "=="
    case Ne => "!="
    case Ge => ">="
    case Gt => ">"
    case Add => "+"
    case Sub => "-"
    case Mul => "*"
    case Div => "/"
    case Mod => "%"
  }

  /** The operator of level `k` that a word stands for. */
  function OpOf(word: string, k: nat): (r: Option<Op>)
    ensures r.Some? ==> Level(r.value) == k
  {
    if k == 0 && word == "|" then Some(Or)
    else if k == 1 && word == "&" then Some(And)
    else if k == 2 && word == "<" then Some(Lt)
    else if k == 2 && word == "<=" then Some(Le)
    else if k == 2 && word == "=" then Some(Eq)
    else if k == 2 && word == "==" then Some(EqEq)
    else if k == 2 && word == "!=" then Some(Ne)
    else if k == 2 && word == ">=" then Some(Ge)
    else if k == 2 && word == ">" then Some(Gt)
    else if k == 3 && word == "+" then Some(Add)
    else if k == 3 && word == "-" then Some(Sub)
    else if k == 4 && word == "*" then Some(Mul)
    else if k == 4 && word == "/" then Some(Div)
    else if k == 4 && word == "%" then Some(Mod)
    else None
  }

  function Abs(a: int): nat {
    if a < 0 then -a else a
  }

  /** C's division, towards zero, and the remainder that goes with it. */
  function Quotient(a: int, b: int): int
    requires b != 0
  {
    var q: int := Abs(a) / Abs(b);
    if (a < 0) == (b < 0) then q else -q
  }

  function Truth(b: bool): int {
    if b then 1 else 0
  }

  /** What a comparison makes of the difference of its sides. */
  function Compared(op: Op, l: int, r: int): int {
    match op
    case Lt => Truth(l < r)
    case Le => Truth(l <= r)
    case Eq => Truth(l == r)
    case EqEq => Truth(l == r)
    case Ne => Truth(l != r)
    case Gt => Truth(l > r)
    case _ => Truth(l >= r)
  }

  function Arithmetic(op: Op, l: int, r: int): Option<int> {
    match op
    case Add => Some(l + r)
    case Sub => Some(l - r)
    case Mul => Some(l * r)
    case _ =>
      if r == 0 then None
      else Some(if op == Div then Quotient(l, r) else l - r * Quotient(l, r))
  }

  /** What an operator makes of two values; nothing if the program stops with an error. */
  function Apply(op: Op, l: Value, r: Value): Option<Value> {
    if op == Or then Some(if IsNull(l) then r else l)
    else if op == And then Some(if IsNull(l) || IsNull(r) then IntVal(0) else l)
    else if Level(op) == 2 then
      Some(IntVal(if ToInt(l).Some? && ToInt(r).Some? then Compared(op, ToInt(l).value, ToInt(r).value)
                  else Compared(op, CompareText(Coerced(l), Coerced(r)), 0)))
    else
      var a :- ToInt(l);
      var b :- ToInt(r);
      var v :- Arithmetic(op, a, b);
      Some(IntVal(v))
  }

  /** The text of a value after the attempt to make it a number. */
  function Coerced(v: Value): string {
    if ToInt(v).Some? then Decimal(ToInt(v).value) else ToText(v)
  }

  // ---------- the grammar as a function ----------

  datatype Outcome = Done(v: Value, pos: nat) | Died

  /** A word, or an expression in parentheses. */
  function Primary(args: seq<string>, pos: nat): (o: Outcome)
    ensures o.Done? ==> pos < o.pos <= |args|
    decreases |args| - pos, 0
  {
    if pos >= |args| then Died
    else if args[pos] == "(" then
      var o := Level0(args, pos + 1);
      if o.Done? && o.pos < |args| && args[o.pos] == ")" then Done(o.v, o.pos + 1) else Died
    else if args[pos] == ")" then Died
    else Done(StrVal(args[pos]), pos + 1)
  }

  function Level0(args: seq<string>, pos: nat): (o: Outcome)
    ensures o.Done? ==> pos < o.pos <= |args|
    decreases |args| - pos, 20
  {
    AtLevel(args, pos, 0)
  }

  /** Operands of the next level, and the operators of level `k` between them. */
  function AtLevel(args: seq<string>, pos: nat, k: nat): (o: Outcome)
    requires k <= 5
    ensures o.Done? ==> pos < o.pos <= |args|
    decreases |args| - pos, 10 - k
  {
    if k == 5 then Primary(args, pos) else
    var o := AtLevel(args, pos, k + 1);
    if o.Died? then Died else More(args, o.v, o.pos, k)
  }

  function More(args: seq<string>, l: Value, pos: nat, k: nat): (o: Outcome)
    requires k < 5
    ensures o.Done? ==> pos <= o.pos && (pos <= |args| ==> o.pos <= |args|)
    decreases |args| - pos, 0
  {
    if pos >= |args| || OpOf(args[pos], k).None? then Done(l, pos) else
    var o := AtLevel(args, pos + 1, k + 1);
    if o.Died? then Died else
    var v := Apply(OpOf(args[pos], k).value, l, o.v);
    if v.None? then Died else More(args, v.value, o.pos, k)
  }

  lemma LevelStart(args: seq<string>, pos: nat, k: nat)
    requires k < 5
    ensures var o := AtLevel(args, pos, k + 1);
            AtLevel(args, pos, k) == if o.Died? then Died else More(args, o.v, o.pos, k)
  {
    hide More, Primary;
  }

  lemma MoreStep(args: seq<string>, l: Value, pos: nat, k: nat)
    requires k < 5 && pos < |args| && OpOf(args[pos], k).Some?
    ensures var o := AtLevel(args, pos + 1, k + 1);
            More(args, l, pos, k)
              == if o.Died? then Died else
                 var v := Apply(OpOf(args[pos], k).value, l, o.v);
                 if v.None? then Died else More(args, v.value, o.pos, k)
  {
    hide AtLevel, Apply, OpOf;
  }

  lemma MoreEnds(args: seq<string>, l: Value, pos: nat, k: nat)
    requires k < 5 && (pos >= |args| || OpOf(args[pos], k).None?)
    ensures More(args, l, pos, k) == Done(l, pos)
  {}

  // ---------- the evaluator ----------

  class Evaluator {
    const args: seq<string>
    var pos: nat

    constructor (args: seq<string>)
      ensures this.args == args && pos == 0
    {
      this.args, pos := args, 0;
    }

    /** The outcome of a call: a value and how far the words have been used up, or nothing. */
    ghost predicate Gives(r: Option<Value>, o: Outcome)
      reads this`pos
    {
      if o.Done? then r == Some(o.v) && pos == o.pos else r == None
    }

    predicate NextArg(word: string)
      reads this`pos
    {
      pos < |args| && args[pos] == word
    }

    method Eval7() returns (r: Option<Value>)
      modifies this`pos
      ensures Gives(r, Primary(args, old(pos)))
      decreases |args| - pos, 0
    {
      if pos >= |args| {
        return None;
      }
      if NextArg("(") {
        pos := pos + 1;
        r := Eval();
        if r == None || !NextArg(")") {
          return None;
        }
        pos := pos + 1;
        return;
      }
      if NextArg(")") {
        return None;
      }
      r := Some(StrVal(args[pos]));
      pos := pos + 1;
    }

    /** Products, quotients and remainders. */
    method Eval4() returns (l: Option<Value>)
      modifies this`pos
      ensures Gives(l, AtLevel(args, old(pos), 4))
      decreases |args| - pos, 6
    {
      hide AtLevel, More, Primary, Apply, OpOf, IsNull;
      LevelStart(args, pos, 4);
      LevelFive(args, pos);
      l := Eval7();
      if l == None {
        return;
      }
      while pos < |args| && OpOf(args[pos], 4).Some?
        invariant l.Some? && old(pos) < pos
        invariant More(args, l.value, pos, 4) == AtLevel(args, old(pos), 4)
        decreases |args| - pos
      {
        MoreStep(args, l.value, pos, 4);
        LevelFive(args, pos + 1);
        var op := OpOf(args[pos], 4).value;
        pos := pos + 1;
        var r := Eval7();
        if r == None {
          return None;
        }
        var v := Apply(op, l.value, r.value);
        if v == None {
          return None;
        }
        l := v;
      }
      MoreEnds(args, l.value, pos, 4);
    }

    /** Sums and differences. */
    method Eval3() returns (l: Option<Value>)
      modifies this`pos
      ensures Gives(l, AtLevel(args, old(pos), 3))
      decreases |args| - pos, 7
    {
      hide AtLevel, More, Primary, Apply, OpOf, IsNull;
      LevelStart(args, pos, 3);
      l := Eval4();
      if l == None {
        return;
      }
      while pos < |args| && OpOf(args[pos], 3).Some?
        invariant l.Some? && old(pos) < pos
        invariant More(args, l.value, pos, 3) == AtLevel(args, old(pos), 3)
        decreases |args| - pos
      {
        MoreStep(args, l.value, pos, 3);
        var op := OpOf(args[pos], 3).value;
        pos := pos + 1;
        var r := Eval4();
        if r == None {
          return None;
        }
        var v := Apply(op, l.value, r.value);
        if v == None {
          return None;
        }
        l := v;
      }
      MoreEnds(args, l.value, pos, 3);
    }

    /** Comparisons. */
    method Eval2() returns (l: Option<Value>)
      modifies this`pos
      ensures Gives(l, AtLevel(args, old(pos), 2))
      decreases |args| - pos, 8
    {
      hide AtLevel, More, Primary, Apply, OpOf, IsNull;
      LevelStart(args, pos, 2);
      l := Eval3();
      if l == None {
        return;
      }
      while pos < |args| && OpOf(args[pos], 2).Some?
        invariant l.Some? && old(pos) < pos
        invariant More(args, l.value, pos, 2) == AtLevel(args, old(pos), 2)
        decreases |args| - pos
      {
        MoreStep(args, l.value, pos, 2);
        var op := OpOf(args[pos], 2).value;
        pos := pos + 1;
        var r := Eval3();
        if r == None {
          return None;
        }
        var v := Apply(op, l.value, r.value);
        if v == None {
          return None;
        }
        l := v;
      }
      MoreEnds(args, l.value, pos, 2);
    }

    method Eval1() returns (l: Option<Value>)
      modifies this`pos
      ensures Gives(l, AtLevel(args, old(pos), 1))
      decreases |args| - pos, 9
    {
      hide AtLevel, More, Primary;
      LevelStart(args, pos, 1);
      l := Eval2();
      if l == None {
        return;
      }
      while NextArg("&")
        invariant l.Some? && old(pos) < pos
        invariant More(args, l.value, pos, 1) == AtLevel(args, old(pos), 1)
        decreases |args| - pos
      {
        MoreStep(args, l.value, pos, 1);
        pos := pos + 1;
        var r := Eval2();
        if r == None {
          return None;
        }
        if IsNull(l.value) || IsNull(r.value) {
          l := Some(IntVal(0));
        }
      }
      MoreEnds(args, l.value, pos, 1);
    }

    method Eval() returns (l: Option<Value>)
      modifies this`pos
      ensures Gives(l, AtLevel(args, old(pos), 0))
      decreases |args| - pos, 10
    {
      hide AtLevel, More, Primary;
      LevelStart(args, pos, 0);
      l := Eval1();
      if l == None {
        return;
      }
      while NextArg("|")
        invariant l.Some? && old(pos) < pos
        invariant More(args, l.value, pos, 0) == AtLevel(args, old(pos), 0)
        decreases |args| - pos
      {
        MoreStep(args, l.value, pos, 0);
        pos := pos + 1;
        var r := Eval1();
        if r == None {
          return None;
        }
        if IsNull(l.value) {
          l := r;
        }
      }
      MoreEnds(args, l.value, pos, 0);
    }
  }

  // ---------- what operators mean ----------

  predicate Blank(c: char) {
    c in " \t\n\U{0B}\U{0C}\r"
  }

  predicate Blanks(s: string) {
    forall i :: 0 <= i < |s| ==> Blank(s[i])
  }

  lemma SpaceIs(c: char)
    ensures IsSpace(c) <==> Blank(c)
  {
    var blanks := " \t\n\U{0B}\U{0C}\r";
    assert forall i :: 0 <= i < 6 ==> IsSpace(blanks[i]);
    assert blanks[0] == ' ' && blanks[1] == '\t' && blanks[2] == '\n' && blanks[5] == '\r';
    assert blanks[3] as int == 11 && blanks[4] as int == 12;
  }

  /** Decimal digits, which may have a sign before them. */
  predicate NumeralFor(s: string, i: int) {
    || (AllDigits(s) && i == DigitsValue(s))
    || (s != "" && s[0] == '+' && AllDigits(s[1..]) && i == DigitsValue(s[1..]))
    || (s != "" && s[0] == '-' && AllDigits(s[1..]) && i == 0 - DigitsValue(s[1..]))
  }

  /** The text is a numeral for `i`, which may have blanks before it. */
  ghost predicate ReadsAs(s: string, i: int) {
    exists k: nat :: BlanksThenNumeral(s, k, i)
  }

  predicate BlanksThenNumeral(s: string, k: nat, i: int) {
    k <= |s| && Blanks(s[..k]) && NumeralFor(s[k..], i)
  }

  /** The text `a` comes before `b` in a dictionary. */
  ghost predicate Before(a: string, b: string) {
    exists k: nat :: SameUpTo(a, b, k) && k < |b| && (k == |a| || a[k] < b[k])
  }

  predicate SameUpTo(a: string, b: string, k: nat) {
    k <= |a| && k <= |b| && a[..k] == b[..k]
  }

  /** The quotient is the one whose remainder is smaller than the divisor and has the sign of the dividend. */
  predicate IsQuotient(l: int, r: int, q: int) {
    var m := l - q * r;
    r != 0 && (r > 0 ==> 0 - r < m < r) && (r < 0 ==> r < m < 0 - r) && (m == 0 || (m < 0 <==> l < 0))
  }

  /** What the operators of sums and products make of two integers; a division by zero makes nothing. */
  ghost predicate Makes(op: Op, l: int, r: int, v: int) {
    match op
    case Add => v == l + r
    case Sub => v == l - r
    case Mul => v == l * r
    case Div => IsQuotient(l, r, v)
    case Mod => exists q :: IsQuotient(l, r, q) && v == l - q * r
    case _ => false
  }

  predicate Comparison(op: Op) {
    op in {Lt, Le, Eq, EqEq, Ne, Ge, Gt}
  }

  /** Whether a comparison holds, of a left side that is less than the right one, equal to it, or neither. */
  predicate Compares(op: Op, less: bool, equal: bool) {
    match op
    case Lt => less
    case Le => less || equal
    case Eq => equal
    case EqEq => equal
    case Ne => !equal
    case Ge => !less
    case Gt => !less && !equal
    case _ => false
  }

  predicate Null(v: Value) {
    v == IntVal(0) || v == StrVal("") || v == StrVal("0")
  }

  ghost predicate Number(v: Value, i: int) {
    match v
    case IntVal(j) => i == j
    case StrVal(s) => ReadsAs(s, i)
  }

  ghost predicate Numeric(v: Value) {
    exists i :: Number(v, i)
  }

  /** The text of a value: a number without blanks and leading zeros, or the string itself. */
  ghost predicate Text(v: Value, s: string) {
    (forall i :: Number(v, i) ==> s == Decimal(i)) && (!Numeric(v) ==> v == StrVal(s))
  }

  /** The comparison of two values: of their numbers if both have one, and else of their texts. */
  ghost predicate Relates(op: Op, l: Value, r: Value) {
    || (exists i, j :: Number(l, i) && Number(r, j) && Compares(op, i < j, i == j))
    || (!(Numeric(l) && Numeric(r)) && exists a, b :: Text(l, a) && Text(r, b) && Compares(op, Before(a, b), a == b))
  }

  /** The value that an operator gives. */
  ghost predicate Result(op: Op, l: Value, r: Value, v: Value) {
    if op == Or then v == (if Null(l) then r else l)
    else if op == And then v == (if Null(l) || Null(r) then IntVal(0) else l)
    else if Comparison(op) then v == IntVal(if Relates(op, l, r) then 1 else 0)
    else exists i, j, k :: Number(l, i) && Number(r, j) && Makes(op, i, j, k) && v == IntVal(k)
  }

  lemma {:induction false} ReadIntIs(s: string, i: int)
    ensures ReadInt(s) == Some(i) <==> ReadsAs(s, i)
  {
    hide DigitsValue, Blank;
    if s != "" { SpaceIs(s[0]); }
    if s != "" && IsSpace(s[0]) {
      ReadIntIs(s[1..], i);
      if ReadsAs(s[1..], i) {
        var k: nat :| BlanksThenNumeral(s[1..], k, i);
        BlanksFrom(s, k);
        assert BlanksThenNumeral(s, k + 1, i);
      }
      if ReadsAs(s, i) {
        var k: nat :| BlanksThenNumeral(s, k, i);
        assert s[0..] == s;
        assert k > 0;
        BlanksFrom(s, k - 1);
        assert BlanksThenNumeral(s[1..], k - 1, i);
      }
    } else {
      if ReadsAs(s, i) {
        var k: nat :| BlanksThenNumeral(s, k, i);
        FirstBlank(s, k);
        assert s[0..] == s;
      }
      if ReadInt(s) == Some(i) {
        assert s[0..] == s;
        assert BlanksThenNumeral(s, 0, i);
      }
    }
  }

  lemma FirstBlank(s: string, k: nat)
    requires k <= |s| && Blanks(s[..k])
    ensures k > 0 ==> Blank(s[0])
  {
    if k > 0 { assert s[..k][0] == s[0]; }
  }

  lemma BlanksFrom(s: string, k: nat)
    requires s != "" && k < |s|
    ensures Blanks(s[..k + 1]) <==> Blank(s[0]) && Blanks(s[1..][..k])
    ensures s[1..][k..] == s[k + 1..]
  {
    hide Blank;
    assert s[..k + 1] == [s[0]] + s[1..][..k];
    BlanksAppend(s[0], s[1..][..k]);
  }

  lemma BlanksAppend(c: char, t: string)
    ensures Blanks([c] + t) <==> Blank(c) && Blanks(t)
  {
    hide Blank;
    if Blanks([c] + t) {
      assert ([c] + t)[0] == c;
      assert forall i :: 0 <= i < |t| ==> t[i] == ([c] + t)[i + 1];
    }
  }

  lemma NumberIs(v: Value, i: int)
    ensures Number(v, i) <==> ToInt(v) == Some(i)
  {
    if v.StrVal? { ReadIntIs(v.s, i); }
  }

  lemma NumericIs(v: Value)
    ensures Numeric(v) <==> ToInt(v).Some?
    ensures Numeric(v) ==> Number(v, ToInt(v).value)
  {
    hide Number;
    if Numeric(v) {
      var i :| Number(v, i);
      NumberIs(v, i);
    }
    if ToInt(v).Some? { NumberIs(v, ToInt(v).value); }
  }

  lemma TextIs(v: Value, s: string)
    ensures Text(v, s) <==> s == Coerced(v)
  {
    hide Number, Decimal, Numeric;
    NumericIs(v);
    forall i
      ensures Number(v, i) <==> ToInt(v) == Some(i)
    {
      NumberIs(v, i);
    }
  }

  /** The comparison of texts is the order of a dictionary. */
  lemma {:induction false} CompareTextIs(a: string, b: string)
    ensures CompareText(a, b) < 0 <==> Before(a, b)
    ensures CompareText(a, b) == 0 <==> a == b
    decreases |a|
  {
    if a != "" && b != "" && a[0] == b[0] {
      CompareTextIs(a[1..], b[1..]);
      BeforeTail(a, b);
      assert a == [a[0]] + a[1..] && b == [b[0]] + b[1..];
    } else {
      if Before(a, b) {
        var k: nat :| SameUpTo(a, b, k) && k < |b| && (k == |a| || a[k] < b[k]);
        SameFirst(a, b, k);
      }
      if CompareText(a, b) < 0 { assert SameUpTo(a, b, 0); }
    }
  }

  lemma SameFirst(a: string, b: string, k: nat)
    requires SameUpTo(a, b, k)
    ensures k > 0 ==> a[0] == b[0]
  {
    if k > 0 { assert a[0] == a[..k][0] && b[0] == b[..k][0]; }
  }

  lemma BeforeTail(a: string, b: string)
    requires a != "" && b != "" && a[0] == b[0]
    ensures Before(a, b) <==> Before(a[1..], b[1..])
  {
    if Before(a, b) {
      var k: nat :| SameUpTo(a, b, k) && k < |b| && (k == |a| || a[k] < b[k]);
      assert k > 0;
      assert a[1..][..k - 1] == a[..k][1..] && b[1..][..k - 1] == b[..k][1..];
      assert SameUpTo(a[1..], b[1..], k - 1);
    }
    if Before(a[1..], b[1..]) {
      var k: nat :| SameUpTo(a[1..], b[1..], k) && k < |b| - 1 && (k == |a| - 1 || a[1..][k] < b[1..][k]);
      assert a[..k + 1] == [a[0]] + a[1..][..k] && b[..k + 1] == [b[0]] + b[1..][..k];
      assert SameUpTo(a, b, k + 1);
    }
  }

  lemma ComparedIs(op: Op, l: int, r: int)
    requires Comparison(op)
    ensures Compared(op, l, r) == if Compares(op, l < r, l == r) then 1 else 0
  {}

  lemma QuotientIs(l: int, r: int)
    requires r != 0
    ensures IsQuotient(l, r, Quotient(l, r))
  {
    hide IsQuotient;
    DivFacts(Abs(l), Abs(r));
    Signed(l, r, Abs(l) / Abs(r), Abs(l) % Abs(r));
  }

  lemma DivFacts(n: nat, d: nat)
    requires d > 0
    ensures n == n / d * d + n % d && n % d < d
  {}

  lemma Signed(l: int, r: int, q: nat, m: nat)
    requires r != 0 && m < Abs(r) && Abs(l) == q * Abs(r) + m
    ensures IsQuotient(l, r, if (l < 0) == (r < 0) then q else 0 - q)
  {
    hide IsQuotient;
    Signs(q, r);
    Signs(q, Abs(r));
    Remains(l, r, if (l < 0) == (r < 0) then q else 0 - q, q * Abs(r), m);
  }

  lemma Remains(l: int, r: int, q: int, x: int, m: int)
    requires r != 0 && 0 <= m < Abs(r) && Abs(l) == x + m && q * r == if l < 0 then 0 - x else x
    ensures IsQuotient(l, r, q)
  {}

  lemma Signs(q: int, r: int)
    ensures (0 - q) * r == 0 - q * r && q * (0 - r) == 0 - q * r
  {}

  lemma OneQuotient(l: int, r: int, p: int, q: int)
    requires IsQuotient(l, r, p) && IsQuotient(l, r, q)
    ensures p == q
  {
    var d := p - q;
    assert d * r == (l - q * r) - (l - p * r);
    if d > 0 { OneStep(d, r); } else if d < 0 { OneStep(0 - d, r); Signs(d, r); }
  }

  lemma OneStep(d: int, r: int)
    requires d > 0
    ensures r >= 0 ==> d * r >= r
    ensures r <= 0 ==> d * r <= r
  {}

  lemma ArithmeticIs(op: Op, l: int, r: int, v: int)
    requires Level(op) >= 3
    ensures Arithmetic(op, l, r) == Some(v) <==> Makes(op, l, r, v)
  {
    hide IsQuotient, Quotient;
    if r != 0 {
      QuotientIs(l, r);
      forall q | IsQuotient(l, r, q)
        ensures q == Quotient(l, r)
      {
        OneQuotient(l, r, q, Quotient(l, r));
      }
    } else {
      assert forall q :: !IsQuotient(l, r, q) by { NoQuotient(l); }
    }
  }

  lemma NoQuotient(l: int)
    ensures forall q :: !IsQuotient(l, 0, q)
  {}

  lemma RelatesIs(op: Op, l: Value, r: Value)
    requires Comparison(op)
    ensures Apply(op, l, r) == Some(IntVal(if Relates(op, l, r) then 1 else 0))
  {
    hide Number, Text, Compares, Compared, CompareText, Before, Coerced, ToInt;
    assert Level(op) == 2 && op != Or && op != And;
    NumericIs(l);
    NumericIs(r);
    if Numeric(l) && Numeric(r) {
      var x, y := ToInt(l).value, ToInt(r).value;
      ComparedIs(op, x, y);
      forall i, j | Number(l, i) && Number(r, j)
        ensures i == x && j == y
      {
        NumberIs(l, i);
        NumberIs(r, j);
      }
    } else {
      var a, b := Coerced(l), Coerced(r);
      TextIs(l, a);
      TextIs(r, b);
      CompareTextIs(a, b);
      ComparedIs(op, CompareText(a, b), 0);
      forall s, t | Text(l, s) && Text(r, t)
        ensures s == a && t == b
      {
        TextIs(l, s);
        TextIs(r, t);
      }
      assert Text(l, a) && Text(r, b);
      assert Relates(op, l, r) <==> Compares(op, Before(a, b), a == b);
    }
  }

  /** What the program makes of two values is what the operator gives. */
  lemma ApplyIs(op: Op, l: Value, r: Value, v: Value)
    ensures Apply(op, l, r) == Some(v) <==> Result(op, l, r, v)
  {
    hide Number, Relates, Makes, Arithmetic, ToInt, Compared, CompareText, Coerced;
    if Comparison(op) {
      RelatesIs(op, l, r);
    } else if op != Or && op != And {
      assert Level(op) >= 3;
      NumericIs(l);
      NumericIs(r);
      if Result(op, l, r, v) {
        var i, j, k :| Number(l, i) && Number(r, j) && Makes(op, i, j, k) && v == IntVal(k);
        NumberIs(l, i);
        NumberIs(r, j);
        ArithmeticIs(op, i, j, k);
      }
      if Apply(op, l, r) == Some(v) {
        ArithmeticIs(op, ToInt(l).value, ToInt(r).value, v.i);
      }
    }
  }

  // ---------- expressions and how they are written ----------

  datatype Tree = Word(s: string) | Bin(op: Op, l: Tree, r: Tree)

  /** No operand is a parenthesis. */
  predicate Proper(t: Tree) {
    match t
    case Word(s) => s != "(" && s != ")"
    case Bin(op, l, r) => Proper(l) && Proper(r)
  }

  function Prec(t: Tree): (k: nat)
    ensures k <= 5
  {
    if t.Word? then 5 else Level(t.op)
  }

  /** A tree as words, with no more parentheses than an operand of level `k` needs. */
  function Words(t: Tree, k: nat): seq<string>
    decreases t, 1
  {
    if Prec(t) < k then ["("] + Bare(t) + [")"] else Bare(t)
  }

  function Bare(t: Tree): seq<string>
    decreases t, 0
  {
    match t
    case Word(s) => [s]
    case Bin(op, l, r) => Words(l, Level(op)) + [OpText(op)] + Words(r, Level(op) + 1)
  }

  /** The value of a tree as the program finds it; nothing if it stops with an error. */
  function Meaning(t: Tree): Option<Value> {
    match t
    case Word(s) => Some(StrVal(s))
    case Bin(op, l, r) =>
      var a :- Meaning(l);
      var b :- Meaning(r);
      Apply(op, a, b)
  }

  /** A tree has the value `v`. */
  ghost predicate Denotes(t: Tree, v: Value) {
    match t
    case Word(s) => v == StrVal(s)
    case Bin(op, l, r) => exists a, b :: Denotes(l, a) && Denotes(r, b) && Result(op, a, b, v)
  }

  lemma {:induction false} MeaningIs(t: Tree, v: Value)
    ensures Meaning(t) == Some(v) <==> Denotes(t, v)
  {
    hide Apply, Result;
    if t.Bin? {
      if Denotes(t, v) {
        var a, b :| Denotes(t.l, a) && Denotes(t.r, b) && Result(t.op, a, b, v);
        MeaningIs(t.l, a);
        MeaningIs(t.r, b);
        ApplyIs(t.op, a, b, v);
      }
      if Meaning(t) == Some(v) {
        var a, b := Meaning(t.l).value, Meaning(t.r).value;
        MeaningIs(t.l, a);
        MeaningIs(t.r, b);
        ApplyIs(t.op, a, b, v);
      }
    }
  }

  // ---------- expressions of integers ----------

  /** All operands are integers as they are printed. */
  ghost predicate OfIntegers(t: Tree) {
    match t
    case Word(s) => exists i :: s == Decimal(i)
    case Bin(op, l, r) => OfIntegers(l) && OfIntegers(r)
  }

  /** A tree stands for the integer `v`. */
  ghost predicate IntMeaning(t: Tree, v: int) {
    match t
    case Word(s) => s == Decimal(v)
    case Bin(op, l, r) => exists a, b :: IntMeaning(l, a) && IntMeaning(r, b) && IntResult(op, a, b, v)
  }

  /** What an operator makes of two integers. */
  ghost predicate IntResult(op: Op, a: int, b: int, v: int) {
    if op == Or then v == (if a != 0 then a else b)
    else if op == And then v == (if a != 0 && b != 0 then a else 0)
    else if Comparison(op) then v == (if Compares(op, a < b, a == b) then 1 else 0)
    else Makes(op, a, b, v)
  }

  /** A value that is the integer `i`, or its text. */
  predicate Stands(v: Value, i: int) {
    v == IntVal(i) || v == StrVal(Decimal(i))
  }

  lemma StandsFor(v: Value, i: int)
    requires Stands(v, i)
    ensures ToInt(v) == Some(i) && (IsNull(v) <==> i == 0)
  {
    ReadDecimal(i);
    ReadZero();
    if i == 0 { assert Digits(0) == ['0']; }
  }

  lemma ReadZero()
    ensures ReadInt("") == None && ReadInt("0") == Some(0)
  {
    assert "0"[..0] == "";
  }

  lemma IntApply(op: Op, l: Value, i: int, r: Value, j: int)
    requires Stands(l, i) && Stands(r, j)
    ensures var w := Apply(op, l, r);
            && (w.Some? ==> exists v :: IntResult(op, i, j, v) && Stands(w.value, v))
            && (forall v :: IntResult(op, i, j, v) ==> w.Some? && Stands(w.value, v))
  {
    hide Decimal, ReadInt, IsNull, Arithmetic, Compared, CompareText, Makes, Compares, ToInt;
    StandsFor(l, i);
    StandsFor(r, j);
    if Comparison(op) {
      ComparedIs(op, i, j);
      assert IntResult(op, i, j, Compared(op, i, j));
    } else if op == Or {
      assert IntResult(op, i, j, if i != 0 then i else j);
    } else if op == And {
      assert IntResult(op, i, j, if i != 0 && j != 0 then i else 0);
    } else {
      assert Level(op) >= 3;
      forall v
        ensures Arithmetic(op, i, j) == Some(v) <==> Makes(op, i, j, v)
      {
        ArithmeticIs(op, i, j, v);
      }
      if Arithmetic(op, i, j).Some? { assert IntResult(op, i, j, Arithmetic(op, i, j).value); }
    }
  }

  /** What the program finds is the integer meaning, and it stops with an error exactly where that has none. */
  lemma {:induction false} MeaningIsInt(t: Tree)
    requires OfIntegers(t)
    ensures Meaning(t).Some? ==> exists v :: IntMeaning(t, v) && Stands(Meaning(t).value, v)
    ensures forall v :: IntMeaning(t, v) ==> Meaning(t).Some? && Stands(Meaning(t).value, v)
  {
    hide Decimal, Apply, IntResult;
    if t.Word? {
      var i :| t.s == Decimal(i);
      assert IntMeaning(t, i) && Stands(Meaning(t).value, i);
      forall v | IntMeaning(t, v)
        ensures v == i
      {
        ReadDecimal(v);
        ReadDecimal(i);
      }
    } else {
      MeaningIsInt(t.l);
      MeaningIsInt(t.r);
      if Meaning(t.l).Some? && Meaning(t.r).Some? {
        var a, b := Meaning(t.l).value, Meaning(t.r).value;
        var i :| IntMeaning(t.l, i) && Stands(a, i);
        var j :| IntMeaning(t.r, j) && Stands(b, j);
        IntApply(t.op, a, i, b, j);
        if Meaning(t).Some? {
          var v :| IntResult(t.op, i, j, v) && Stands(Meaning(t).value, v);
          assert IntMeaning(t, v);
        }
      }
      forall v | IntMeaning(t, v)
        ensures Meaning(t).Some? && Stands(Meaning(t).value, v)
      {
        var i, j :| IntMeaning(t.l, i) && IntMeaning(t.r, j) && IntResult(t.op, i, j, v);
        IntApply(t.op, Meaning(t.l).value, i, Meaning(t.r).value, j);
      }
    }
  }

  // ---------- evaluating what is written ----------

  predicate Has(args: seq<string>, pos: nat, ws: seq<string>) {
    pos + |ws| <= |args| && args[pos..pos + |ws|] == ws
  }

  lemma HasConcat(args: seq<string>, pos: nat, a: seq<string>, b: seq<string>)
    requires Has(args, pos, a + b)
    ensures Has(args, pos, a) && Has(args, pos + |a|, b)
  {
    assert args[pos..pos + |a|] == args[pos..pos + |a + b|][..|a|] == a;
    assert args[pos + |a|..pos + |a| + |b|] == args[pos..pos + |a + b|][|a|..] == b;
  }

  lemma HasOne(args: seq<string>, pos: nat, w: string)
    requires Has(args, pos, [w])
    ensures pos < |args| && args[pos] == w
  {
    assert args[pos..pos + 1][0] == args[pos];
  }

  /** No operator of level `k` or tighter comes next. */
  predicate StopsAt(args: seq<string>, pos: nat, k: nat) {
    pos >= |args| || forall j :: k <= j < 5 ==> OpOf(args[pos], j).None?
  }

  /** The operand `m` has been read up to `pos`, and level `k` goes on from there. */
  function GoesOn(args: seq<string>, m: Option<Value>, pos: nat, k: nat): Outcome
    requires k <= 5
  {
    if m.None? then Died else if k == 5 then Done(m.value, pos) else More(args, m.value, pos, k)
  }

  lemma GoesOnStops(args: seq<string>, m: Option<Value>, pos: nat, k: nat)
    requires k <= 5 && StopsAt(args, pos, k)
    ensures GoesOn(args, m, pos, k) == if m.None? then Died else Done(m.value, pos)
  {}

  lemma OpWord(op: Op, k: nat)
    ensures OpOf(OpText(op), Level(op)) == Some(op)
    ensures k != Level(op) ==> OpOf(OpText(op), k).None?
  {}

  lemma LiteralWord(i: int)
    ensures Decimal(i) != "(" && Decimal(i) != ")"
  {
    if i < 0 { assert Decimal(i)[0] == '-'; }
  }

  lemma ParenStops(args: seq<string>, pos: nat, k: nat)
    requires pos < |args| && args[pos] == ")"
    ensures StopsAt(args, pos, k)
  {}

  /** Reading a written tree at level `k` gives its value, and goes on behind it. */
  lemma {:induction false} ReadsTree(t: Tree, k: nat, args: seq<string>, pos: nat)
    requires k <= 5 && Proper(t) && Has(args, pos, Words(t, k)) && StopsAt(args, pos + |Words(t, k)|, k + 1)
    ensures AtLevel(args, pos, k) == GoesOn(args, Meaning(t), pos + |Words(t, k)|, k)
    decreases t, if Prec(t) < k then 1 else 0, 5 - k
  {
    hide AtLevel, More, Primary, GoesOn, StopsAt, Has, Apply, OpOf, OpText, Level;
    var end := pos + |Words(t, k)|;
    if k == 5 {
      if t.Word? { ReadsWord(t.s, args, pos); } else {
        var body := Bare(t);
        ParenBody(t, args, pos);
        ReadsTree(t, 0, args, pos + 1);
        ReadsParen(args, pos, pos + 1 + |body|, Meaning(t));
      }
    } else if Prec(t) != k {
      MoreStops(args, end, k + 1);
      ReadsTree(t, k + 1, args, pos);
      LevelUp(args, pos, k, Meaning(t), end);
    } else {
      BinParts(t, args, pos);
      var p := pos + |Words(t.l, k)|;
      ReadsTree(t.l, k, args, pos);
      MoreStops(args, end, k + 1);
      ReadsTree(t.r, k + 1, args, p + 1);
      OneOperator(args, t.op, Meaning(t.l), p, Meaning(t.r), end, k);
      BinMeaning(t);
    }
  }

  lemma BinMeaning(t: Tree)
    requires t.Bin?
    ensures Meaning(t) == if Meaning(t.l).None? || Meaning(t.r).None? then None
                          else Apply(t.op, Meaning(t.l).value, Meaning(t.r).value)
  {}

  lemma MoreStops(args: seq<string>, pos: nat, k: nat)
    requires StopsAt(args, pos, k)
    ensures StopsAt(args, pos, k + 1)
  {}

  lemma ReadsWord(w: string, args: seq<string>, pos: nat)
    requires w != "(" && w != ")" && Has(args, pos, Words(Word(w), 5))
    ensures AtLevel(args, pos, 5) == GoesOn(args, Meaning(Word(w)), pos + |Words(Word(w), 5)|, 5)
  {
    assert Words(Word(w), 5) == Bare(Word(w)) == [w];
    HasOne(args, pos, w);
    LevelFive(args, pos);
  }

  /** The body of a parenthesised tree, between its parentheses. */
  lemma ParenBody(t: Tree, args: seq<string>, pos: nat)
    requires t.Bin? && Has(args, pos, Words(t, 5))
    ensures var e := pos + 1 + |Bare(t)|;
            && Words(t, 0) == Bare(t) && |Words(t, 5)| == |Bare(t)| + 2
            && pos < |args| && args[pos] == "(" && e < |args| && args[e] == ")"
            && Has(args, pos + 1, Words(t, 0)) && StopsAt(args, e, 1) && StopsAt(args, e, 0)
  {
    var body := Bare(t);
    hide Has, StopsAt, Bare;
    HasConcat(args, pos, ["("] + body, [")"]);
    HasConcat(args, pos, ["("], body);
    HasOne(args, pos, "(");
    HasOne(args, pos + 1 + |body|, ")");
    ParenStops(args, pos + 1 + |body|, 0);
    ParenStops(args, pos + 1 + |body|, 1);
  }

  lemma ReadsParen(args: seq<string>, pos: nat, e: nat, m: Option<Value>)
    requires pos < |args| && args[pos] == "(" && pos + 1 < e < |args| && args[e] == ")" && StopsAt(args, e, 0)
    requires AtLevel(args, pos + 1, 0) == GoesOn(args, m, e, 0)
    ensures AtLevel(args, pos, 5) == GoesOn(args, m, e + 1, 5)
  {
    GoesOnStops(args, m, e, 0);
    hide AtLevel, GoesOn, StopsAt;
    LevelFive(args, pos);
    FiveGoesOn(args, m, e + 1);
    assert Level0(args, pos + 1) == AtLevel(args, pos + 1, 0);
  }

  lemma LevelFive(args: seq<string>, pos: nat)
    ensures AtLevel(args, pos, 5) == Primary(args, pos)
  {}

  lemma FiveGoesOn(args: seq<string>, m: Option<Value>, pos: nat)
    ensures GoesOn(args, m, pos, 5) == if m.None? then Died else Done(m.value, pos)
  {}

  lemma LevelUp(args: seq<string>, pos: nat, k: nat, m: Option<Value>, end: nat)
    requires k < 5 && StopsAt(args, end, k + 1) && AtLevel(args, pos, k + 1) == GoesOn(args, m, end, k + 1)
    ensures AtLevel(args, pos, k) == GoesOn(args, m, end, k)
  {
    GoesOnStops(args, m, end, k + 1);
    hide StopsAt, Primary, OpOf;
  }

  lemma BinWords(t: Tree)
    requires t.Bin?
    ensures var k := Level(t.op);
            Words(t, k) == Words(t.l, k) + [OpText(t.op)] + Words(t.r, k + 1)
  {
    hide OpText, Level, Words, Bare;
    NoParentheses(t, Prec(t));
    BareParts(t);
  }

  lemma NoParentheses(t: Tree, k: nat)
    requires k <= Prec(t)
    ensures Words(t, k) == Bare(t)
  {
    hide Bare, Prec;
  }

  lemma BareParts(t: Tree)
    requires t.Bin?
    ensures Bare(t) == Words(t.l, Level(t.op)) + [OpText(t.op)] + Words(t.r, Level(t.op) + 1)
  {
    hide Words, OpText, Level;
  }

  /** The parts of a tree written without parentheses. */
  lemma BinParts(t: Tree, args: seq<string>, pos: nat)
    requires t.Bin? && Has(args, pos, Words(t, Level(t.op)))
    ensures var k := Level(t.op);
            var p := pos + |Words(t.l, k)|;
            && |Words(t, k)| == |Words(t.l, k)| + 1 + |Words(t.r, k + 1)|
            && Has(args, pos, Words(t.l, k)) && p < |args| && args[p] == OpText(t.op)
            && Has(args, p + 1, Words(t.r, k + 1)) && StopsAt(args, p, k + 1)
  {
    hide Has, StopsAt, Words, OpText, OpOf, Level;
    var k := Level(t.op);
    var a, w, b := Words(t.l, k), OpText(t.op), Words(t.r, k + 1);
    BinWords(t);
    HasConcat(args, pos, a + [w], b);
    HasConcat(args, pos, a, [w]);
    HasOne(args, pos + |a|, w);
    NextLevel(args, pos + |a|, t.op);
  }

  lemma NextLevel(args: seq<string>, p: nat, op: Op)
    requires p < |args| && args[p] == OpText(op)
    ensures StopsAt(args, p, Level(op) + 1)
  {
    hide OpOf, OpText;
    forall j: nat | Level(op) < j < 5
      ensures OpOf(args[p], j).None?
    {
      OpWord(op, j);
    }
  }

  lemma OneOperator(args: seq<string>, op: Op, a: Option<Value>, p: nat, b: Option<Value>, end: nat, k: nat)
    requires k < 5 && Level(op) == k && p < |args| && args[p] == OpText(op) && StopsAt(args, end, k + 1)
    requires AtLevel(args, p + 1, k + 1) == GoesOn(args, b, end, k + 1)
    ensures GoesOn(args, a, p, k)
         == GoesOn(args, if a.None? || b.None? then None else Apply(op, a.value, b.value), end, k)
  {
    OpWord(op, k);
    GoesOnStops(args, b, end, k + 1);
    hide OpOf, OpText, Apply, StopsAt, AtLevel;
  }

  /** Evaluates all the words; more words than the expression needs are an error. */
  method ExprMain(args: seq<string>) returns (r: Option<Value>)
    ensures var o := AtLevel(args, 0, 0); r == if o.Done? && o.pos == |args| then Some(o.v) else None
  {
    var e := new Evaluator(args);
    r := e.Eval();
    if e.pos < |args| {
      r := None;
    }
  }

  /**
   * Every expression, written with only the parentheses it needs, is read completely, and evaluates to
   * the value it denotes; the program stops with an error exactly if it denotes none.
   */
  lemma EvaluatesTree(t: Tree)
    requires Proper(t)
    ensures var o := AtLevel(Words(t, 0), 0, 0);
            && (o.Done? ==> o.pos == |Words(t, 0)| && Denotes(t, o.v))
            && (forall v :: Denotes(t, v) ==> o.Done? && o.v == v)
  {
    hide AtLevel, GoesOn, Words, Meaning, Denotes;
    var args := Words(t, 0);
    assert args[0..0 + |args|] == args;
    ReadsTree(t, 0, args, 0);
    GoesOnStops(args, Meaning(t), |args|, 0);
    forall v
      ensures Meaning(t) == Some(v) <==> Denotes(t, v)
    {
      MeaningIs(t, v);
    }
  }

  /** An expression of integers evaluates to the integer it stands for. */
  lemma EvaluatesIntegers(t: Tree)
    requires OfIntegers(t)
    ensures var o := AtLevel(Words(t, 0), 0, 0);
            && (o.Done? ==> o.pos == |Words(t, 0)| && exists v :: IntMeaning(t, v) && Stands(o.v, v))
            && (forall v :: IntMeaning(t, v) ==> o.Done? && Stands(o.v, v))
  {
    hide AtLevel, GoesOn, Words, Meaning, IntMeaning, Stands, OfIntegers;
    var args := Words(t, 0);
    assert args[0..0 + |args|] == args;
    IntegersProper(t);
    MeaningIsInt(t);
    ReadsTree(t, 0, args, 0);
    GoesOnStops(args, Meaning(t), |args|, 0);
  }

  lemma {:induction false} IntegersProper(t: Tree)
    requires OfIntegers(t)
    ensures Proper(t)
  {
    hide Decimal;
    if t.Word? {
      var i :| t.s == Decimal(i);
      LiteralWord(i);
    } else {
      IntegersProper(t.l);
      IntegersProper(t.r);
    }
  }

  /** The words that are operators, and no others. */
  lemma OperatorWords(w: string, k: nat, op: Op)
    ensures OpOf(w, k) == Some(op) <==> w == OpText(op) && k == Level(op)
  {
    OpWord(op, k);
  }
}
