/** Lines of dependencies as a control file has them: how they are split and read, and written again. */
module DependencyLines {
  import opened Wrappers
  import opened DebVersion

  /** One alternative of a clause; without a relation the version is `ANY`. */
  datatype Alternative = Alternative(name: string, rel: Relation, version: string)

  /** A clause as it is read; `rooted` says whether its text has a bar. */
  datatype Field = Field(rooted: bool, alts: seq<Alternative>)

  /** The first place from `i` on that holds none of the characters `cs`. */
  function Span(s: string, i: nat, cs: string): (r: nat)
    requires i <= |s|
    ensures i <= r <= |s|
    decreases |s| - i
  {
    if i < |s| && s[i] in cs then Span(s, i + 1, cs) else i
  }

  /** The first place from `i` on that holds one of the characters `cs`. */
  function Until(s: string, i: nat, cs: string): (r: nat)
    requires i <= |s|
    ensures i <= r <= |s|
    decreases |s| - i
  {
    if i < |s| && s[i] !in cs then Until(s, i + 1, cs) else i
  }

  predicate Free(s: string, cs: string) {
    forall i :: 0 <= i < |s| ==> s[i] !in cs
  }

  lemma {:induction false} SpanIs(s: string, i: nat, r: nat, cs: string)
    requires i <= r <= |s| && (forall k :: i <= k < r ==> s[k] in cs) && (r < |s| ==> s[r] !in cs)
    ensures Span(s, i, cs) == r
    decreases r - i
  {
    if i < r { SpanIs(s, i + 1, r, cs); }
  }

  lemma {:induction false} UntilIs(s: string, i: nat, r: nat, cs: string)
    requires i <= r <= |s| && (forall k :: i <= k < r ==> s[k] !in cs) && (r < |s| ==> s[r] in cs)
    ensures Until(s, i, cs) == r
    decreases r - i
  {
    if i < r { UntilIs(s, i + 1, r, cs); }
  }

  lemma {:induction false} UntilFacts(s: string, i: nat, cs: string)
    requires i <= |s|
    ensures var r := Until(s, i, cs);
            (forall k :: i <= k < r ==> s[k] !in cs) && (r < |s| ==> s[r] in cs)
    decreases |s| - i
  {
    if i < |s| && s[i] !in cs { UntilFacts(s, i + 1, cs); }
  }

  /** The non-empty parts between the separators. */
  function Pieces(s: string, sep: char): seq<string>
    decreases |s|
  {
    var b := Span(s, 0, [sep]);
    if b == |s| then [] else
    var e := Until(s, b, [sep]);
    [s[b..e]] + if e < |s| then Pieces(s[e + 1..], sep) else []
  }

  lemma OnePiece(a: string, sep: char)
    requires a != "" && Free(a, [sep])
    ensures Pieces(a, sep) == [a]
  {
    SpanIs(a, 0, 0, [sep]);
    UntilIs(a, 0, |a|, [sep]);
    assert a[0..|a|] == a;
  }

  lemma FirstPiece(a: string, rest: string, sep: char)
    requires a != "" && Free(a, [sep])
    ensures Pieces(a + [sep] + rest, sep) == [a] + Pieces(rest, sep)
  {
    var s := a + [sep] + rest;
    SpanIs(s, 0, 0, [sep]);
    UntilIs(s, 0, |a|, [sep]);
    assert s[0..|a|] == a && s[|a| + 1..] == rest;
  }

  // ---------- reading ----------

  /** The relation an operator stands for; a single `<` or `>` is read as the double one. */
  function Operator(op: string): Option<Relation> {
    if op == "=" then Some(VerEqual)
    else if op == "<" || op == "<<" then Some(VerLess)
    else if op == "<=" then Some(VerLessEqual)
    else if op == ">" || op == ">>" then Some(VerMore)
    else if op == ">=" then Some(VerMoreEqual)
    else None
  }

  /** The text without the spaces before it. */
  function Trimmed(piece: string): string {
    piece[Span(piece, 0, " ")..]
  }

  /** Reads an alternative; nothing if its operator is illegal. */
  function ReadAlternative(q: string): Option<Alternative> {
    var name := q[..Until(q, 0, " (")];
    var v := Until(q, 0, "(");
    if v == |q| then Some(Alternative(name, VerAny, "ANY")) else
    var w := Span(q, v, " (");
    var o := Span(q, w, "<=>");
    var x := Span(q, o, " ");
    var rel :- Operator(q[w..o]);
    Some(Alternative(name, rel, q[x..Until(q, x, " )")]))
  }

  function ReadAlternatives(pieces: seq<string>): Option<seq<Alternative>> {
    if pieces == [] then Some([]) else
    var a :- ReadAlternative(Trimmed(pieces[0]));
    var rest :- ReadAlternatives(pieces[1..]);
    Some([a] + rest)
  }

  /** There is something between the bars of a clause. */
  predicate FieldOk(piece: string) {
    Pieces(Trimmed(piece), '|') != []
  }

  function ReadField(piece: string): Option<Field>
    requires FieldOk(piece)
  {
    var ps := Pieces(Trimmed(piece), '|');
    var alts :- ReadAlternatives(ps);
    Some(Field(Trimmed(piece) != ps[0], alts))
  }

  function ReadFields(pieces: seq<string>): Option<seq<Field>>
    requires forall i :: 0 <= i < |pieces| ==> FieldOk(pieces[i])
  {
    if pieces == [] then Some([]) else
    var f :- ReadField(pieces[0]);
    var rest :- ReadFields(pieces[1..]);
    Some([f] + rest)
  }

  /** There is something between the commas of a line. */
  predicate LineOk(line: string) {
    var ps := Pieces(line, ',');
    ps != [] && forall i :: 0 <= i < |ps| ==> FieldOk(ps[i])
  }

  /** Reads a line of dependencies. */
  function ReadLine(line: string): Option<seq<Field>>
    requires LineOk(line)
  {
    ReadFields(Pieces(line, ','))
  }

  lemma {:induction false} SpanShift(s: string, n: nat, i: nat, cs: string)
    requires n + i <= |s|
    ensures Span(s[n..], i, cs) + n == Span(s, n + i, cs)
    decreases |s| - i
  {
    if n + i < |s| && s[n + i] in cs { SpanShift(s, n, i + 1, cs); }
  }

  lemma {:induction false} UntilShift(s: string, n: nat, i: nat, cs: string)
    requires n + i <= |s|
    ensures Until(s[n..], i, cs) + n == Until(s, n + i, cs)
    decreases |s| - i
  {
    if n + i < |s| && s[n + i] !in cs { UntilShift(s, n, i + 1, cs); }
  }

  /** The pieces from `pos` on. */
  lemma {:induction false} PiecesFrom(s: string, pos: nat, sep: char)
    requires pos <= |s|
    ensures var b := Span(s, pos, [sep]);
            var e := Until(s, b, [sep]);
            Pieces(s[pos..], sep)
              == if b == |s| then [] else [s[b..e]] + if e < |s| then Pieces(s[e + 1..], sep) else []
  {
    hide Span, Until, Pieces;
    var r, b := s[pos..], Span(s, pos, [sep]);
    SpanShift(s, pos, 0, [sep]);
    PiecesIs(r, sep);
    if b < |s| {
      var e := Until(s, b, [sep]);
      UntilShift(s, pos, b - pos, [sep]);
      assert r[b - pos..e - pos] == s[b..e];
      if e < |s| { assert r[e - pos + 1..] == s[e + 1..]; }
    }
  }

  lemma {:induction false} PiecesIs(s: string, sep: char)
    ensures var b := Span(s, 0, [sep]);
            var e := Until(s, b, [sep]);
            Pieces(s, sep) == if b == |s| then [] else [s[b..e]] + if e < |s| then Pieces(s[e + 1..], sep) else []
  {
    hide Span, Until;
  }

  /** The next part from `pos` on, and the place from which to look for the one after it. */
  method NextPiece(s: text, pos: nat, sep: char) returns (piece: Option<text>, next: nat)
    requires pos <= |s|
    ensures pos <= next <= |s| && (piece.Some? ==> pos < next)
    ensures Pieces(s[pos..], sep) == if piece.Some? then [piece.value] + Pieces(s[next..], sep) else []
  {
    hide Span, Until, Pieces;
    PiecesFrom(s, pos, sep);
    var b := Span(s, pos, [sep]);
    if b == |s| {
      return None, |s|;
    }
    var e := Until(s, b, [sep]);
    SpanStops(s, pos, [sep]);
    SomePiece(s, b, sep);
    next := e;
    if e < |s| {
      next := e + 1;
    } else {
      NoPieces(sep);
      assert s[e..] == "";
    }
    piece := Some(s[b..e]);
  }

  lemma NoPieces(sep: char)
    ensures Pieces("", sep) == []
  {}

  lemma SomePiece(s: string, pos: nat, sep: char)
    requires pos < |s| && s[pos] !in [sep]
    ensures Until(s, pos, [sep]) > pos
  {}

  /** Without a bar there is one alternative. */
  lemma FieldShape(piece: string)
    requires FieldOk(piece) && ReadField(piece).Some?
    ensures var f := ReadField(piece).value;
            f.alts != [] && (f.rooted || |f.alts| == 1)
  {
    hide ReadAlternative, Trimmed;
    var q := Trimmed(piece);
    var ps := Pieces(q, '|');
    ReadCount(ps);
    if q == ps[0] {
      FirstFree(q, '|');
      OnePiece(q, '|');
    }
  }

  lemma {:induction false} ReadCount(pieces: seq<string>)
    ensures ReadAlternatives(pieces).Some? ==> |ReadAlternatives(pieces).value| == |pieces|
  {
    hide ReadAlternative, Trimmed;
    if pieces != [] { ReadCount(pieces[1..]); }
  }

  lemma FirstFree(s: string, sep: char)
    requires Pieces(s, sep) != []
    ensures Pieces(s, sep)[0] != "" && Free(Pieces(s, sep)[0], [sep])
  {
    var b := Span(s, 0, [sep]);
    SpanStops(s, 0, [sep]);
    UntilFacts(s, b, [sep]);
    assert Until(s, b, [sep]) > b;
  }

  lemma {:induction false} SpanStops(s: string, i: nat, cs: string)
    requires i <= |s|
    ensures Span(s, i, cs) < |s| ==> s[Span(s, i, cs)] !in cs
    decreases |s| - i
  {
    if i < |s| && s[i] in cs { SpanStops(s, i + 1, cs); }
  }

  // ---------- characters ----------

  predicate Ascii(s: string) {
    forall i :: 0 <= i < |s| ==> '\0' < s[i] < '\U{80}'
  }

  predicate AllAscii(alts: seq<Alternative>) {
    forall i :: 0 <= i < |alts| ==> Ascii(alts[i].name) && Ascii(alts[i].version)
  }

  lemma {:induction false} PiecesAscii(s: string, sep: char)
    requires Ascii(s)
    ensures forall i :: 0 <= i < |Pieces(s, sep)| ==> Ascii(Pieces(s, sep)[i])
    decreases |s|
  {
    hide Span, Until;
    var b := Span(s, 0, [sep]);
    var e := Until(s, b, [sep]);
    if b < |s| && e < |s| { PiecesAscii(s[e + 1..], sep); }
  }

  lemma {:induction false} AlternativesAscii(pieces: seq<string>)
    requires forall i :: 0 <= i < |pieces| ==> Ascii(pieces[i])
    ensures ReadAlternatives(pieces).Some? ==> AllAscii(ReadAlternatives(pieces).value)
  {
    if pieces != [] {
      AlternativeAscii(Trimmed(pieces[0]));
      AlternativesAscii(pieces[1..]);
      hide ReadAlternative, Trimmed;
    }
  }

  lemma AlternativeAscii(q: string)
    requires Ascii(q)
    ensures var a := ReadAlternative(q);
            a.Some? ==> Ascii(a.value.name) && Ascii(a.value.version)
  {
    hide Span, Until, Operator;
  }

  lemma FieldAscii(piece: string)
    requires Ascii(piece) && FieldOk(piece)
    ensures ReadField(piece).Some? ==> AllAscii(ReadField(piece).value.alts)
  {
    hide Pieces, ReadAlternatives, AllAscii, Span;
    PiecesAscii(Trimmed(piece), '|');
    AlternativesAscii(Pieces(Trimmed(piece), '|'));
  }

  // ---------- writing ----------

  function Symbol(rel: Relation): string {
    match rel
    case VerAny => ""
    case VerEqual => "="
    case VerLess => "<<"
    case VerLessEqual => "<="
    case VerMore => ">>"
    case VerMoreEqual => ">="
  }

  /** Names and versions that can be written. */
  predicate Writable(a: Alternative) {
    && a.name != "" && Free(a.name, " (,|") && Free(a.version, " ),|")
    && (a.rel == VerAny ==> a.version == "ANY")
  }

  function Show(a: Alternative): string {
    if a.rel == VerAny then a.name else a.name + " (" + Symbol(a.rel) + " " + a.version + ")"
  }

  function ShowClause(alts: seq<Alternative>): string
    requires alts != []
  {
    if |alts| == 1 then Show(alts[0]) else Show(alts[0]) + " | " + ShowClause(alts[1..])
  }

  predicate AllWritable(alts: seq<Alternative>) {
    alts != [] && forall i :: 0 <= i < |alts| ==> Writable(alts[i])
  }

  function ShowLine(clauses: seq<seq<Alternative>>): string
    requires clauses != [] && forall i :: 0 <= i < |clauses| ==> clauses[i] != []
  {
    if |clauses| == 1 then ShowClause(clauses[0]) else ShowClause(clauses[0]) + ", " + ShowLine(clauses[1..])
  }

  // ---------- reading what was written ----------

  /** Any number of spaces. */
  predicate Blank(s: string) {
    forall i :: 0 <= i < |s| ==> s[i] == ' '
  }

  lemma Unpadded(pad: string, s: string)
    requires Blank(pad) && s != "" && s[0] != ' '
    ensures Span(pad + s, 0, " ") == |pad| && (pad + s)[|pad|..] == s
  {
    SpanIs(pad + s, 0, |pad|, " ");
  }

  lemma ShowStarts(a: Alternative)
    requires Writable(a)
    ensures Show(a) != "" && Show(a)[0] != ' ' && Free(Show(a), ",|")
  {
    assert Free(Symbol(a.rel), ",|");
  }

  lemma ReadNamed(a: Alternative, q: string, tail: string)
    requires Writable(a) && Blank(tail) && q == a.name + tail
    ensures Until(q, 0, " (") == |a.name| && Until(q, 0, "(") == |q| && q[..|a.name|] == a.name
  {
    forall k | 0 <= k < |a.name|
      ensures q[k] !in " (" && q[k] !in "("
    {
      assert q[k] == a.name[k];
    }
    UntilIs(q, 0, |a.name|, " (");
    UntilIs(q, 0, |q|, "(");
  }

  /** An alternative is read as it was written. */
  lemma ReadShown(a: Alternative, tail: string)
    requires Writable(a) && Blank(tail)
    ensures ReadAlternative(Show(a) + tail) == Some(a)
  {
    var q := Show(a) + tail;
    hide Span, Until, Operator, Writable, Show, WithOperator;
    if a.rel == VerAny {
      ShowNamed(a);
      ReadNamed(a, q, tail);
      NoVersion(a);
    } else {
      SymbolFacts(a.rel);
      PlainSpacing(a, tail);
      ReadRelation(a.name, Symbol(a.rel), a.version, PLAIN.(close := ")" + tail), q);
    }
  }

  lemma PlainSpacing(a: Alternative, tail: string)
    requires Writable(a) && a.rel != VerAny
    ensures NameText(a.name) && VersionText(a.version) && SpacingOk(PLAIN.(close := ")" + tail), a.version)
    ensures WithOperator(a.name, Symbol(a.rel), a.version, PLAIN.(close := ")" + tail)) == Show(a) + tail
  {
    assert "(" + "" == "(";
    var ver: string, close: string := a.version, ")" + tail;
    assert (ver + close)[0] == if ver == "" then ')' else ver[0];
    assert (" " + (ver + close))[0] == ' ';
  }

  lemma ShowNamed(a: Alternative)
    requires a.rel == VerAny
    ensures Show(a) == a.name
  {}

  lemma NoVersion(a: Alternative)
    requires Writable(a) && a.rel == VerAny
    ensures a == Alternative(a.name, VerAny, "ANY")
  {}

  /** The spaces between the parts of a relation, and what comes behind it. */
  datatype Spacing = Spacing(before: string, inside: string, after: string, close: string)

  const PLAIN: Spacing := Spacing(" ", "", " ", ")")

  /** A relation from its opening bracket on. */
  function AtBracket(op: string, ver: string, sp: Spacing): string {
    ("(" + sp.inside) + (op + (sp.after + (ver + sp.close)))
  }

  /** A name with an operator and a version behind it. */
  function WithOperator(name: string, op: string, ver: string, sp: Spacing): string {
    name + (sp.before + AtBracket(op, ver, sp))
  }

  predicate AllIn(s: string, cs: string) {
    forall k :: 0 <= k < |s| ==> s[k] in cs
  }

  predicate IsOperator(op: string) {
    op != "" && AllIn(op, "<=>")
  }

  predicate NameText(s: string) {
    Free(s, " (,|")
  }

  predicate VersionText(s: string) {
    Free(s, " ),|")
  }

  /** The name is read, and the bracket found at `v`. */
  predicate Named(q: string, name: string, v: nat) {
    && v < |q| && |name| <= |q| && q[..|name|] == name && Until(q, 0, " (") == |name| && Until(q, 0, "(") == v
  }

  /** The text starts with none of these characters. */
  predicate StartsOutside(s: string, cs: string) {
    s != "" && s[0] !in cs
  }

  predicate SpacingOk(sp: Spacing, ver: string) {
    && AllIn(sp.before, " ") && AllIn(sp.inside, " (") && AllIn(sp.after, " ")
    && sp.close != "" && sp.close[0] in " )" && StartsOutside(ver + sp.close, " ")
    && StartsOutside(sp.after + (ver + sp.close), "<=>")
  }

  /** Where the parts of a written relation stand. */
  lemma ReadRelation(name: string, op: string, ver: string, sp: Spacing, q: string)
    requires NameText(name) && VersionText(ver) && IsOperator(op) && SpacingOk(sp, ver)
    requires q == WithOperator(name, op, ver, sp)
    ensures var v := |name| + |sp.before|;
            var w := v + 1 + |sp.inside|;
            var o := w + |op|;
            var x := o + |sp.after|;
            Named(q, name, v) && Located(q, v, w, o, x, x + |ver|, op, ver)
  {
    hide *;
    SpacesBefore(sp, ver);
    BeforeBracket(name, op, ver, sp, q);
    AfterBracket(op, ver, sp, q, |name| + |sp.before|);
  }

  lemma SpacesBefore(sp: Spacing, ver: string)
    requires SpacingOk(sp, ver)
    ensures AllIn(sp.before, " ")
  {}

  lemma BeforeBracket(name: string, op: string, ver: string, sp: Spacing, q: string)
    requires NameText(name) && AllIn(sp.before, " ") && q == WithOperator(name, op, ver, sp)
    ensures var v := |name| + |sp.before|;
            v <= |q| && Named(q, name, v) && q[v..] == AtBracket(op, ver, sp)
  {
    var rest := AtBracket(op, ver, sp);
    assert rest != "" && rest[0] == '(';
    if sp.before != "" { assert sp.before[0] in " "; }
    hide Span, Until, AtBracket;
    assert q[0..] == name + (sp.before + rest) && q[0..] == (name + sp.before) + rest;
    UntilNext(q, 0, name, sp.before + rest, " (");
    UntilNext(q, 0, name + sp.before, rest, "(");
  }

  /** What each part is made of, and what the next one starts with. */
  lemma PartsAfter(op: string, ver: string, sp: Spacing)
    requires VersionText(ver) && IsOperator(op) && SpacingOk(sp, ver)
    ensures AllIn("(" + sp.inside, " (") && StartsOutside(op + (sp.after + (ver + sp.close)), " (")
    ensures AllIn(op, "<=>") && StartsOutside(sp.after + (ver + sp.close), "<=>")
    ensures AllIn(sp.after, " ") && StartsOutside(ver + sp.close, " ")
    ensures Free(ver, " )") && sp.close != "" && sp.close[0] in " )"
  {
    OperatorStarts(op, sp.after + (ver + sp.close));
  }

  lemma OperatorStarts(op: string, rest: string)
    requires IsOperator(op)
    ensures StartsOutside(op + rest, " (") && AllIn(op, "<=>")
  {
    assert op[0] in "<=>" && (op + rest)[0] == op[0];
  }

  lemma AfterBracket(op: string, ver: string, sp: Spacing, q: string, v: nat)
    requires VersionText(ver) && IsOperator(op) && SpacingOk(sp, ver) && v <= |q| && q[v..] == AtBracket(op, ver, sp)
    ensures var w := v + 1 + |sp.inside|;
            var o := w + |op|;
            var x := o + |sp.after|;
            Located(q, v, w, o, x, x + |ver|, op, ver)
  {
    hide Span, Until, SpacingOk, IsOperator, Free, AllIn, StartsOutside;
    var w := v + 1 + |sp.inside|;
    var o := w + |op|;
    var x := o + |sp.after|;
    PartsAfter(op, ver, sp);
    SpanNext(q, v, "(" + sp.inside, op + (sp.after + (ver + sp.close)), " (");
    SpanNext(q, w, op, sp.after + (ver + sp.close), "<=>");
    SpanNext(q, o, sp.after, ver + sp.close, " ");
    UntilNext(q, x, ver, sp.close, " )");
  }

  /** What reading finds: the operator from `w` to `o` and the version from `x` to `y`. */
  predicate Located(q: string, v: nat, w: nat, o: nat, x: nat, y: nat, op: string, ver: string) {
    && v <= w <= o <= x <= y < |q| && q[w..o] == op && q[x..y] == ver && Span(q, v, " (") == w
    && Span(q, w, "<=>") == o && Span(q, o, " ") == x && Until(q, x, " )") == y
  }

  lemma SpanNext(q: string, i: nat, b: string, c: string, cs: string)
    requires i <= |q| && q[i..] == b + c && AllIn(b, cs) && StartsOutside(c, cs)
    ensures var j := i + |b|;
            j < |q| && Span(q, i, cs) == j && q[i..j] == b && q[j..] == c
  {
    var j := i + |b|;
    NextPart(q, i, b, c);
    forall k | i <= k < j
      ensures q[k] in cs
    {
      assert q[i..j][k - i] == q[k];
    }
    SpanIs(q, i, j, cs);
  }

  lemma UntilNext(q: string, i: nat, b: string, c: string, cs: string)
    requires i <= |q| && q[i..] == b + c && Free(b, cs) && c != "" && c[0] in cs
    ensures var j := i + |b|;
            j < |q| && Until(q, i, cs) == j && q[i..j] == b && q[j..] == c
  {
    var j := i + |b|;
    NextPart(q, i, b, c);
    forall k | i <= k < j
      ensures q[k] !in cs
    {
      assert q[i..j][k - i] == q[k];
    }
    UntilIs(q, i, j, cs);
  }

  lemma NextPart(q: string, i: nat, b: string, c: string)
    requires i <= |q| && q[i..] == b + c
    ensures var j := i + |b|;
            j <= |q| && q[i..j] == b && q[j..] == c && (c != "" ==> j < |q| && q[j] == c[0])
  {
    var j := i + |b|;
    assert q[i..][..|b|] == q[i..j] && q[i..][|b|..] == q[j..];
    if c != "" { assert q[j..][0] == q[j]; }
  }

  /** Every operator, and what it is read as: a single `<` or `>` is strict; any other one is illegal. */
  lemma OperatorsRead(name: string, op: string, ver: string, sp: Spacing)
    requires NameText(name) && VersionText(ver) && IsOperator(op) && SpacingOk(sp, ver)
    ensures var a := ReadAlternative(WithOperator(name, op, ver, sp));
            && (op == "=" ==> a == Some(Alternative(name, VerEqual, ver)))
            && (op in ["<", "<<"] ==> a == Some(Alternative(name, VerLess, ver)))
            && (op == "<=" ==> a == Some(Alternative(name, VerLessEqual, ver)))
            && (op in [">", ">>"] ==> a == Some(Alternative(name, VerMore, ver)))
            && (op == ">=" ==> a == Some(Alternative(name, VerMoreEqual, ver)))
            && (op !in ["=", "<", "<<", "<=", ">", ">>", ">="] ==> a == None)
  {
    hide Span, Until, WithOperator, IsOperator, SpacingOk, Free;
    ReadRelation(name, op, ver, sp, WithOperator(name, op, ver, sp));
  }

  lemma SymbolFacts(rel: Relation)
    requires rel != VerAny
    ensures IsOperator(Symbol(rel)) && Operator(Symbol(rel)) == Some(rel)
  {}

  // ---------- whole lines ----------

  lemma ShowFree(alts: seq<Alternative>)
    requires AllWritable(alts)
    ensures ShowClause(alts) != "" && ShowClause(alts)[0] != ' ' && Free(ShowClause(alts), ",")
    decreases |alts|
  {
    ShowStarts(alts[0]);
    hide Show, Writable;
    if |alts| > 1 { ShowFree(alts[1..]); }
  }

  lemma OneRead(a: Alternative, pad: string, tail: string)
    requires Writable(a) && Blank(pad) && Blank(tail)
    ensures var p := pad + Show(a) + tail;
            p != "" && Free(p, "|") && ReadAlternative(Trimmed(p)) == Some(a)
  {
    ShowStarts(a);
    hide Show, Writable, ReadAlternative, Span;
    assert pad + Show(a) + tail == pad + (Show(a) + tail);
    Unpadded(pad, Show(a) + tail);
    ReadShown(a, tail);
    PaddedFree(pad, Show(a), tail);
  }

  lemma PaddedFree(pad: string, s: string, tail: string)
    requires Blank(pad) && Blank(tail) && Free(s, ",|")
    ensures Free(pad + s + tail, "|") && Free(pad + s + tail, ",")
  {
    var p := pad + s + tail;
    forall i | 0 <= i < |p|
      ensures p[i] != '|' && p[i] != ','
    {
      if |pad| <= i < |pad| + |s| { assert p[i] == s[i - |pad|]; }
    }
  }

  /** The alternatives of a clause are read as they were written. */
  lemma {:induction false} ReadClause(pad: string, alts: seq<Alternative>)
    requires Blank(pad) && AllWritable(alts)
    ensures var ps := Pieces(pad + ShowClause(alts), '|');
            && ps != [] && ReadAlternatives(ps) == Some(alts)
            && (ps[0] == pad + ShowClause(alts) <==> |alts| == 1)
    decreases |alts|
  {
    hide Show, Writable, ReadAlternative, Trimmed, Pieces;
    var a := alts[0];
    if |alts| == 1 {
      OneRead(a, pad, "");
      assert pad + Show(a) + "" == pad + ShowClause(alts);
      OnePiece(pad + ShowClause(alts), '|');
      OnlyOne(pad + ShowClause(alts));
      assert alts == [a];
    } else {
      var rest, first := alts[1..], pad + Show(a) + " ";
      OneRead(a, pad, " ");
      ReadClause(" ", rest);
      FirstPiece(first, " " + ShowClause(rest), '|');
      assert pad + ShowClause(alts) == first + ['|'] + (" " + ShowClause(rest));
      assert alts == [a] + rest;
      var ps := Pieces(pad + ShowClause(alts), '|');
      assert ps[1..] == Pieces(" " + ShowClause(rest), '|');
    }
  }

  lemma OnlyOne(p: string)
    ensures var a := ReadAlternative(Trimmed(p));
            a.Some? ==> ReadAlternatives([p]) == Some([a.value])
  {
    hide ReadAlternative, Trimmed;
    assert [p][1..] == [];
    var a := ReadAlternative(Trimmed(p));
    if a.Some? { assert [a.value] + [] == [a.value]; }
  }

  /** What a line of these clauses is read as. */
  function Fields(clauses: seq<seq<Alternative>>): (fs: seq<Field>)
    ensures |fs| == |clauses| && forall i :: 0 <= i < |fs| ==> fs[i] == Field(|clauses[i]| > 1, clauses[i])
  {
    seq(|clauses|, i requires 0 <= i < |clauses| => Field(|clauses[i]| > 1, clauses[i]))
  }

  lemma ReadShownField(pad: string, alts: seq<Alternative>)
    requires Blank(pad) && AllWritable(alts)
    ensures FieldOk(pad + ShowClause(alts)) && ReadField(pad + ShowClause(alts)) == Some(Field(|alts| > 1, alts))
    ensures pad + ShowClause(alts) != "" && Free(pad + ShowClause(alts), ",")
  {
    ShowFree(alts);
    Unpadded(pad, ShowClause(alts));
    hide ShowClause, AllWritable, ReadAlternatives, Pieces, Span, Writable, Blank;
    ReadClause("", alts);
    assert "" + ShowClause(alts) == ShowClause(alts);
  }

  predicate ClausesWritable(clauses: seq<seq<Alternative>>) {
    clauses != [] && forall i :: 0 <= i < |clauses| ==> AllWritable(clauses[i])
  }

  lemma {:induction false} ReadShownLine(pad: string, clauses: seq<seq<Alternative>>)
    requires Blank(pad) && ClausesWritable(clauses)
    ensures LineOk(pad + ShowLine(clauses)) && ReadLine(pad + ShowLine(clauses)) == Some(Fields(clauses))
    decreases |clauses|
  {
    hide ReadField, FieldOk, ShowClause, Writable, Pieces;
    var c := clauses[0];
    ReadShownField(pad, c);
    if |clauses| == 1 {
      OnePiece(pad + ShowClause(c), ',');
      MoreFields(pad + ShowClause(c), []);
      assert Fields(clauses) == [Field(|c| > 1, c)] + [];
      assert [pad + ShowClause(c)] + [] == [pad + ShowClause(c)];
    } else {
      var rest := clauses[1..];
      ReadShownLine(" ", rest);
      FirstPiece(pad + ShowClause(c), " " + ShowLine(rest), ',');
      assert pad + ShowLine(clauses) == pad + ShowClause(c) + [','] + (" " + ShowLine(rest));
      assert Fields(clauses) == [Field(|c| > 1, c)] + Fields(rest);
      MoreFields(pad + ShowClause(c), Pieces(" " + ShowLine(rest), ','));
    }
  }

  lemma MoreFields(p: string, ps: seq<string>)
    requires FieldOk(p) && forall i :: 0 <= i < |ps| ==> FieldOk(ps[i])
    ensures var f, r := ReadField(p), ReadFields(ps);
            && (forall i :: 0 <= i < |[p] + ps| ==> FieldOk(([p] + ps)[i]))
            && (f.Some? && r.Some? ==> ReadFields([p] + ps) == Some([f.value] + r.value))
  {
    hide ReadField, FieldOk;
    assert ([p] + ps)[1..] == ps;
  }

  /** A line of clauses is read as it was written. */
  lemma LineRoundTrip(clauses: seq<seq<Alternative>>)
    requires ClausesWritable(clauses)
    ensures LineOk(ShowLine(clauses)) && ReadLine(ShowLine(clauses)) == Some(Fields(clauses))
  {
    hide LineOk, ReadLine, ShowLine;
    ReadShownLine("", clauses);
    assert "" + ShowLine(clauses) == ShowLine(clauses);
  }
}
