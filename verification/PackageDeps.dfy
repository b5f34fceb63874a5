/** Dependencies between packages: how clauses are stored as a flat list of edges, and when they are all satisfied. */
module PackageDeps {
  import opened Wrappers
  import opened Primes
  import opened DebVersion
  import opened NameTable
  import opened DependencyLines

  /** One entry of a package's list of edges. */
  datatype Edge =
    | OrRoot(pre: bool, count: nat)                                      // `count` alternatives follow
    | Depends(pre: bool, name: text, rel: Relation, version: text)
    | Provides(name: text)
    | Another

  datatype Node = Node(name: text, version: text, edges: seq<Edge>)

  datatype Flags = Flags(wanted: bool, installed: bool)

  // ---------- clauses and edges ----------

  /** A dependency clause with its alternatives, or an edge that is no dependency. */
  datatype Segment = Clause(pre: bool, rooted: bool, alts: seq<Edge>) | Single(e: Edge) {
    predicate Ok() {
      match this
      case Clause(pre, rooted, alts) =>
        && alts != [] && (rooted || |alts| == 1)
        && forall i :: 0 <= i < |alts| ==> alts[i].Depends? && alts[i].pre == pre
      case Single(e) => e.Provides? || e.Another?
    }

    /** The edges that stand for it. */
    function Flat(): (r: seq<Edge>)
      requires Ok()
      ensures r != []
    {
      match this
      case Clause(pre, rooted, alts) => if rooted then [OrRoot(pre, |alts|)] + alts else alts
      case Single(e) => [e]
    }
  }

  predicate AllOk(segs: seq<Segment>) {
    forall i :: 0 <= i < |segs| ==> segs[i].Ok()
  }

  function FlatAll(segs: seq<Segment>): seq<Edge>
    requires AllOk(segs)
  {
    if segs == [] then [] else FlatAll(segs[..|segs| - 1]) + segs[|segs| - 1].Flat()
  }

  lemma FlatSnoc(segs: seq<Segment>, s: Segment)
    requires AllOk(segs) && s.Ok()
    ensures AllOk(segs + [s]) && FlatAll(segs + [s]) == FlatAll(segs) + s.Flat()
  {
    assert (segs + [s])[..|segs|] == segs;
  }

  lemma NoEdges()
    ensures AllOk([]) && FlatAll([]) == []
  {}

  lemma AppendAll<T>(a: seq<T>, b: seq<T>, c: seq<T>)
    ensures a + b + c == a + (b + c)
  {}

  /** Where the edges of segment `m` stand. */
  lemma {:induction false} FlatAt(segs: seq<Segment>, m: nat, i: nat)
    requires AllOk(segs) && m < |segs|
    ensures |FlatAll(segs[..m])| + |segs[m].Flat()| <= |FlatAll(segs)|
    ensures i < |segs[m].Flat()| ==> FlatAll(segs)[|FlatAll(segs[..m])| + i] == segs[m].Flat()[i]
    decreases |segs|
  {
    hide Segment.Flat, Segment.Ok;
    var front := segs[..|segs| - 1];
    if m < |segs| - 1 {
      assert front[..m] == segs[..m];
      FlatAt(front, m, i);
    }
  }

  lemma FirstEdge(segs: seq<Segment>, m: nat)
    requires AllOk(segs) && m < |segs|
    ensures var s := segs[m];
            |FlatAll(segs[..m])| < |FlatAll(segs)| && FlatAll(segs)[|FlatAll(segs[..m])|]
              == (if s.Single? then s.e else if s.rooted then OrRoot(s.pre, |s.alts|) else s.alts[0])
  {
    hide FlatAll;
    FlatAt(segs, m, 0);
  }

  lemma NextAlternative(segs: seq<Segment>, m: nat, k: nat)
    requires AllOk(segs) && m < |segs| && segs[m].Clause? && k < |segs[m].alts| && segs[m].rooted
    ensures |FlatAll(segs[..m])| + 1 + k < |FlatAll(segs)|
    ensures FlatAll(segs)[|FlatAll(segs[..m])| + 1 + k] == segs[m].alts[k]
  {
    hide FlatAll;
    FlatAt(segs, m, k + 1);
  }

  lemma {:induction false} FlatConcat(a: seq<Segment>, b: seq<Segment>)
    requires AllOk(a) && AllOk(b)
    ensures AllOk(a + b) && FlatAll(a + b) == FlatAll(a) + FlatAll(b)
  {
    hide Segment.Ok, Segment.Flat;
    if b == [] {
      assert a + b == a;
    } else {
      var front, s := b[..|b| - 1], b[|b| - 1];
      assert a + b == a + front + [s];
      FlatConcat(a, front);
      FlatSnoc(a + front, s);
      AppendAll(FlatAll(a), FlatAll(front), s.Flat());
    }
  }

  // ---------- from the lines of a control file to edges ----------

  /** The lines of a package that name other packages. */
  datatype Kind = PreDependsLine | DependsLine | ProvidesLine | OtherLine {
    predicate Dependency() {
      PreDependsLine? || DependsLine?
    }
  }

  function ToEdge(kind: Kind, a: Alternative): (e: Edge)
    requires Ascii(a.name) && Ascii(a.version)
    ensures kind.Dependency() ==> e.Depends? && e.pre == kind.PreDependsLine?
    ensures !kind.Dependency() ==> e.Provides? || e.Another?
  {
    match kind
    case PreDependsLine => Depends(true, a.name, a.rel, a.version)
    case DependsLine => Depends(false, a.name, a.rel, a.version)
    case ProvidesLine => Provides(a.name)
    case OtherLine => Another
  }

  function ToEdges(kind: Kind, alts: seq<Alternative>): (es: seq<Edge>)
    requires AllAscii(alts)
    ensures |es| == |alts| && forall i :: 0 <= i < |es| ==> es[i] == ToEdge(kind, alts[i])
  {
    seq(|alts|, i requires 0 <= i < |alts| => ToEdge(kind, alts[i]))
  }

  /** A field that has been read. */
  predicate FieldRead(f: Field) {
    AllAscii(f.alts) && f.alts != [] && (f.rooted || |f.alts| == 1)
  }

  predicate FieldsRead(fs: seq<Field>) {
    forall i :: 0 <= i < |fs| ==> FieldRead(fs[i])
  }

  function Singles(es: seq<Edge>): (segs: seq<Segment>)
    ensures |segs| == |es| && forall i :: 0 <= i < |es| ==> segs[i] == Single(es[i])
  {
    seq(|es|, i requires 0 <= i < |es| => Single(es[i]))
  }

  /** What a field stands for. */
  function FieldSegments(kind: Kind, f: Field): (segs: seq<Segment>)
    requires FieldRead(f)
    ensures AllOk(segs)
  {
    if kind.Dependency() then [Clause(kind.PreDependsLine?, f.rooted, ToEdges(kind, f.alts))]
    else Singles(ToEdges(kind, f.alts))
  }

  /** What the fields of a line stand for. */
  function LineSegments(kind: Kind, fs: seq<Field>): (segs: seq<Segment>)
    requires FieldsRead(fs)
    ensures AllOk(segs)
  {
    if fs == [] then [] else FieldSegments(kind, fs[0]) + LineSegments(kind, fs[1..])
  }

  lemma {:induction false} FlatSingles(es: seq<Edge>)
    requires forall i :: 0 <= i < |es| ==> es[i].Provides? || es[i].Another?
    ensures AllOk(Singles(es)) && FlatAll(Singles(es)) == es
  {
    if es != [] {
      var front := es[..|es| - 1];
      FlatSingles(front);
      assert Singles(es)[..|es| - 1] == Singles(front);
    }
  }

  /** The edges of a field: its alternatives, after their root if its text has a bar. */
  lemma FlatField(kind: Kind, f: Field)
    requires FieldRead(f)
    ensures FlatAll(FieldSegments(kind, f))
         == (if kind.Dependency() && f.rooted then [OrRoot(kind.PreDependsLine?, |f.alts|)] else [])
            + ToEdges(kind, f.alts)
  {
    hide FlatAll, ToEdges, AllAscii, AllOk;
    var es := ToEdges(kind, f.alts);
    if kind.Dependency() {
      FlatOne(Clause(kind.PreDependsLine?, f.rooted, es));
    } else {
      FlatSingles(es);
      assert [] + es == es;
    }
  }

  lemma FlatOne(s: Segment)
    requires s.Ok()
    ensures AllOk([s]) && FlatAll([s]) == s.Flat()
  {
    hide Segment.Flat, Segment.Ok;
    NoEdges();
    FlatSnoc([], s);
    assert [] + [s] == [s] && [] + s.Flat() == s.Flat();
  }

  /** The edges that reading the fields `pieces` appends; nothing if one of them cannot be read. */
  function Appended(kind: Kind, edges: seq<Edge>, pieces: seq<string>): Option<seq<Edge>>
    requires forall i :: 0 <= i < |pieces| ==> FieldOk(pieces[i]) && Ascii(pieces[i])
  {
    AllRead(pieces);
    var fs :- ReadFields(pieces);
    Some(edges + FlatAll(LineSegments(kind, fs)))
  }

  lemma {:induction false} AllRead(pieces: seq<string>)
    requires forall i :: 0 <= i < |pieces| ==> FieldOk(pieces[i]) && Ascii(pieces[i])
    ensures ReadFields(pieces).Some? ==> FieldsRead(ReadFields(pieces).value)
  {
    hide FieldOk, ReadField, AllAscii, Ascii;
    if pieces != [] {
      FieldAscii(pieces[0]);
      if ReadField(pieces[0]).Some? { FieldShape(pieces[0]); }
      AllRead(pieces[1..]);
    }
  }

  lemma AppendedStep(kind: Kind, edges: seq<Edge>, p: string, ps: seq<string>)
    requires FieldOk(p) && Ascii(p) && forall i :: 0 <= i < |ps| ==> FieldOk(ps[i]) && Ascii(ps[i])
    ensures forall i :: 0 <= i < |[p] + ps| ==> FieldOk(([p] + ps)[i]) && Ascii(([p] + ps)[i])
    ensures ReadField(p).None? ==> Appended(kind, edges, [p] + ps) == None
    ensures ReadField(p).Some? ==>
              && FieldRead(ReadField(p).value)
              && Appended(kind, edges, [p] + ps)
              == Appended(kind, edges + FlatAll(FieldSegments(kind, ReadField(p).value)), ps)
  {
    hide FieldOk, ReadField, AllAscii, Ascii, FlatAll, FieldSegments, AllOk;
    assert ([p] + ps)[1..] == ps;
    AllRead([p] + ps);
    AllRead(ps);
    FieldAscii(p);
    if ReadField(p).Some? {
      FieldShape(p);
      var f := ReadField(p).value;
      if ReadFields(ps).Some? {
        var fs := ReadFields(ps).value;
        assert ([f] + fs)[1..] == fs;
        FlatConcat(FieldSegments(kind, f), LineSegments(kind, fs));
        AppendAll(edges, FlatAll(FieldSegments(kind, f)), FlatAll(LineSegments(kind, fs)));
      }
    }
  }

  /** Adds the edges of a line of dependencies; nothing if an operator is illegal. */
  method AddSplitDependencies(edges0: seq<Edge>, line: text, kind: Kind) returns (r: Option<seq<Edge>>)
    requires LineOk(line)
    ensures ReadLine(line).None? ==> r == None
    ensures ReadLine(line).Some? ==>
              && FieldsRead(ReadLine(line).value)
              && r == Some(edges0 + FlatAll(LineSegments(kind, ReadLine(line).value)))
    ensures !kind.OtherLine? ==> forall clauses :: Prints(line, clauses) ==>
              r == Some(edges0 + WrittenFor(kind, clauses))
  {
    hide FieldOk, ReadFields, Pieces, Ascii, FlatAll, LineSegments, FieldSegments, ReadField, AllAscii, FieldRead;
    hide AllOk;
    PrintedAppended(line, kind);
    hide Prints;
    assert Ascii(line) by { LineAscii(line); }
    PiecesAscii(line, ',');
    AllRead(Pieces(line, ','));
    var edges := edges0;
    assert line[0..] == line;
    var field: Option<text>, pos: nat := NextPiece(line, 0, ',');
    ghost var left: seq<string> := if field.Some? then [field.value] + Pieces(line[pos..], ',') else [];
    while field.Some?
      invariant pos <= |line| && forall i :: 0 <= i < |left| ==> FieldOk(left[i]) && Ascii(left[i])
      invariant left == if field.Some? then [field.value] + Pieces(line[pos..], ',') else []
      invariant Appended(kind, edges, left) == Appended(kind, edges0, Pieces(line, ','))
      decreases |left|
    {
      var p := field.value;
      AppendedStep(kind, edges, left[0], left[1..]);
      assert [left[0]] + left[1..] == left;
      var next := AddField(edges, p, kind);
      if next == None {
        return None;
      }
      edges := next.value;
      left := left[1..];
      field, pos := NextPiece(line, pos, ',');
    }
    AppendedNone(kind, edges);
    return Some(edges);
  }

  lemma PrintedAppended(line: text, kind: Kind)
    requires LineOk(line)
    ensures !kind.OtherLine? ==> forall clauses :: Prints(line, clauses) ==>
              && ReadLine(line).Some? && FieldsRead(ReadLine(line).value)
              && FlatAll(LineSegments(kind, ReadLine(line).value)) == WrittenFor(kind, clauses)
  {
    hide LineOk, ReadLine, ShowLine, LineSegments, FlatAll, WrittenFor, Writable, AllAscii;
    if !kind.OtherLine? {
      forall clauses | Prints(line, clauses)
        ensures ReadLine(line).Some? && FieldsRead(ReadLine(line).value)
        ensures FlatAll(LineSegments(kind, ReadLine(line).value)) == WrittenFor(kind, clauses)
      {
        PrintedEdges(kind, clauses);
      }
    }
  }

  lemma LineAscii(line: text)
    ensures Ascii(line)
  {}

  lemma AppendedNone(kind: Kind, edges: seq<Edge>)
    ensures Appended(kind, edges, []) == Some(edges)
  {
    assert ReadFields([]) == Some([]) && LineSegments(kind, []) == [];
    assert edges + [] == edges;
  }

  /** `more` after the alternatives that have been read already. */
  function After(done: seq<Alternative>, more: Option<seq<Alternative>>): Option<seq<Alternative>> {
    var rest :- more;
    Some(done + rest)
  }

  lemma AfterStep(done: seq<Alternative>, p: string, ps: seq<string>)
    ensures var a := ReadAlternative(Trimmed(p));
            After(done, ReadAlternatives([p] + ps))
              == if a.None? then None else After(done + [a.value], ReadAlternatives(ps))
  {
    hide ReadAlternative, Trimmed;
    assert ([p] + ps)[1..] == ps;
    var a := ReadAlternative(Trimmed(p));
    if a.Some? && ReadAlternatives(ps).Some? {
      AppendAll(done, [a.value], ReadAlternatives(ps).value);
    }
  }

  lemma AfterAll(done: seq<Alternative>, pieces: seq<string>)
    ensures After([], ReadAlternatives(pieces)) == ReadAlternatives(pieces)
    ensures After(done, ReadAlternatives([])) == Some(done)
  {
    assert done + [] == done;
    var r := ReadAlternatives(pieces);
    if r.Some? { assert [] + r.value == r.value; }
  }

  /** The edges of the alternatives read so far, behind their root if there is one. */
  function Behind(kind: Kind, rooted: bool, done: seq<Alternative>): seq<Edge>
    requires AllAscii(done)
  {
    (if rooted then [OrRoot(kind.PreDependsLine?, |done|)] else []) + ToEdges(kind, done)
  }

  lemma BehindNext(kind: Kind, done: seq<Alternative>, a: Alternative, edges0: seq<Edge>, edges: seq<Edge>,
                   rooted: bool)
    requires AllAscii(done) && Ascii(a.name) && Ascii(a.version) && edges == edges0 + Behind(kind, rooted, done)
    ensures AllAscii(done + [a])
    ensures rooted ==> |edges0| < |edges| && edges[|edges0|] == OrRoot(kind.PreDependsLine?, |done|)
    ensures rooted ==>
              edges[|edges0| := OrRoot(kind.PreDependsLine?, |done| + 1)] + [ToEdge(kind, a)]
              == edges0 + Behind(kind, rooted, done + [a])
    ensures !rooted ==> edges + [ToEdge(kind, a)] == edges0 + Behind(kind, rooted, done + [a])
  {
    hide Ascii;
    assert ToEdges(kind, done + [a]) == ToEdges(kind, done) + [ToEdge(kind, a)];
  }

  /** Adds the edges of one field; the root of its alternatives counts them as they come. */
  method AddField(edges0: seq<Edge>, piece: text, kind: Kind) returns (r: Option<seq<Edge>>)
    requires FieldOk(piece)
    ensures ReadField(piece).None? ==> r == None
    ensures ReadField(piece).Some? ==>
              && FieldRead(ReadField(piece).value)
              && r == Some(edges0 + FlatAll(FieldSegments(kind, ReadField(piece).value)))
  {
    hide ReadAlternative, ReadAlternatives, Pieces, Ascii, AllAscii, FlatAll, FieldSegments, Behind, After;
    var q: text := piece[Span(piece, 0, " ")..];
    ghost var all := Pieces(q, '|');
    LineAscii(piece);
    FieldAscii(piece);
    if ReadField(piece).Some? { FieldShape(piece); }
    var edges := edges0;
    assert q[0..] == q;
    var alt: Option<text>, pos: nat := NextPiece(q, 0, '|');
    var root := -1;
    if kind.Dependency() && q != alt.value {
      root := |edges|;
      edges := edges + [OrRoot(kind.PreDependsLine?, 0)];
    }
    ghost var done: seq<Alternative> := [];
    NothingBehind(kind, edges0);
    AfterAll([], all);
    while alt.Some?
      invariant pos <= |q| && AllAscii(done) && (root < 0 || root == |edges0|)
      invariant edges == edges0 + Behind(kind, root >= 0, done)
      invariant After(done, ReadAlternatives(Left(q, alt, pos))) == ReadAlternatives(all)
      decreases |q| - pos, alt.Some?
    {
      var part := alt.value;
      AfterStep(done, part, Pieces(q[pos..], '|'));
      var a := ReadAlternative(Trimmed(part));
      if a == None {
        return None;
      }
      PartAscii(part);
      BehindNext(kind, done, a.value, edges0, edges, root >= 0);
      if root >= 0 {
        edges := edges[root := edges[root].(count := edges[root].count + 1)];
      }
      edges := edges + [ToEdge(kind, a.value)];
      done := done + [a.value];
      alt, pos := NextPiece(q, pos, '|');
    }
    AfterAll(done, all);
    BehindAll(kind, ReadField(piece).value, done);
    return Some(edges);
  }

  /** The parts still to be read. */
  ghost function Left(q: string, alt: Option<string>, pos: nat): seq<string>
    requires pos <= |q|
  {
    if alt.Some? then [alt.value] + Pieces(q[pos..], '|') else []
  }

  lemma NothingBehind(kind: Kind, edges: seq<Edge>)
    ensures AllAscii([]) && edges + Behind(kind, false, []) == edges
    ensures edges + Behind(kind, true, []) == edges + [OrRoot(kind.PreDependsLine?, 0)]
  {
    assert ToEdges(kind, []) == [];
  }

  lemma PartAscii(part: text)
    ensures var a := ReadAlternative(Trimmed(part));
            a.Some? ==> Ascii(a.value.name) && Ascii(a.value.version)
  {
    AlternativeAscii(Trimmed(part));
  }

  lemma BehindAll(kind: Kind, f: Field, done: seq<Alternative>)
    requires FieldRead(f) && f.alts == done
    ensures FlatAll(FieldSegments(kind, f)) == Behind(kind, kind.Dependency() && f.rooted, done)
  {
    FlatField(kind, f);
  }

  /** The clauses of a dependency line. */
  function ClauseSegments(kind: Kind, clauses: seq<seq<Alternative>>): (segs: seq<Segment>)
    requires forall i :: 0 <= i < |clauses| ==> AllAscii(clauses[i])
    ensures |segs| == |clauses|
    ensures forall i :: 0 <= i < |clauses| ==>
              segs[i] == Clause(kind.PreDependsLine?, |clauses[i]| > 1, ToEdges(kind, clauses[i]))
  {
    seq(|clauses|, i requires 0 <= i < |clauses| =>
      Clause(kind.PreDependsLine?, |clauses[i]| > 1, ToEdges(kind, clauses[i])))
  }

  /** Clauses written as a dependency line are read as those clauses. */
  lemma PrintedClauses(kind: Kind, clauses: seq<seq<Alternative>>)
    requires kind.Dependency() && ClausesWritable(clauses) && forall i :: 0 <= i < |clauses| ==> AllAscii(clauses[i])
    ensures LineOk(ShowLine(clauses)) && ReadLine(ShowLine(clauses)) == Some(Fields(clauses))
    ensures FieldsRead(Fields(clauses)) && LineSegments(kind, Fields(clauses)) == ClauseSegments(kind, clauses)
  {
    hide LineOk, ReadLine, ShowLine, Writable, AllAscii, LineSegments;
    LineRoundTrip(clauses);
    SegmentsOfFields(kind, clauses);
  }

  lemma {:induction false} SegmentsOfFields(kind: Kind, clauses: seq<seq<Alternative>>)
    requires kind.Dependency()
    requires forall i :: 0 <= i < |clauses| ==> AllAscii(clauses[i]) && clauses[i] != []
    ensures FieldsRead(Fields(clauses)) && LineSegments(kind, Fields(clauses)) == ClauseSegments(kind, clauses)
  {
    hide AllAscii;
    if clauses != [] {
      var rest := clauses[1..];
      SegmentsOfFields(kind, rest);
      assert Fields(clauses)[1..] == Fields(rest);
      assert ClauseSegments(kind, clauses) == ClauseSegments(kind, clauses)[..1] + ClauseSegments(kind, rest);
    }
  }

  // ---------- what a printed line appends ----------

  predicate Printable(clauses: seq<seq<Alternative>>) {
    ClausesWritable(clauses) && forall i :: 0 <= i < |clauses| ==> AllAscii(clauses[i])
  }

  /** The edges of a clause: a root with the number of alternatives, if there are several, and each alternative. */
  function WrittenClause(pre: bool, alts: seq<Alternative>): seq<Edge>
    requires AllAscii(alts)
  {
    (if |alts| > 1 then [OrRoot(pre, |alts|)] else [])
    + seq(|alts|, i requires 0 <= i < |alts| => Depends(pre, alts[i].name, alts[i].rel, alts[i].version))
  }

  function WrittenEdges(pre: bool, clauses: seq<seq<Alternative>>): seq<Edge>
    requires forall i :: 0 <= i < |clauses| ==> AllAscii(clauses[i])
  {
    if clauses == [] then [] else WrittenClause(pre, clauses[0]) + WrittenEdges(pre, clauses[1..])
  }

  function ProvidedNames(alts: seq<Alternative>): seq<Edge>
    requires AllAscii(alts)
  {
    seq(|alts|, i requires 0 <= i < |alts| => Provides(alts[i].name))
  }

  /** The names of a line of provided packages. */
  function WrittenNames(clauses: seq<seq<Alternative>>): seq<Edge>
    requires forall i :: 0 <= i < |clauses| ==> AllAscii(clauses[i])
  {
    if clauses == [] then [] else ProvidedNames(clauses[0]) + WrittenNames(clauses[1..])
  }

  lemma EdgesOfClause(pre: bool, alts: seq<Alternative>)
    requires AllAscii(alts) && alts != []
    ensures FlatAll(FieldSegments(if pre then PreDependsLine else DependsLine, Field(|alts| > 1, alts)))
         == WrittenClause(pre, alts)
    ensures FlatAll(FieldSegments(ProvidesLine, Field(|alts| > 1, alts)))
         == ProvidedNames(alts)
  {
    var kind := if pre then PreDependsLine else DependsLine;
    var f := Field(|alts| > 1, alts);
    hide AllAscii, FlatAll, FieldSegments;
    FlatField(kind, f);
    FlatField(ProvidesLine, f);
  }

  lemma {:induction false} EdgesOfClauses(pre: bool, clauses: seq<seq<Alternative>>)
    requires forall i :: 0 <= i < |clauses| ==> AllAscii(clauses[i]) && clauses[i] != []
    ensures FieldsRead(Fields(clauses))
    ensures FlatAll(LineSegments(if pre then PreDependsLine else DependsLine, Fields(clauses)))
         == WrittenEdges(pre, clauses)
    ensures FlatAll(LineSegments(ProvidesLine, Fields(clauses))) == WrittenNames(clauses)
  {
    hide AllAscii, FlatAll, FieldSegments, WrittenClause, ProvidedNames, AllOk;
    var kind := if pre then PreDependsLine else DependsLine;
    if clauses == [] {
      assert LineSegments(kind, Fields(clauses)) == [] && LineSegments(ProvidesLine, Fields(clauses)) == [];
      NoEdges();
    } else {
      var c, rest := clauses[0], clauses[1..];
      EdgesOfClauses(pre, rest);
      EdgesOfClause(pre, c);
      assert Fields(clauses)[1..] == Fields(rest);
      FlatConcat(FieldSegments(kind, Field(|c| > 1, c)), LineSegments(kind, Fields(rest)));
      FlatConcat(FieldSegments(ProvidesLine, Field(|c| > 1, c)), LineSegments(ProvidesLine, Fields(rest)));
    }
  }

  /** The line is what these clauses are printed as. */
  ghost predicate Prints(line: string, clauses: seq<seq<Alternative>>) {
    Printable(clauses) && ShowLine(clauses) == line
  }

  /** What is appended for a printed line. */
  function WrittenFor(kind: Kind, clauses: seq<seq<Alternative>>): seq<Edge>
    requires Printable(clauses) && !kind.OtherLine?
  {
    if kind.ProvidesLine? then WrittenNames(clauses) else WrittenEdges(kind.PreDependsLine?, clauses)
  }

  lemma PrintedEdges(kind: Kind, clauses: seq<seq<Alternative>>)
    requires !kind.OtherLine? && Printable(clauses)
    ensures LineOk(ShowLine(clauses)) && ReadLine(ShowLine(clauses)) == Some(Fields(clauses))
    ensures FieldsRead(Fields(clauses)) && FlatAll(LineSegments(kind, Fields(clauses))) == WrittenFor(kind, clauses)
  {
    hide LineOk, ReadLine, ShowLine, Writable, AllAscii, LineSegments, FlatAll;
    LineRoundTrip(clauses);
    EdgesOfClauses(kind.PreDependsLine?, clauses);
  }

  // ---------- the package table ----------

  type Packages = seq<Option<Node>>

  /** The node in slot `a` has the name, and its version is in the relation. */
  predicate Matches(t: Packages, a: nat, name: text, version: text, rel: Relation) {
    a < |t| && t[a].Some? && t[a].value.name == name && (rel == VerAny || Holds(t[a].value.version, version, rel))
  }

  /** The search for a package of this name comes to slot `a` without coming to a free slot before. */
  ghost predicate ComesTo(t: Packages, name: text, a: nat)
    requires |t| > 0
  {
    exists i: nat :: OnTheWay(t, HashOf(name, |t|), a, i)
  }

  ghost predicate Reached(t: Packages, a: nat)
    requires |t| > 0 && a < |t| && t[a].Some?
  {
    ComesTo(t, t[a].value.name, a)
  }

  ghost predicate OnTheWay(t: Packages, h: Hash, a: nat, i: nat)
    requires |t| > 0
  {
    i < |t| && Probe(h, |t|, i) == a && forall j: nat :: j < i ==> t[Probe(h, |t|, j)].Some?
  }

  ghost predicate TableOk(t: Packages, free: nat) {
    && Prime(|t|) && free < |t| && t[free] == None
    && (forall a: nat :: a < |t| && t[a].Some? ==> Reached(t, a)) && OneEach(t)
  }

  /** No package is in the table twice with equal versions. */
  ghost predicate OneEach(t: Packages) {
    forall a: nat, b: nat :: a < |t| && b < |t| && a != b && t[a].Some? && t[b].Some?
           ==> !Alike(t[a].value, t[b].value)
  }

  predicate Alike(n: Node, m: Node) {
    n.name == m.name && Holds(n.version, m.version, VerEqual)
  }

  /** The edges of every package come from clauses. */
  ghost predicate FromClauses(t: Packages, clauses: seq<seq<Segment>>) {
    && |clauses| == |t|
    && forall a :: 0 <= a < |t| && t[a].Some? ==> AllOk(clauses[a]) && t[a].value.edges == FlatAll(clauses[a])
  }

  // ---------- storing a package ----------

  lemma EqualVersions(a: text, b: text, c: text)
    requires Holds(a, c, VerEqual) && Holds(b, c, VerEqual)
    ensures Holds(a, b, VerEqual) && Holds(c, a, VerEqual)
  {
    hide CompareVersions;
    VersionsAntisymmetric(a, c);
    VersionsAntisymmetric(b, c);
    VersionsTransitive(a, c, b);
    VersionsTransitive(b, c, a);
    VersionsAntisymmetric(a, b);
  }

  /** A search passes the same slots when one more is taken. */
  lemma StillReached(t: Packages, a: nat, x: Node, name: text, b: nat)
    requires |t| > 0 && a < |t| && ComesTo(t, name, b)
    ensures ComesTo(t[a := Some(x)], name, b)
  {
    hide Probe, HashOf;
    var i: nat :| OnTheWay(t, HashOf(name, |t|), b, i);
    assert OnTheWay(t[a := Some(x)], HashOf(name, |t|), b, i);
  }

  lemma StoredReached(t: Packages, a: nat, x: Node)
    requires |t| > 0 && a < |t| && (forall b: nat :: b < |t| && t[b].Some? ==> Reached(t, b))
    requires ComesTo(t, x.name, a)
    ensures var u: Packages := t[a := Some(x)]; forall b: nat :: b < |u| && u[b].Some? ==> Reached(u, b)
  {
    hide ComesTo;
    var u: Packages := t[a := Some(x)];
    forall b: nat | b < |u| && u[b].Some?
      ensures Reached(u, b)
    {
      StillReached(t, a, x, u[b].value.name, b);
    }
  }

  /** The node goes where nothing alike is, or in the place of the only node that is alike. */
  lemma StoredAlone(t: Packages, a: nat, x: Node)
    requires a < |t| && OneEach(t)
    requires t[a].Some? ==> Alike(t[a].value, x)
    requires t[a].None? ==> forall b: nat :: !Matches(t, b, x.name, x.version, VerEqual)
    ensures OneEach(t[a := Some(x)])
  {
    hide Holds;
    var u: Packages := t[a := Some(x)];
    forall b: nat | b < |t| && b != a && t[b].Some?
      ensures !Alike(t[b].value, x)
    {
      if t[a].None? {
        assert !Matches(t, b, x.name, x.version, VerEqual);
      } else if Alike(t[b].value, x) {
        EqualVersions(t[a].value.version, t[b].value.version, x.version);
      }
    }
    forall b: nat, c: nat | b < |u| && c < |u| && b != c && u[b].Some? && u[c].Some?
      ensures !Alike(u[b].value, u[c].value)
    {
      if b == a && Alike(x, u[c].value) {
        EqualBack(x.version, u[c].value.version);
      }
    }
  }

  lemma StoredClauses(t: Packages, clauses: seq<seq<Segment>>, a: nat, x: Node, segs: seq<Segment>)
    requires FromClauses(t, clauses) && a < |t| && AllOk(segs) && x.edges == FlatAll(segs)
    ensures |clauses| == |t| && FromClauses(t[a := Some(x)], clauses[a := segs])
  {
    hide FlatAll;
  }

  lemma EqualBack(a: text, b: text)
    requires Holds(a, b, VerEqual)
    ensures Holds(b, a, VerEqual)
  {
    VersionsAntisymmetric(a, b);
  }

  predicate ProvidesName(n: Node, name: text) {
    exists j :: 0 <= j < |n.edges| && n.edges[j] == Provides(name)
  }

  // ---------- when dependencies are satisfied ----------

  type Status = map<text, Flags>

  predicate Installed(status: Status, name: text) {
    name in status && status[name].installed
  }

  predicate Wanted(status: Status, name: text) {
    name in status && status[name].wanted
  }

  /** A package with the name and a version in the relation, or one that provides the name. */
  ghost predicate Serves(n: Node, name: text, rel: Relation, version: text) {
    || (n.name == name && (rel == VerAny || Holds(n.version, version, rel)))
    || Provides(name) in n.edges
  }

  /** A dependency is met by a package that is to be installed. */
  ghost predicate DependsMet(t: Packages, status: Status, name: text, rel: Relation, version: text) {
    exists a: nat :: a < |t| && t[a].Some? && Wanted(status, t[a].value.name) && Serves(t[a].value, name, rel, version)
  }

  /** A pre-dependency is met only by a package that is installed already. */
  ghost predicate PreDependsMet(t: Packages, status: Status, name: text, rel: Relation, version: text) {
    exists a: nat ::
      a < |t| && t[a].Some? && Installed(status, t[a].value.name) && Serves(t[a].value, name, rel, version)
  }

  ghost predicate Satisfied(t: Packages, status: Status, e: Edge)
    requires e.Depends?
  {
    if e.pre then PreDependsMet(t, status, e.name, e.rel, e.version)
    else DependsMet(t, status, e.name, e.rel, e.version)
  }

  /** At least one alternative of the clause is satisfied. */
  ghost predicate ClauseHolds(t: Packages, status: Status, s: Segment)
    requires s.Ok()
  {
    s.Clause? ==> exists k :: 0 <= k < |s.alts| && Satisfied(t, status, s.alts[k])
  }

  ghost predicate AllHold(t: Packages, status: Status, segs: seq<Segment>)
    requires AllOk(segs)
  {
    forall m :: 0 <= m < |segs| ==> ClauseHolds(t, status, segs[m])
  }

  /** Every clause of every package that is to be installed can be satisfied. */
  ghost predicate Consistent(t: Packages, status: Status, clauses: seq<seq<Segment>>)
    requires FromClauses(t, clauses)
  {
    forall a: nat :: a < |t| && t[a].Some? && Wanted(status, t[a].value.name) ==> AllHold(t, status, clauses[a])
  }

  // ---------- one alternative ----------

  ghost predicate Ready(status: Status, name: text, pre: bool) {
    (pre ==> Installed(status, name)) && (!pre ==> Wanted(status, name))
  }

  lemma ProvidesIs(n: Node, name: text)
    ensures ProvidesName(n, name) <==> Provides(name) in n.edges
  {}

  lemma Found(t: Packages, status: Status, e: Edge, a: nat)
    requires e.Depends? && a < |t| && t[a].Some? && Ready(status, t[a].value.name, e.pre)
    requires Matches(t, a, e.name, e.version, e.rel) || ProvidesName(t[a].value, e.name)
    ensures Satisfied(t, status, e)
  {
    hide Holds, Installed, Wanted;
    assert Serves(t[a].value, e.name, e.rel, e.version);
  }

  /** All packages that match have the same name, and so the same status. */
  lemma NotFound(t: Packages, status: Status, e: Edge, a: nat)
    requires e.Depends? && a < |t| && (t[a].Some? ==> Matches(t, a, e.name, e.version, e.rel))
    requires t[a].None? ==> forall b: nat :: !Matches(t, b, e.name, e.version, e.rel)
    requires t[a].Some? ==> !Ready(status, t[a].value.name, e.pre)
    requires forall k: nat :: k < |t| && t[k].Some? && ProvidesName(t[k].value, e.name) ==>
               !Ready(status, t[k].value.name, e.pre)
    ensures !Satisfied(t, status, e)
  {
    hide Holds, Installed, Wanted, ProvidesName;
    forall b: nat | b < |t| && t[b].Some? && Serves(t[b].value, e.name, e.rel, e.version)
      ensures !Ready(status, t[b].value.name, e.pre)
    {
      ProvidesIs(t[b].value, e.name);
      assert Matches(t, b, e.name, e.version, e.rel) || ProvidesName(t[b].value, e.name);
    }
  }

  // ---------- the scan over the edges ----------

  /** The scan over the edges stands before segment `m`. */
  ghost predicate Before(segs: seq<Segment>, m: nat, j: nat, number: nat, root: Option<Edge>)
    requires AllOk(segs) && m <= |segs|
  {
    j == |FlatAll(segs[..m])| && (number == 0 || (number == 1 && root == None))
  }

  /** It stands behind `k` alternatives of segment `m`, none of which holds. */
  ghost predicate Inside(t: Packages, status: Status, segs: seq<Segment>, m: nat, k: nat, j: nat, number: nat,
                         root: Option<Edge>)
    requires AllOk(segs) && m <= |segs|
  {
    && m < |segs| && segs[m].Clause? && k < |segs[m].alts| && segs[m].rooted
    && j == |FlatAll(segs[..m])| + 1 + k && number == |segs[m].alts| - k
    && root == Some(OrRoot(segs[m].pre, |segs[m].alts|))
    && forall i :: 0 <= i < k ==> !Satisfied(t, status, segs[m].alts[i])
  }

  ghost predicate Scanning(t: Packages, status: Status, segs: seq<Segment>, m: nat, k: nat, j: nat, number: nat,
                           root: Option<Edge>)
  {
    && AllOk(segs) && m <= |segs| && AllHold(t, status, segs[..m])
    && if k == 0 && !(number > 0 && root.Some?) then Before(segs, m, j, number, root)
       else Inside(t, status, segs, m, k, j, number, root)
  }

  lemma NoSegments(t: Packages, status: Status, segs: seq<Segment>)
    requires AllOk(segs)
    ensures Scanning(t, status, segs, 0, 0, 0, 0, None)
  {
    assert segs[..0] == [];
  }

  /** The edge at `j`, as part of its segment. */
  lemma InSegment(t: Packages, status: Status, segs: seq<Segment>, m: nat, k: nat, j: nat, number: nat,
                  root: Option<Edge>)
    requires Scanning(t, status, segs, m, k, j, number, root) && j < |FlatAll(segs)|
    ensures m < |segs| && segs[m].Ok()
    ensures var s, e := segs[m], FlatAll(segs)[j];
            if k == 0 && !(number > 0 && root.Some?) then
              e == (if s.Single? then s.e else if s.rooted then OrRoot(s.pre, |s.alts|) else s.alts[0])
            else e == s.alts[k]
  {
    hide FlatAll, Satisfied, AllHold;
    if k == 0 && !(number > 0 && root.Some?) {
      assert segs[..|segs|] == segs;
      FirstEdge(segs, m);
    } else {
      NextAlternative(segs, m, k);
    }
  }

  lemma SegmentDone(t: Packages, status: Status, segs: seq<Segment>, m: nat)
    requires AllOk(segs) && m < |segs| && AllHold(t, status, segs[..m]) && ClauseHolds(t, status, segs[m])
    ensures AllHold(t, status, segs[..m + 1])
    ensures |FlatAll(segs[..m + 1])| == |FlatAll(segs[..m])|
              + if segs[m].Single? || !segs[m].rooted then 1 else 1 + |segs[m].alts|
  {
    hide Satisfied;
    assert segs[..m] + [segs[m]] == segs[..m + 1];
    FlatSnoc(segs[..m], segs[m]);
  }

  lemma Unsatisfied(t: Packages, status: Status, segs: seq<Segment>, m: nat)
    requires AllOk(segs) && m < |segs| && !ClauseHolds(t, status, segs[m])
    ensures !AllHold(t, status, segs)
  {}

  lemma ScanEnds(t: Packages, status: Status, segs: seq<Segment>, m: nat, k: nat, j: nat, number: nat,
                 root: Option<Edge>)
    requires Scanning(t, status, segs, m, k, j, number, root) && j >= |FlatAll(segs)|
    ensures AllHold(t, status, segs)
  {
    hide Satisfied;
    if m < |segs| {
      FlatAt(segs, m, 0);
    }
    assert segs[..|segs|] == segs;
  }

  // ---------- what the outcome depends on ----------

  predicate SameWanted(s: Status, u: Status) {
    s.Keys == u.Keys && forall n :: n in s ==> s[n].wanted == u[n].wanted
  }

  /** All clauses are pre-dependencies, or none is. */
  predicate AllOfKind(clauses: seq<seq<Segment>>, pre: bool) {
    forall a, m :: 0 <= a < |clauses| && 0 <= m < |clauses[a]| && clauses[a][m].Clause? ==> clauses[a][m].pre == pre
  }

  lemma SameClause(t: Packages, s: Status, u: Status, g: Segment)
    requires g.Ok()
    requires g.Clause? && g.pre ==> forall n :: Installed(s, n) <==> Installed(u, n)
    requires g.Clause? && !g.pre ==> forall n :: Wanted(s, n) <==> Wanted(u, n)
    ensures ClauseHolds(t, s, g) <==> ClauseHolds(t, u, g)
  {
    hide Installed, Wanted, Serves;
    if g.Clause? {
      forall k | 0 <= k < |g.alts|
        ensures Satisfied(t, s, g.alts[k]) <==> Satisfied(t, u, g.alts[k])
      {}
    }
  }

  /** Without pre-dependencies it does not matter what is installed already. */
  lemma InstalledIrrelevant(t: Packages, s: Status, u: Status, clauses: seq<seq<Segment>>)
    requires FromClauses(t, clauses) && SameWanted(s, u) && AllOfKind(clauses, false)
    ensures Consistent(t, s, clauses) <==> Consistent(t, u, clauses)
  {
    SameClauses(t, s, u, clauses, false);
    assert forall n :: Wanted(s, n) <==> Wanted(u, n);
    hide Wanted, ClauseHolds;
  }

  /** With only pre-dependencies, the same packages to install, and the same ones installed, give the same outcome. */
  lemma OnlyInstalledRelevant(t: Packages, s: Status, u: Status, clauses: seq<seq<Segment>>)
    requires FromClauses(t, clauses) && AllOfKind(clauses, true)
    requires forall n :: Installed(s, n) <==> Installed(u, n)
    requires forall a: nat :: a < |t| && t[a].Some? ==> (Wanted(s, t[a].value.name) <==> Wanted(u, t[a].value.name))
    ensures Consistent(t, s, clauses) <==> Consistent(t, u, clauses)
  {
    SameClauses(t, s, u, clauses, true);
    hide Wanted, Installed, ClauseHolds;
  }

  lemma SameClauses(t: Packages, s: Status, u: Status, clauses: seq<seq<Segment>>, pre: bool)
    requires FromClauses(t, clauses) && AllOfKind(clauses, pre)
    requires pre ==> forall n :: Installed(s, n) <==> Installed(u, n)
    requires !pre ==> forall n :: Wanted(s, n) <==> Wanted(u, n)
    ensures forall a: nat :: a < |t| && t[a].Some? ==>
              (AllHold(t, s, clauses[a]) <==> AllHold(t, u, clauses[a]))
  {
    hide Wanted, Installed, ClauseHolds;
    forall a: nat, m: nat | a < |t| && t[a].Some? && m < |clauses[a]|
      ensures ClauseHolds(t, s, clauses[a][m]) <==> ClauseHolds(t, u, clauses[a][m])
    {
      SameClause(t, s, u, clauses[a][m]);
    }
  }

  // ---------- what a printed line asks for ----------

  /** An alternative of a dependency or a pre-dependency is met. */
  ghost predicate Met(t: Packages, status: Status, pre: bool, a: Alternative)
    requires Ascii(a.name) && Ascii(a.version)
  {
    && (pre ==> PreDependsMet(t, status, a.name, a.rel, a.version))
    && (!pre ==> DependsMet(t, status, a.name, a.rel, a.version))
  }

  ghost predicate SomeMet(t: Packages, status: Status, pre: bool, alts: seq<Alternative>)
    requires AllAscii(alts)
  {
    exists k :: 0 <= k < |alts| && Met(t, status, pre, alts[k])
  }

  /** Each clause has an alternative that is met. */
  ghost predicate LineHolds(t: Packages, status: Status, pre: bool, clauses: seq<seq<Alternative>>)
    requires Printable(clauses)
  {
    forall i :: 0 <= i < |clauses| ==> SomeMet(t, status, pre, clauses[i])
  }

  lemma HoldConcat(t: Packages, status: Status, a: seq<Segment>, b: seq<Segment>)
    requires AllOk(a) && AllOk(b)
    ensures AllOk(a + b) && (AllHold(t, status, a + b) <==> AllHold(t, status, a) && AllHold(t, status, b))
  {
    hide ClauseHolds, Segment.Ok;
    forall i | 0 <= i < |a| + |b|
      ensures (a + b)[i] == if i < |a| then a[i] else b[i - |a|]
    {}
    if AllHold(t, status, a + b) {
      assert forall m :: 0 <= m < |a| ==> a[m] == (a + b)[m];
      assert forall m :: 0 <= m < |b| ==> b[m] == (a + b)[m + |a|];
    }
  }

  /** The segments of a printed line of dependencies hold if and only if each clause has an alternative that is met. */
  lemma PrintedHolds(t: Packages, status: Status, pre: bool, clauses: seq<seq<Alternative>>)
    requires Printable(clauses)
    ensures var kind := if pre then PreDependsLine else DependsLine;
            && FieldsRead(Fields(clauses))
            && (AllHold(t, status, LineSegments(kind, Fields(clauses))) <==> LineHolds(t, status, pre, clauses))
  {
    hide Writable, AllAscii, LineSegments, PreDependsMet, DependsMet;
    var kind := if pre then PreDependsLine else DependsLine;
    SegmentsOfFields(kind, clauses);
    var segs := ClauseSegments(kind, clauses);
    forall i | 0 <= i < |clauses|
      ensures ClauseHolds(t, status, segs[i]) <==> SomeMet(t, status, pre, clauses[i])
    {
      ClauseIs(t, status, pre, clauses[i]);
    }
    hide ClauseHolds, SomeMet;
  }

  lemma ClauseIs(t: Packages, status: Status, pre: bool, alts: seq<Alternative>)
    requires AllAscii(alts) && alts != []
    ensures var s := Clause(pre, |alts| > 1, ToEdges(if pre then PreDependsLine else DependsLine, alts));
            s.Ok() && (ClauseHolds(t, status, s) <==> SomeMet(t, status, pre, alts))
  {
    hide PreDependsMet, DependsMet;
    var es := ToEdges(if pre then PreDependsLine else DependsLine, alts);
    forall k | 0 <= k < |alts|
      ensures Satisfied(t, status, es[k]) <==> Met(t, status, pre, alts[k])
    {}
  }

  /** A line of provided names asks for nothing. */
  lemma {:induction false} ProvidesHold(t: Packages, status: Status, fs: seq<Field>)
    requires FieldsRead(fs)
    ensures AllHold(t, status, LineSegments(ProvidesLine, fs))
  {
    hide FieldRead, ToEdges, ToEdge, AllAscii;
    if fs != [] {
      ProvidesHold(t, status, fs[1..]);
      HoldConcat(t, status, FieldSegments(ProvidesLine, fs[0]), LineSegments(ProvidesLine, fs[1..]));
    }
  }

  /** What a package with these three lines asks for and provides. */
  function PackageSegments(pre: seq<seq<Alternative>>, deps: seq<seq<Alternative>>, provided: seq<seq<Alternative>>):
    (segs: seq<Segment>)
    requires FieldsRead(Fields(pre)) && FieldsRead(Fields(deps)) && FieldsRead(Fields(provided))
  {
    LineSegments(PreDependsLine, Fields(pre)) + LineSegments(DependsLine, Fields(deps))
    + LineSegments(ProvidesLine, Fields(provided))
  }

  lemma PrintableRead(clauses: seq<seq<Alternative>>)
    requires Printable(clauses)
    ensures FieldsRead(Fields(clauses))
  {
    hide AllAscii, Writable;
  }

  /** The edges of a package with these lines. */
  lemma PackageEdges(pre: seq<seq<Alternative>>, deps: seq<seq<Alternative>>, provided: seq<seq<Alternative>>)
    requires Printable(pre) && Printable(deps) && Printable(provided)
    ensures FieldsRead(Fields(pre)) && FieldsRead(Fields(deps)) && FieldsRead(Fields(provided))
    ensures AllOk(PackageSegments(pre, deps, provided))
    ensures FlatAll(PackageSegments(pre, deps, provided))
         == WrittenFor(PreDependsLine, pre) + WrittenFor(DependsLine, deps) + WrittenFor(ProvidesLine, provided)
  {
    hide LineSegments, FlatAll, WrittenFor, Printable, FieldsRead, AllOk, ShowLine, LineOk, ReadLine;
    PrintedEdges(PreDependsLine, pre);
    PrintedEdges(DependsLine, deps);
    PrintedEdges(ProvidesLine, provided);
    var a, b, c := LineSegments(PreDependsLine, Fields(pre)), LineSegments(DependsLine, Fields(deps)),
                   LineSegments(ProvidesLine, Fields(provided));
    FlatConcat(a, b);
    FlatConcat(a + b, c);
  }

  /** When all that a package with these lines asks for is met. */
  lemma PackageHolds(t: Packages, status: Status, pre: seq<seq<Alternative>>, deps: seq<seq<Alternative>>,
                     provided: seq<seq<Alternative>>)
    requires Printable(pre) && Printable(deps) && Printable(provided)
    ensures FieldsRead(Fields(pre)) && FieldsRead(Fields(deps)) && FieldsRead(Fields(provided))
    ensures AllOk(PackageSegments(pre, deps, provided))
    ensures AllHold(t, status, PackageSegments(pre, deps, provided))
       <==> LineHolds(t, status, true, pre) && LineHolds(t, status, false, deps)
  {
    hide LineSegments, Printable, FieldsRead, AllOk, AllHold, LineHolds;
    PrintableRead(provided);
    PrintedHolds(t, status, true, pre);
    PrintedHolds(t, status, false, deps);
    ProvidesHold(t, status, Fields(provided));
    var a, b, c := LineSegments(PreDependsLine, Fields(pre)), LineSegments(DependsLine, Fields(deps)),
                   LineSegments(ProvidesLine, Fields(provided));
    HoldConcat(t, status, a, b);
    HoldConcat(t, status, a + b, c);
  }

  class Database {
    const packages: array<Option<Node>>
    const status: map<text, Flags>
    ghost var free: nat // a slot that is not in use
    ghost var clauses: seq<seq<Segment>> // what the edges of each package stand for

    ghost predicate Valid()
      reads this, packages
    {
      TableOk(packages[..], free) && FromClauses(packages[..], clauses)
    }

    constructor (prime: nat, status: map<text, Flags>)
      requires Prime(prime)
      ensures Valid() && packages.Length == prime && this.status == status && fresh(packages)
      ensures forall a :: 0 <= a < prime ==> packages[a] == None
    {
      packages := new Option<Node>[prime](_ => None);
      this.status := status;
      free, clauses := 0, seq(prime, _ => []);
    }

    /** Stores a package that has a version, in the place of one with the same name and an equal version, if any. */
    method Store(node: Node, ghost segs: seq<Segment>, ghost other: nat) returns (num: int)
      requires Valid() && AllOk(segs) && node.edges == FlatAll(segs)
      requires other < packages.Length && other != free && packages[other].None?
      modifies this`free, this`clauses, packages
      ensures Valid() && (num == -1 <==> node.version == "unknown") && -1 <= num < packages.Length
      ensures num == -1 ==> packages[..] == old(packages[..]) && clauses == old(clauses)
      ensures num >= 0 ==>
                packages[..] == old(packages[..])[num := Some(node)] && clauses == old(clauses)[num := segs]
      ensures num >= 0 && old(packages[num]).Some? ==> Alike(old(packages[num]).value, node)
    {
      hide Holds, ComesTo, Reached, FlatAll, OneEach, FromClauses, AllOk, Prime;
      if node.version == "unknown" {
        return -1;
      }
      ghost var t := packages[..];
      var a := SearchPackage(node.name, node.version, VerEqual);
      StoredReached(t, a, node);
      StoredAlone(t, a, node);
      packages[a] := Some(node);
      assert packages[..] == t[a := Some(node)];
      StoredClauses(t, clauses, a, node, segs);
      clauses := clauses[a := segs];
      free := if a == free then other else free;
      return a;
    }

    /** The slot of a package that matches, or a free one if there is none. */
    method SearchPackage(name: text, version: text, rel: Relation) returns (a: nat)
      requires Valid()
      ensures a < packages.Length
      ensures packages[a].Some? ==> Matches(packages[..], a, name, version, rel)
      ensures packages[a].None? ==> forall b: nat :: !Matches(packages[..], b, name, version, rel)
      ensures ComesTo(packages[..], name, a)
    {
      hide Probe, HashOf, Holds, GoodHash, OneEach, FromClauses;
      ghost var t := packages[..];
      var decrement;
      a, decrement := MakeHash(name, packages.Length);
      ghost var h := HashOf(name, packages.Length);
      HashIsGood(name, packages.Length);
      ghost var n := EverySlot(h, packages.Length, free);
      ghost var i: nat := 0;
      FirstProbe(h, packages.Length);
      while packages[a].Some?
        invariant i <= n && a == Probe(h, |t|, i) && a < packages.Length && OnTheWay(t, h, a, i)
        invariant forall j: nat :: j < i ==>
                    t[Probe(h, |t|, j)].Some? && !Matches(t, Probe(h, |t|, j), name, version, rel)
        decreases n - i
      {
        var p := packages[a].value;
        if p.name == name {
          if rel == VerAny {
            return;
          }
          var fits := TestVersion(p.version, version, rel);
          if fits {
            return;
          }
        }
        ProbeNext(h, packages.Length, i);
        HashIsGood(name, packages.Length);
        var next := a - decrement;
        if next < 0 {
          next := next + packages.Length;
        }
        a := next;
        i := i + 1;
      }
      forall b: nat
        ensures !Matches(t, b, name, version, rel)
      {
        NoMatch(t, b, name, version, rel, h, i);
      }
    }

    /** The next package after `start` that provides the name, or -1. */
    method SearchForProvides(needle: text, start: int) returns (i: int)
      requires -1 <= start < packages.Length
      ensures i == -1 || start < i < packages.Length
      ensures i >= 0 ==> packages[i].Some? && ProvidesName(packages[i].value, needle)
      ensures forall k :: start < k < (if i < 0 then packages.Length else i) ==>
                packages[k].None? || !ProvidesName(packages[k].value, needle)
    {
      i := start + 1;
      while i < packages.Length
        invariant start < i <= packages.Length
        invariant forall k :: start < k < i ==> packages[k].None? || !ProvidesName(packages[k].value, needle)
      {
        if packages[i].Some? {
          var p := packages[i].value;
          var j := 0;
          while j < |p.edges|
            invariant j <= |p.edges| && forall k :: 0 <= k < j ==> p.edges[k] != Provides(needle)
          {
            if p.edges[j].Provides? && p.edges[j].name == needle {
              assert p.edges[j] == Provides(needle);
              return;
            }
            j := j + 1;
          }
        }
        i := i + 1;
      }
      return -1;
    }

    /** Whether the package in a slot can satisfy a dependency: a pre-dependency only if it is already installed. */
    method PackageSatisfies(package: nat, pre: bool) returns (ok: bool)
      requires package < packages.Length && packages[package].Some?
      ensures pre ==> (ok <==> Installed(status, packages[package].value.name))
      ensures !pre ==> (ok <==> Wanted(status, packages[package].value.name))
    {
      var name := packages[package].value.name;
      if name !in status {
        return false;
      }
      if pre {
        return status[name].installed;
      }
      return status[name].wanted;
    }

    /** Whether one alternative can be satisfied. */
    method CheckEdge(e: Edge) returns (ok: bool)
      requires Valid() && e.Depends?
      ensures ok <==> Satisfied(packages[..], status, e)
    {
      hide Holds, ProvidesName, TableOk, Installed, Wanted;
      ghost var t := packages[..];
      var a := SearchPackage(e.name, e.version, e.rel);
      ok := false;
      if packages[a].Some? {
        ok := PackageSatisfies(a, e.pre);
      }
      if ok {
        Found(t, status, e, a);
      } else {
        var provider := SearchForProvides(e.name, -1);
        while provider > -1
          invariant provider == -1 || (0 <= provider < packages.Length && packages[provider].Some?
                      && ProvidesName(packages[provider].value, e.name))
          invariant forall k: nat :: (k < (if provider < 0 then packages.Length else provider) && packages[k].Some?
                      && ProvidesName(packages[k].value, e.name)) ==> !Ready(status, packages[k].value.name, e.pre)
          decreases if provider < 0 then 0 else packages.Length - provider
        {
          ok := PackageSatisfies(provider, e.pre);
          if ok {
            Found(t, status, e, provider);
            return;
          }
          provider := SearchForProvides(e.name, provider);
        }
        NotFound(t, status, e, a);
      }
    }

    // ---------- checking all dependencies ----------

    /** Whether every clause among the edges of a package has an alternative that is satisfied. */
    method CheckPackage(edges: seq<Edge>, ghost segs: seq<Segment>) returns (ok: bool)
      requires Valid() && AllOk(segs) && edges == FlatAll(segs)
      ensures ok <==> AllHold(packages[..], status, segs)
    {
      hide Satisfied, FlatAll, Segment.Flat, TableOk;
      ghost var t := packages[..];
      var j: nat, number: nat, root: Option<Edge> := 0, 0, None;
      ghost var m: nat, k: nat := 0, 0;
      NoSegments(t, status, segs);
      while j < |edges|
        invariant Scanning(t, status, segs, m, k, j, number, root)
        decreases |edges| - j
      {
        InSegment(t, status, segs, m, k, j, number, root);
        var e := edges[j];
        if e.OrRoot? {
          // Several alternatives follow.
          number, root := e.count, Some(e);
          j := j + 1;
          continue;
        }
        if number == 0 {
          number, root := 1, None;
        }
        if e.Depends? {
          var holds := CheckEdge(e);
          number := number - 1;
          if (!holds && number == 0) || (root.Some? && root.value.pre != e.pre) {
            Unsatisfied(t, status, segs, m);
            return false;
          }
          if !holds {
            k := k + 1;
          } else {
            // The rest of the alternatives are skipped.
            if number > 0 {
              j := j + number;
              number := 0;
            }
            SegmentDone(t, status, segs, m);
            m, k := m + 1, 0;
          }
        } else {
          SegmentDone(t, status, segs, m);
          m := m + 1;
        }
        j := j + 1;
      }
      ScanEnds(t, status, segs, m, k, j, number, root);
      return true;
    }

    /** The dependency phase succeeds if and only if every clause of every wanted package can be satisfied. */
    method CheckDeps() returns (ok: bool)
      requires Valid()
      ensures ok <==> Consistent(packages[..], status, clauses)
    {
      hide AllHold, TableOk, FlatAll;
      var i := 0;
      while i < packages.Length
        invariant i <= packages.Length
        invariant forall a: nat :: a < i && packages[a].Some? && Wanted(status, packages[a].value.name) ==>
                    AllHold(packages[..], status, clauses[a])
      {
        if packages[i].Some? {
          var p := packages[i].value;
          if p.name in status && status[p.name].wanted {
            var fine := CheckPackage(p.edges, clauses[i]);
            if !fine {
              return false;
            }
          }
        }
        i := i + 1;
      }
      return true;
    }
  }

  /** The search came to a free slot before any match. */
  lemma NoMatch(t: Packages, b: nat, name: text, version: text, rel: Relation, h: Hash, i: nat)
    requires |t| > 0 && (forall a: nat :: a < |t| && t[a].Some? ==> Reached(t, a)) && h == HashOf(name, |t|)
    requires t[Probe(h, |t|, i)] == None
    requires forall j: nat :: j < i ==> !Matches(t, Probe(h, |t|, j), name, version, rel)
    ensures !Matches(t, b, name, version, rel)
  {
    hide Probe, HashOf, Holds;
    if b < |t| && t[b].Some? && t[b].value.name == name {
      assert Reached(t, b);
      var k: nat :| OnTheWay(t, h, b, k);
    }
  }
}
