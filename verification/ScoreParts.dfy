/**
 algorithms/similarity.py, part by part: what each configured weight pays for, what the overlaps
 count, and the scores of pairs alike in everything and in nothing.
 */
module ScoreParts {
  import opened Wrappers
  import opened Attributes
  import opened Sequences
  import opened Similarity
  import Text

  type Embeddings = map<string, seq<real>>

  /** What the configuration pays for a feature: nothing when it does not name it. */
  ghost function Pays(cfg: Config, name: string): real { if name in cfg.weights then cfg.weights[name] else 0.0 }

  ghost function Vector(emb: Embeddings, id: string): seq<real> { if id in emb then emb[id] else [] }

  // ------------------------------------------------------- what each weight pays for

  /** The score is the sum of the five configured weights, each times its own overlap. */
  ghost predicate Adds(cfg: Config, score: real, f: Features) {
    score == Pays(cfg, "lexical") * f.lexical + Pays(cfg, "embedding") * f.embedding + Pays(cfg, "type") * f.types +
             Pays(cfg, "constraints") * f.constraints + Pays(cfg, "context") * f.context
  }

  lemma CombinedAdds(cfg: Config, f: Features)
    ensures Adds(cfg, Combine(cfg, f), f)
  {
  }

  /** The context of a pair: the parents for one half, the siblings for the other. */
  ghost function Halves(parents: real, siblings: real): real { 0.5 * parents + 0.5 * siblings }

  /** The five overlaps of a pair, each of what its name says. */
  ghost function Overlaps(cfg: Config, emb: Embeddings, a: Attribute, b: Attribute): Features {
    Features(
      lexical := Jaccard(Elements(a.tokens), Elements(b.tokens)),
      embedding := Cosine(cfg.sqrt, Vector(emb, a.id), Vector(emb, b.id)),
      types := TypeCompatibility(cfg, a.dataType, b.dataType),
      constraints := ConstraintOverlap(cfg, a, b),
      context := Halves(PathSimilarity(a.parentPath, b.parentPath),
                        Jaccard(Elements(a.siblingNames), Elements(b.siblingNames))))
  }

  lemma FiveParts(cfg: Config, emb: Embeddings, a: Attribute, b: Attribute)
    ensures Adds(cfg, Score(cfg, emb, a, b), Overlaps(cfg, emb, a, b))
  {
    CombinedAdds(cfg, FeaturesOf(cfg, emb, a, b));
  }

  /** From low to high the score moves by the weight of that name times the move of the overlap. */
  ghost predicate MovesBy(cfg: Config, name: string, low: real, high: real, before: real, after: real) {
    high - low == Pays(cfg, name) * (after - before)
  }

  /** The same for one half of the context. */
  ghost predicate MovesByHalf(cfg: Config, low: real, high: real, before: real, after: real) {
    high - low == Pays(cfg, "context") * ((after - before) / 2.0)
  }

  lemma LexicalMoves(cfg: Config, low: real, high: real, f: Features, x: real)
    requires Adds(cfg, low, f) && Adds(cfg, high, f.(lexical := x))
    ensures MovesBy(cfg, "lexical", low, high, f.lexical, x)
  {
  }

  lemma EmbeddingMoves(cfg: Config, low: real, high: real, f: Features, x: real)
    requires Adds(cfg, low, f) && Adds(cfg, high, f.(embedding := x))
    ensures MovesBy(cfg, "embedding", low, high, f.embedding, x)
  {
  }

  lemma TypeMoves(cfg: Config, low: real, high: real, f: Features, x: real)
    requires Adds(cfg, low, f) && Adds(cfg, high, f.(types := x))
    ensures MovesBy(cfg, "type", low, high, f.types, x)
  {
  }

  lemma ConstraintsMove(cfg: Config, low: real, high: real, f: Features, x: real)
    requires Adds(cfg, low, f) && Adds(cfg, high, f.(constraints := x))
    ensures MovesBy(cfg, "constraints", low, high, f.constraints, x)
  {
  }

  lemma ContextMoves(cfg: Config, low: real, high: real, f: Features, p: real, s: real, p': real, s': real)
    requires Adds(cfg, low, f) && f.context == Halves(p, s) && Adds(cfg, high, f.(context := Halves(p', s')))
    ensures s == s' ==> MovesByHalf(cfg, low, high, p, p')
    ensures p == p' ==> MovesByHalf(cfg, low, high, s, s')
  {
    var w, x := Pays(cfg, "context"), Halves(p', s');
    assert high - low == w * x - w * f.context == w * (x - f.context);
    if s == s' { assert x - f.context == (p' - p) / 2.0; }
    if p == p' { assert x - f.context == (s' - s) / 2.0; }
  }

  /** The constraint overlap sees the code lists and the constraints and nothing else. */
  lemma SameOverlap(cfg: Config, a: Attribute, b: Attribute, c: Attribute, d: Attribute)
    requires a.enumeration == c.enumeration && a.constraints == c.constraints
    requires b.enumeration == d.enumeration && b.constraints == d.constraints
    ensures ConstraintOverlap(cfg, a, b) == ConstraintOverlap(cfg, c, d)
  {
    assert Codes(cfg, a) == Codes(cfg, c) && Codes(cfg, b) == Codes(cfg, d);
  }

  /** Pairs that differ only in their tokens: the lexical weight pays the difference of their
      overlaps. */
  lemma TokensPay(cfg: Config, emb: Embeddings, a: Attribute, b: Attribute, s: seq<string>, t: seq<string>)
    ensures MovesBy(cfg, "lexical", Score(cfg, emb, a, b), Score(cfg, emb, a.(tokens := s), b.(tokens := t)),
              Jaccard(Elements(a.tokens), Elements(b.tokens)), Jaccard(Elements(s), Elements(t)))
  {
    var a', b' := a.(tokens := s), b.(tokens := t);
    FiveParts(cfg, emb, a, b);
    FiveParts(cfg, emb, a', b');
    SameOverlap(cfg, a, b, a', b');
    LexicalMoves(cfg, Score(cfg, emb, a, b), Score(cfg, emb, a', b'), Overlaps(cfg, emb, a, b),
        Jaccard(Elements(s), Elements(t)));
  }

  /** Only in their vectors: the embedding weight pays the difference of the cosines. */
  lemma VectorsPay(cfg: Config, emb: Embeddings, emb': Embeddings, a: Attribute, b: Attribute)
    ensures MovesBy(cfg, "embedding", Score(cfg, emb, a, b), Score(cfg, emb', a, b),
              Cosine(cfg.sqrt, Vector(emb, a.id), Vector(emb, b.id)),
              Cosine(cfg.sqrt, Vector(emb', a.id), Vector(emb', b.id)))
  {
    FiveParts(cfg, emb, a, b);
    FiveParts(cfg, emb', a, b);
    EmbeddingMoves(cfg, Score(cfg, emb, a, b), Score(cfg, emb', a, b), Overlaps(cfg, emb, a, b),
        Cosine(cfg.sqrt, Vector(emb', a.id), Vector(emb', b.id)));
  }

  /** Only in their data types: the type weight pays the difference of the compatibilities. */
  lemma TypesPay(cfg: Config, emb: Embeddings, a: Attribute, b: Attribute, s: string, t: string)
    ensures MovesBy(cfg, "type", Score(cfg, emb, a, b), Score(cfg, emb, a.(dataType := s), b.(dataType := t)),
              TypeCompatibility(cfg, a.dataType, b.dataType), TypeCompatibility(cfg, s, t))
  {
    var a', b' := a.(dataType := s), b.(dataType := t);
    FiveParts(cfg, emb, a, b);
    FiveParts(cfg, emb, a', b');
    SameOverlap(cfg, a, b, a', b');
    TypeMoves(cfg, Score(cfg, emb, a, b), Score(cfg, emb, a', b'), Overlaps(cfg, emb, a, b),
        TypeCompatibility(cfg, s, t));
  }

  ghost predicate AlikeBeside(a: Attribute, b: Attribute) {
    && a.id == b.id && a.tokens == b.tokens && a.dataType == b.dataType && a.parentPath == b.parentPath
    && a.siblingNames == b.siblingNames
  }

  /** Only in their code lists and constraints: the constraint weight pays the difference of the
      constraint overlaps. */
  lemma ConstraintsPay(cfg: Config, emb: Embeddings, a: Attribute, b: Attribute, c: Attribute, d: Attribute)
    requires AlikeBeside(a, c) && AlikeBeside(b, d)
    ensures MovesBy(cfg, "constraints", Score(cfg, emb, a, b), Score(cfg, emb, c, d),
              ConstraintOverlap(cfg, a, b), ConstraintOverlap(cfg, c, d))
  {
    FiveParts(cfg, emb, a, b);
    FiveParts(cfg, emb, c, d);
    ConstraintsMove(cfg, Score(cfg, emb, a, b), Score(cfg, emb, c, d), Overlaps(cfg, emb, a, b),
        ConstraintOverlap(cfg, c, d));
  }

  /** Only in their parent paths: half the context weight pays the difference. */
  lemma ParentsPay(cfg: Config, emb: Embeddings, a: Attribute, b: Attribute, p: Option<string>, q: Option<string>)
    ensures MovesByHalf(cfg, Score(cfg, emb, a, b), Score(cfg, emb, a.(parentPath := p), b.(parentPath := q)),
              PathSimilarity(a.parentPath, b.parentPath), PathSimilarity(p, q))
  {
    var a', b' := a.(parentPath := p), b.(parentPath := q);
    FiveParts(cfg, emb, a, b);
    FiveParts(cfg, emb, a', b');
    SameOverlap(cfg, a, b, a', b');
    var siblings := Jaccard(Elements(a.siblingNames), Elements(b.siblingNames));
    ContextMoves(cfg, Score(cfg, emb, a, b), Score(cfg, emb, a', b'), Overlaps(cfg, emb, a, b),
        PathSimilarity(a.parentPath, b.parentPath), siblings, PathSimilarity(p, q), siblings);
  }

  /** Only in their siblings: the other half does. */
  lemma SiblingsPay(cfg: Config, emb: Embeddings, a: Attribute, b: Attribute, s: seq<string>, t: seq<string>)
    ensures MovesByHalf(cfg, Score(cfg, emb, a, b), Score(cfg, emb, a.(siblingNames := s), b.(siblingNames := t)),
              Jaccard(Elements(a.siblingNames), Elements(b.siblingNames)), Jaccard(Elements(s), Elements(t)))
  {
    var a', b' := a.(siblingNames := s), b.(siblingNames := t);
    FiveParts(cfg, emb, a, b);
    FiveParts(cfg, emb, a', b');
    SameOverlap(cfg, a, b, a', b');
    var parents := PathSimilarity(a.parentPath, b.parentPath);
    ContextMoves(cfg, Score(cfg, emb, a, b), Score(cfg, emb, a', b'), Overlaps(cfg, emb, a, b), parents,
        Jaccard(Elements(a.siblingNames), Elements(b.siblingNames)), parents, Jaccard(Elements(s), Elements(t)));
  }

  // --------------------------------------------------------------- what the overlaps count

  lemma Quotient(n: real, d: real, r: real)
    requires d != 0.0 && r == n / d
    ensures r * d == n && (r == 0.0 <==> n == 0.0) && (r == 1.0 <==> n == d)
  {
  }

  /** Shared elements over all elements; full exactly for one non-empty set, none exactly for
      disjoint ones. */
  ghost predicate Counts(r: real, a: set<string>, b: set<string>) {
    && r * |a + b| as real == |a * b| as real
    && (r == 1.0 <==> a == b && a != {}) && (r == 0.0 <==> a !! b)
  }

  lemma JaccardCounts(a: set<string>, b: set<string>)
    ensures Counts(Jaccard(a, b), a, b)
  {
    InsideUnion(a, b);
    if a + b != {} {
      Quotient(|a * b| as real, |a + b| as real, Jaccard(a, b));
      SharedIsAll(a, b);
    } else {
      assert a == {} && b == {} && a * b == {};
    }
  }

  lemma SharedIsAll(a: set<string>, b: set<string>)
    ensures |a * b| == |a + b| <==> a == b
    ensures |a * b| == 0 <==> a !! b
  {
    var shared, rest := a * b, (a + b) - (a * b);
    assert a + b == shared + rest;
    if |shared| == |a + b| { assert rest == {}; }
    if a == b { assert shared == a && a + b == a; }
  }

  /** Paths overlap as the sets of their dot-separated parts do; a missing one overlaps nothing. */
  lemma PathCounts(p: Option<string>, q: Option<string>)
    ensures p.None? || q.None? ==> PathSimilarity(p, q) == 0.0
    ensures p.Some? && q.Some? ==>
              Counts(PathSimilarity(p, q), Elements(Text.SplitOn(p.value, ".")), Elements(Text.SplitOn(q.value, ".")))
  {
    if p.Some? && q.Some? {
      JaccardCounts(Elements(Text.SplitOn(p.value, ".")), Elements(Text.SplitOn(q.value, ".")));
    }
  }

  ghost predicate RowOf(row: (string, string, real), s: string, t: string) {
    (row.0 == s && row.1 == t) || (row.0 == t && row.1 == s)
  }

  ghost predicate FirstRow(table: seq<(string, string, real)>, s: string, t: string, i: int) {
    0 <= i < |table| && RowOf(table[i], s, t) && forall j :: 0 <= j < i ==> !RowOf(table[j], s, t)
  }

  lemma RowMatches(row: (string, string, real), s: string, t: string)
    ensures {row.0, row.1} == {s, t} <==> RowOf(row, s, t)
  {
    if {row.0, row.1} == {s, t} {
      assert row.0 in {s, t} && row.1 in {s, t} && s in {row.0, row.1} && t in {row.0, row.1};
    }
  }

  lemma {:induction false} TableByFirstRow(table: seq<(string, string, real)>, s: string, t: string)
    ensures forall i :: FirstRow(table, s, t, i) ==> TableScore(table, s, t) == table[i].2
    ensures (forall i :: 0 <= i < |table| ==> !RowOf(table[i], s, t)) ==> TableScore(table, s, t) == 0.0
  {
    if table != [] {
      var rest := table[1..];
      RowMatches(table[0], s, t);
      TableByFirstRow(rest, s, t);
      assert forall i :: 0 <= i < |rest| ==> rest[i] == table[i + 1];
      forall i | FirstRow(table, s, t, i) && i > 0 ensures FirstRow(rest, s, t, i - 1) {}
    }
  }

  /** One type fits itself fully; two fit as the first row that names both says, in either order,
      and not at all without one. */
  lemma TypeByFirstRow(cfg: Config, s: string, t: string)
    ensures s == t ==> TypeCompatibility(cfg, s, t) == 1.0
    ensures s != t ==> forall i :: FirstRow(cfg.typeCompatibility, s, t, i) ==>
              TypeCompatibility(cfg, s, t) == cfg.typeCompatibility[i].2
    ensures s != t && (forall i :: 0 <= i < |cfg.typeCompatibility| ==> !RowOf(cfg.typeCompatibility[i], s, t)) ==>
              TypeCompatibility(cfg, s, t) == 0.0
  {
    TableByFirstRow(cfg.typeCompatibility, s, t);
  }

  ghost function Upper(cfg: Config, codes: seq<string>): set<string> { set c | c in codes :: cfg.upper(c) }

  lemma UpperIsCodes(cfg: Config, a: Attribute)
    ensures Codes(cfg, a) == Upper(cfg, a.enumeration)
    ensures a.enumeration != [] ==> Codes(cfg, a) != {}
  {
    forall x ensures x in Codes(cfg, a) <==> x in Upper(cfg, a.enumeration) {
      if x in Upper(cfg, a.enumeration) {
        var c :| c in a.enumeration && cfg.upper(c) == x;
        var i :| 0 <= i < |a.enumeration| && a.enumeration[i] == c;
        assert cfg.upper(a.enumeration[i]) == x;
      }
    }
    if a.enumeration != [] { assert cfg.upper(a.enumeration[0]) in Codes(cfg, a); }
  }

  /** Two code lists decide alone: shared codes over all codes, whatever their case. */
  lemma CodesDecide(cfg: Config, a: Attribute, b: Attribute)
    requires a.enumeration != [] && b.enumeration != []
    ensures Counts(ConstraintOverlap(cfg, a, b), Upper(cfg, a.enumeration), Upper(cfg, b.enumeration))
  {
    UpperIsCodes(cfg, a);
    UpperIsCodes(cfg, b);
    InsideUnion(Codes(cfg, a), Codes(cfg, b));
    RatioCounts(Codes(cfg, a), Codes(cfg, b), ConstraintOverlap(cfg, a, b));
  }

  lemma RatioCounts(x: set<string>, y: set<string>, r: real)
    requires |x + y| > 0 && x + y != {} && r == |x * y| as real / (if |x + y| > 1 then |x + y| else 1) as real
    ensures Counts(r, x, y)
  {
    Quotient(|x * y| as real, |x + y| as real, r);
    SharedIsAll(x, y);
  }

  /** Without two code lists the constraints decide: half when nobody has any, 0.3 when one side
      has. */
  lemma ConstraintsDecide(cfg: Config, a: Attribute, b: Attribute)
    requires a.enumeration == [] || b.enumeration == []
    ensures a.constraints == [] && b.constraints == [] ==> ConstraintOverlap(cfg, a, b) == 0.5
    ensures (a.constraints == []) != (b.constraints == []) ==> ConstraintOverlap(cfg, a, b) == 0.3
    ensures a.constraints != [] && b.constraints != [] ==>
              ConstraintOverlap(cfg, a, b) == PatternRangeSimilarity(cfg, a.constraints, b.constraints)
  {
  }

  // ------------------------------------------------------------------ constraint by constraint

  /** Of two intervals bounded on all four sides: the length they share over the length they span,
      or full when that is nothing. */
  lemma IntervalByLength(a: Bounds, b: Bounds, lo: real, hi: real, low: real, high: real)
    requires a == (Some(lo), Some(hi)) && b == (Some(low), Some(high))
    ensures var span := Larger(hi, high) - Smaller(lo, low);
            var shared := Larger(0.0, Smaller(hi, high) - Larger(lo, low));
            && IntervalOverlap(a, b).Some?
            && (span == 0.0 ==> IntervalOverlap(a, b).value == 1.0)
            && (span != 0.0 ==> Shares(IntervalOverlap(a, b).value, shared, span))
  {
    var span := Larger(hi, high) - Smaller(lo, low);
    var shared := Larger(0.0, Smaller(hi, high) - Larger(lo, low));
    if span != 0.0 { Quotient(shared, span, IntervalOverlap(a, b).value); }
  }

  ghost predicate Shares(r: real, shared: real, span: real) { r * span == shared }

  /** With a side open somewhere the overlap is all or nothing, and a side without any bound
      compares with none. */
  lemma OpenIntervals(a: Bounds, b: Bounds)
    ensures !Bounded(a) || !Bounded(b) <==> IntervalOverlap(a, b).None?
    ensures Bounded(a) && Bounded(b) && (a.0.None? || a.1.None? || b.0.None? || b.1.None?) ==>
              IntervalOverlap(a, b) ==
                Some(if (a.0.None? && b.0.None?) || (a.1.None? && b.1.None?) then 1.0 else 0.0)
  {
  }

  /** The constraint states this bound under this key. */
  ghost predicate States(cfg: Config, c: Constraint, kind: Kind, key: string, x: real) {
    c.kind == kind && cfg.readBound(c.expression) == Some((key, x))
  }

  /** The bound of a kind under a key: what the last constraint to state one states. */
  ghost predicate BoundIs(cfg: Config, cs: seq<Constraint>, kind: Kind, key: string, bound: Option<real>) {
    match bound
    case None => forall i, x :: 0 <= i < |cs| ==> !States(cfg, cs[i], kind, key, x)
    case Some(x) =>
      exists i :: 0 <= i < |cs| && States(cfg, cs[i], kind, key, x) &&
                  forall j, y :: i < j < |cs| ==> !States(cfg, cs[j], kind, key, y)
  }

  lemma StatedIs(cfg: Config, c: Constraint, kind: Kind, key: string)
    ensures forall x :: Stated(cfg, c, kind, key) == Some(x) <==> States(cfg, c, kind, key, x)
    ensures Stated(cfg, c, kind, key).None? <==> forall x :: !States(cfg, c, kind, key, x)
  {
    if Stated(cfg, c, kind, key).Some? { assert States(cfg, c, kind, key, Stated(cfg, c, kind, key).value); }
  }

  lemma {:induction false} LastBoundIs(cfg: Config, cs: seq<Constraint>, kind: Kind, key: string, bound: Option<real>)
    requires BoundIs(cfg, cs, kind, key, bound)
    ensures LastBound(cfg, cs, kind, key) == bound
  {
    if bound.None? {
      forall i | 0 <= i < |cs| ensures Stated(cfg, cs[i], kind, key).None? { StatedIs(cfg, cs[i], kind, key); }
      UnboundedIffUnstated(cfg, cs, kind, key);
    } else {
      var i :| 0 <= i < |cs| && States(cfg, cs[i], kind, key, bound.value) &&
               forall j, y :: i < j < |cs| ==> !States(cfg, cs[j], kind, key, y);
      forall j | i < j < |cs| ensures Stated(cfg, cs[j], kind, key).None? { StatedIs(cfg, cs[j], kind, key); }
      StatedIs(cfg, cs[i], kind, key);
      BoundIsLastStated(cfg, cs, kind, key, i);
    }
  }

  ghost predicate Occurs(cs: seq<Constraint>, kind: Kind) { exists i :: 0 <= i < |cs| && cs[i].kind == kind }

  /** Ranges and lengths both sides constrain overlap as the intervals between their bounds do. */
  lemma BoundsDecide(cfg: Config, kind: Kind, a: seq<Constraint>, b: seq<Constraint>, x: Bounds, y: Bounds)
    requires Occurs(a, kind) && Occurs(b, kind) && (kind.Range? || kind.Length?)
    requires var low, high := if kind.Range? then "minimum" else "minLength", if kind.Range? then "maximum"
             else "maxLength";
             && BoundIs(cfg, a, kind, low, x.0) && BoundIs(cfg, a, kind, high, x.1)
             && BoundIs(cfg, b, kind, low, y.0) && BoundIs(cfg, b, kind, high, y.1)
    ensures KindScore(cfg, kind, a, b) == IntervalOverlap(x, y)
  {
    var low, high := if kind.Range? then "minimum" else "minLength", if kind.Range? then "maximum" else "maxLength";
    LastBoundIs(cfg, a, kind, low, x.0);
    LastBoundIs(cfg, a, kind, high, x.1);
    LastBoundIs(cfg, b, kind, low, y.0);
    LastBoundIs(cfg, b, kind, high, y.1);
  }

  ghost predicate Expressed(cs: seq<Constraint>, kind: Kind, e: string) { Constraint(kind, e) in cs }

  /** Constraints of the other kinds agree fully when both sides express the same, else not at all. */
  lemma ExpressionsDecide(cfg: Config, kind: Kind, a: seq<Constraint>, b: seq<Constraint>)
    requires Occurs(a, kind) && Occurs(b, kind) && !kind.Range? && !kind.Length?
    ensures KindScore(cfg, kind, a, b) ==
            Some(if forall e :: Expressed(a, kind, e) <==> Expressed(b, kind, e) then 1.0 else 0.0)
  {
    forall cs: seq<Constraint>, e ensures e in Expressions(cs, kind) <==> Expressed(cs, kind, e) {
      if Expressed(cs, kind, e) {
        var i :| 0 <= i < |cs| && cs[i] == Constraint(kind, e);
        assert cs[i].kind == kind && cs[i].expression == e;
      }
    }
    if forall e :: Expressed(a, kind, e) <==> Expressed(b, kind, e) {
      assert Expressions(a, kind) == Expressions(b, kind);
    } else {
      var e :| Expressed(a, kind, e) != Expressed(b, kind, e);
      assert (e in Expressions(a, kind)) != (e in Expressions(b, kind));
    }
  }

  /** The kinds both sides constrain and that compare, each once, with their scores in order. */
  ghost predicate Comparable(cfg: Config, a: seq<Constraint>, b: seq<Constraint>, kinds: seq<Kind>, scores: seq<real>) {
    && NoRepeats(kinds) && |scores| == |kinds|
    && (forall k :: k in kinds <==> Occurs(a, k) && Occurs(b, k) && KindScore(cfg, k, a, b).Some?)
    && forall i :: 0 <= i < |kinds| ==> KindScore(cfg, kinds[i], a, b) == Some(scores[i])
  }

  ghost function ScoreOf(cfg: Config, a: seq<Constraint>, b: seq<Constraint>): Kind -> Option<real> {
    (kind: Kind) => KindScore(cfg, kind, a, b)
  }

  /** The scores there are, in the order of the kinds. */
  ghost function Given(kinds: seq<Kind>, score: Kind -> Option<real>): seq<real> {
    if kinds == [] then []
    else (if score(kinds[0]).Some? then [score(kinds[0]).value] else []) + Given(kinds[1..], score)
  }

  lemma {:induction false} KindScoresGiven(cfg: Config, kinds: seq<Kind>, a: seq<Constraint>, b: seq<Constraint>)
    ensures KindScores(cfg, kinds, a, b) == Given(kinds, ScoreOf(cfg, a, b))
  {
    if kinds != [] { KindScoresGiven(cfg, kinds[1..], a, b); }
  }

  lemma {:induction false} ScoredKinds(all: seq<Kind>, score: Kind -> Option<real>) returns (kinds: seq<Kind>)
    requires NoRepeats(all)
    ensures NoRepeats(kinds) && |Given(all, score)| == |kinds|
    ensures forall k :: k in kinds <==> k in all && score(k).Some?
    ensures forall i :: 0 <= i < |kinds| ==> score(kinds[i]) == Some(Given(all, score)[i])
  {
    kinds := [];
    if all != [] {
      assert all == [all[0]] + all[1..];
      var rest := ScoredKinds(all[1..], score);
      assert all[0] !in all[1..] && all[0] !in rest;
      if score(all[0]).Some? {
        kinds := [all[0]] + rest;
        assert Given(all, score) == [score(all[0]).value] + Given(all[1..], score);
      } else {
        kinds := rest;
        assert Given(all, score) == Given(all[1..], score);
      }
    }
  }

  lemma EveryKind(k: Kind)
    ensures k in KINDS
  {
    match k
    case Length => assert KINDS[0] == k;
    case Pattern => assert KINDS[1] == k;
    case Range => assert KINDS[2] == k;
    case Format => assert KINDS[3] == k;
    case CrossField => assert KINDS[4] == k;
    case Custom => assert KINDS[5] == k;
  }

  lemma AllOnce()
    ensures NoRepeats(KINDS)
  {
  }

  ghost function Mean(xs: seq<real>): real { if xs == [] then 0.0 else Sum(xs) / |xs| as real }

  lemma MeanShares(xs: seq<real>)
    ensures xs != [] ==> Shares(Mean(xs), Sum(xs), |xs| as real)
  {
    if xs != [] { Quotient(Sum(xs), |xs| as real, Mean(xs)); }
  }

  lemma MeanOver(cfg: Config, all: seq<Kind>, a: seq<Constraint>, b: seq<Constraint>)
    returns (kinds: seq<Kind>, scores: seq<real>)
    requires NoRepeats(all) && forall k :: k in all
    ensures Comparable(cfg, a, b, kinds, scores) && scores == KindScores(cfg, all, a, b)
  {
    kinds := ScoredKinds(all, ScoreOf(cfg, a, b));
    scores := KindScores(cfg, all, a, b);
    KindScoresGiven(cfg, all, a, b);
    assert forall k :: ScoreOf(cfg, a, b)(k).Some? ==> HasKind(a, k) && HasKind(b, k);
  }

  /** When both sides have constraints the score is the mean over those kinds, or zero without any. */
  lemma MeanOverKinds(cfg: Config, a: seq<Constraint>, b: seq<Constraint>) returns (kinds: seq<Kind>, scores: seq<real>)
    requires a != [] && b != []
    ensures Comparable(cfg, a, b, kinds, scores)
    ensures kinds == [] ==> PatternRangeSimilarity(cfg, a, b) == 0.0
    ensures kinds != [] ==> Shares(PatternRangeSimilarity(cfg, a, b), Sum(scores), |kinds| as real)
  {
    AllOnce();
    forall k: Kind ensures k in KINDS { EveryKind(k); }
    kinds, scores := MeanOver(cfg, KINDS, a, b);
    MeanShares(scores);
  }

  // ------------------------------------------------------------- alike in everything, nothing

  ghost predicate Alike(cfg: Config, emb: Embeddings, a: Attribute, b: Attribute) {
    && a.tokens != [] && Elements(a.tokens) == Elements(b.tokens)
    && Vector(emb, a.id) == Vector(emb, b.id) && Squares(Vector(emb, a.id)) > 0.0
    && a.dataType == b.dataType
    && a.enumeration != [] && b.enumeration != [] && Upper(cfg, a.enumeration) == Upper(cfg, b.enumeration)
    && a.parentPath.Some? && a.parentPath == b.parentPath
    && a.siblingNames != [] && Elements(a.siblingNames) == Elements(b.siblingNames)
  }

  ghost predicate Unlike(cfg: Config, emb: Embeddings, a: Attribute, b: Attribute) {
    && Elements(a.tokens) !! Elements(b.tokens)
    && Dot(Vector(emb, a.id), Vector(emb, b.id)) == 0.0
    && a.dataType != b.dataType
    && (forall i :: 0 <= i < |cfg.typeCompatibility| ==> !RowOf(cfg.typeCompatibility[i], a.dataType, b.dataType))
    && a.enumeration != [] && b.enumeration != [] && Upper(cfg, a.enumeration) !! Upper(cfg, b.enumeration)
    && a.parentPath.None?
    && Elements(a.siblingNames) !! Elements(b.siblingNames)
  }

  lemma {:induction false} DotWithItself(v: seq<real>)
    ensures Dot(v, v) == Squares(v)
  {
    if v != [] { DotWithItself(v[1..]); }
  }

  /** The cosine of two vectors times their norms is the sum of the products; of a zero vector, or
      beside an empty one, it is zero. */
  lemma CosineIsDot(sqrt: real -> real, v: seq<real>, w: seq<real>)
    requires IsSqrt(sqrt)
    ensures Squares(v) > 0.0 && Squares(w) > 0.0 ==>
              Normed(Cosine(sqrt, v, w), Dot(v, w), sqrt(Squares(v)), sqrt(Squares(w)))
    ensures Squares(v) == 0.0 || Squares(w) == 0.0 || Dot(v, w) == 0.0 ==> Cosine(sqrt, v, w) == 0.0
  {
    SquaresNonNegative(v);
    SquaresNonNegative(w);
    RootZero(sqrt, Squares(v));
    RootZero(sqrt, Squares(w));
    RatioNormed(Dot(v, w), sqrt(Squares(v)), sqrt(Squares(w)));
  }

  ghost predicate Normed(cosine: real, dot: real, n: real, m: real) { cosine * (n * m) == dot }

  lemma RatioNormed(dot: real, n: real, m: real)
    ensures n != 0.0 && m != 0.0 ==> Normed(Ratio(dot, n, m), dot, n, m)
    ensures n == 0.0 || m == 0.0 || dot == 0.0 ==> Ratio(dot, n, m) == 0.0
  {
    if n != 0.0 && m != 0.0 {
      NonZeroProduct(n, m);
      Quotient(dot, n * m, Ratio(dot, n, m));
    }
  }

  lemma RootZero(sqrt: real -> real, x: real)
    requires IsSqrt(sqrt) && x >= 0.0
    ensures sqrt(x) == 0.0 <==> x == 0.0
  {
    if sqrt(x) > 0.0 { ProductIsPositive(sqrt(x), sqrt(x), x); }
  }

  lemma ProductIsPositive(p: real, q: real, x: real)
    requires p > 0.0 && q > 0.0 && x == p * q
    ensures x > 0.0
  {
  }

  lemma CosineWithItself(sqrt: real -> real, v: seq<real>)
    requires IsSqrt(sqrt) && Squares(v) > 0.0
    ensures Cosine(sqrt, v, v) == 1.0
  {
    DotWithItself(v);
    RootZero(sqrt, Squares(v));
    NonZeroProduct(sqrt(Squares(v)), sqrt(Squares(v)));
    Quotient(Squares(v), sqrt(Squares(v)) * sqrt(Squares(v)), Cosine(sqrt, v, v));
  }

  /** These are the products of the components the vectors share. */
  ghost predicate Products(ps: seq<real>, v: seq<real>, w: seq<real>) {
    && |ps| == (if |v| <= |w| then |v| else |w|)
    && forall i :: 0 <= i < |ps| ==> IsProduct(ps[i], v[i], w[i])
  }

  ghost predicate IsProduct(p: real, x: real, y: real) { p == x * y }

  lemma TailProducts(ps: seq<real>, v: seq<real>, w: seq<real>)
    requires Products(ps, v, w) && ps != []
    ensures Products(ps[1..], v[1..], w[1..]) && IsProduct(ps[0], v[0], w[0])
  {
    forall i | 0 <= i < |ps| - 1 ensures IsProduct(ps[1..][i], v[1..][i], w[1..][i]) {
      assert IsProduct(ps[i + 1], v[i + 1], w[i + 1]);
    }
  }

  /** The dot product adds them up, and no others. */
  lemma {:induction false} DotAddsUp(ps: seq<real>, v: seq<real>, w: seq<real>)
    requires Products(ps, v, w)
    ensures Dot(v, w) == Sum(ps)
  {
    if ps != [] {
      TailProducts(ps, v, w);
      DotAddsUp(ps[1..], v[1..], w[1..]);
    }
  }

  lemma AllOnes(cfg: Config, score: real, f: Features)
    requires Adds(cfg, score, f)
    ensures f == Features(1.0, 1.0, 1.0, 1.0, 1.0) ==>
              score == Pays(cfg, "lexical") + Pays(cfg, "embedding") + Pays(cfg, "type") + Pays(cfg, "constraints") +
                       Pays(cfg, "context")
    ensures f == Features(0.0, 0.0, 0.0, 0.0, 0.0) ==> score == 0.0
  {
  }

  /** A pair alike in everything scores all five weights. */
  lemma AlikeScoresAll(cfg: Config, emb: Embeddings, a: Attribute, b: Attribute)
    requires IsSqrt(cfg.sqrt) && Alike(cfg, emb, a, b)
    ensures Score(cfg, emb, a, b) == Pays(cfg, "lexical") + Pays(cfg, "embedding") + Pays(cfg, "type") +
            Pays(cfg, "constraints") + Pays(cfg, "context")
  {
    assert a.tokens[0] in Elements(a.tokens) && a.siblingNames[0] in Elements(a.siblingNames);
    JaccardCounts(Elements(a.tokens), Elements(b.tokens));
    JaccardCounts(Elements(a.siblingNames), Elements(b.siblingNames));
    CosineWithItself(cfg.sqrt, Vector(emb, a.id));
    TypeByFirstRow(cfg, a.dataType, b.dataType);
    CodesDecide(cfg, a, b);
    PathCounts(a.parentPath, b.parentPath);
    UpperIsCodes(cfg, a);
    assert Text.SplitOn(a.parentPath.value, ".")[0] in Elements(Text.SplitOn(a.parentPath.value, "."));
    assert Overlaps(cfg, emb, a, b) == Features(1.0, 1.0, 1.0, 1.0, 1.0);
    FiveParts(cfg, emb, a, b);
    AllOnes(cfg, Score(cfg, emb, a, b), Overlaps(cfg, emb, a, b));
  }

  /** A pair alike in nothing scores nothing. */
  lemma UnlikeScoresNothing(cfg: Config, emb: Embeddings, a: Attribute, b: Attribute)
    requires IsSqrt(cfg.sqrt) && Unlike(cfg, emb, a, b)
    ensures Score(cfg, emb, a, b) == 0.0
  {
    JaccardCounts(Elements(a.tokens), Elements(b.tokens));
    JaccardCounts(Elements(a.siblingNames), Elements(b.siblingNames));
    CosineIsDot(cfg.sqrt, Vector(emb, a.id), Vector(emb, b.id));
    TypeByFirstRow(cfg, a.dataType, b.dataType);
    CodesDecide(cfg, a, b);
    PathCounts(a.parentPath, b.parentPath);
    assert Overlaps(cfg, emb, a, b) == Features(0.0, 0.0, 0.0, 0.0, 0.0);
    FiveParts(cfg, emb, a, b);
    AllOnes(cfg, Score(cfg, emb, a, b), Overlaps(cfg, emb, a, b));
  }
}
