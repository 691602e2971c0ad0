/**
 algorithms/similarity.py: five features combined into one weighted score, proved
 symmetric and at most one.
 */
module Similarity {
  import opened Wrappers
  import opened Attributes
  import opened Sequences
  import Text

  // ---------------------------------------------------------------- set features

  function Jaccard(a: set<string>, b: set<string>): (r: real)
    ensures 0.0 <= r <= 1.0
  {
    if a == {} && b == {} then 0.0
    else
      InsideUnion(a, b);
      |a * b| as real / |a + b| as real
  }

  lemma InsideUnion(a: set<string>, b: set<string>)
    ensures |a * b| <= |a + b|
    ensures a + b != {} ==> |a + b| > 0
  {
    assert a + b == (a * b) + ((a + b) - (a * b));
  }

  lemma JaccardSymmetric(a: set<string>, b: set<string>)
    ensures Jaccard(a, b) == Jaccard(b, a)
  {
    assert a * b == b * a && a + b == b + a;
  }

  function PathSimilarity(a: Option<string>, b: Option<string>): (r: real)
    ensures 0.0 <= r <= 1.0
  {
    if a.None? || b.None? then 0.0
    else Jaccard(Elements(Text.SplitOn(a.value, ".")), Elements(Text.SplitOn(b.value, ".")))
  }

  lemma PathSymmetric(a: Option<string>, b: Option<string>)
    ensures PathSimilarity(a, b) == PathSimilarity(b, a)
  {
    if a.Some? && b.Some? {
      JaccardSymmetric(Elements(Text.SplitOn(a.value, ".")), Elements(Text.SplitOn(b.value, ".")));
    }
  }

  /** The first table row naming the two types in either order. */
  function TableScore(table: seq<(string, string, real)>, a: string, b: string): real {
    if table == [] then 0.0
    else if {table[0].0, table[0].1} == {a, b} then table[0].2
    else TableScore(table[1..], a, b)
  }

  function TypeCompatibility(cfg: Config, a: string, b: string): real {
    if a == b then 1.0 else TableScore(cfg.typeCompatibility, a, b)
  }

  lemma {:induction false} TableInUnit(table: seq<(string, string, real)>, a: string, b: string)
    requires forall i :: 0 <= i < |table| ==> 0.0 <= table[i].2 <= 1.0
    ensures 0.0 <= TableScore(table, a, b) <= 1.0
  {
    if table != [] { TableInUnit(table[1..], a, b); }
  }

  lemma {:induction false} TableSymmetric(table: seq<(string, string, real)>, a: string, b: string)
    ensures TableScore(table, a, b) == TableScore(table, b, a)
  {
    if table != [] {
      assert {a, b} == {b, a};
      TableSymmetric(table[1..], a, b);
    }
  }

  // ------------------------------------------------------------ interval overlap

  /** float with its two infinities. */
  datatype Ext = NegInf | Fin(x: real) | PosInf

  function Lower(lo: Option<real>): Ext { if lo.Some? then Fin(lo.value) else NegInf }

  function Upper(hi: Option<real>): Ext { if hi.Some? then Fin(hi.value) else PosInf }

  predicate Leq(a: Ext, b: Ext) {
    a.NegInf? || b.PosInf? || (a.Fin? && b.Fin? && a.x <= b.x)
  }

  function MinExt(a: Ext, b: Ext): Ext { if Leq(a, b) then a else b }

  function MaxExt(a: Ext, b: Ext): Ext { if Leq(a, b) then b else a }

  /** a - b where a is never -inf and b never +inf, so no NaN arises. */
  function Minus(a: Ext, b: Ext): Ext
    requires !a.NegInf? && !b.PosInf?
  {
    if a.Fin? && b.Fin? then Fin(a.x - b.x) else PosInf
  }

  type Bounds = (Option<real>, Option<real>)

  function IntervalOverlap(a: Bounds, b: Bounds): Option<real> {
    if (a.0.None? && a.1.None?) || (b.0.None? && b.1.None?) then None
    else
      var intersection := MaxExt(Fin(0.0), Minus(MinExt(Upper(a.1), Upper(b.1)), MaxExt(Lower(a.0), Lower(b.0))));
      var union := Minus(MaxExt(Upper(a.1), Upper(b.1)), MinExt(Lower(a.0), Lower(b.0)));
      if union == Fin(0.0) then Some(1.0)
      else if union.PosInf? then Some(if intersection.PosInf? then 1.0 else 0.0)
      else Some(intersection.x / union.x)
  }

  function Smaller(x: real, y: real): real { if x <= y then x else y }

  function Larger(x: real, y: real): real { if x <= y then y else x }

  /** One-sided and inverted bounds included, the ratio stays in [0, 1] and ignores the order
      of the two sides. */
  lemma OverlapInUnit(a: Bounds, b: Bounds)
    ensures IntervalOverlap(a, b).Some? ==> 0.0 <= IntervalOverlap(a, b).value <= 1.0
    ensures IntervalOverlap(a, b) == IntervalOverlap(b, a)
  {
    if a.0.Some? && a.1.Some? && b.0.Some? && b.1.Some? {
      var i := Smaller(a.1.value, b.1.value) - Larger(a.0.value, b.0.value);
      var u := Larger(a.1.value, b.1.value) - Smaller(a.0.value, b.0.value);
      if i > 0.0 {
        assert 0.0 < i <= u;
        RatioInUnit(i, u);
      }
    }
  }

  lemma RatioInUnit(i: real, u: real)
    requires 0.0 < i <= u
    ensures 0.0 <= i / u <= 1.0
  {
  }

  predicate Bounded(a: Bounds) { a.0.Some? || a.1.Some? }

  /** All four bounds given: either the outermost ones meet, as they also do for inverted
      intervals such as (3, 2) beside (3, 3), or the intervals are one proper interval. */
  predicate Coincide(a: Bounds, b: Bounds) {
    && a.0.Some? && a.1.Some? && b.0.Some? && b.1.Some?
    && (|| MaxExt(Upper(a.1), Upper(b.1)) == MinExt(Lower(a.0), Lower(b.0))
        || (a == b && a.0.value < a.1.value))
  }

  /** When two intervals count as the same: both open above, both open below, whatever their
      other bounds, or coinciding. */
  lemma FullOverlapIff(a: Bounds, b: Bounds)
    requires Bounded(a) && Bounded(b)
    ensures IntervalOverlap(a, b) == Some(1.0)
            <==> (a.1.None? && b.1.None?) || (a.0.None? && b.0.None?) || Coincide(a, b)
  {
    if a.0.Some? && a.1.Some? && b.0.Some? && b.1.Some? {
      var i := Smaller(a.1.value, b.1.value) - Larger(a.0.value, b.0.value);
      var u := Larger(a.1.value, b.1.value) - Smaller(a.0.value, b.0.value);
      if u != 0.0 { RatioIsOne(if i <= 0.0 then 0.0 else i, u); }
    }
  }

  lemma RatioIsOne(i: real, u: real)
    requires u != 0.0
    ensures i / u == 1.0 <==> i == u
  {
  }

  // -------------------------------------------------------------- constraint overlap

  /** The bound a constraint of this kind states for the key, if it states one. */
  function Stated(cfg: Config, c: Constraint, kind: Kind, key: string): Option<real> {
    if c.kind != kind then None
    else match cfg.readBound(c.expression)
      case None => None
      case Some((name, value)) => if name == key then Some(value) else None
  }

  /** The bound the last constraint to state one for the key states. */
  function LastBound(cfg: Config, cs: seq<Constraint>, kind: Kind, key: string): Option<real> {
    if cs == [] then None
    else
      var stated := Stated(cfg, cs[|cs| - 1], kind, key);
      if stated.Some? then stated else LastBound(cfg, cs[..|cs| - 1], kind, key)
  }

  function BoundsOf(cfg: Config, cs: seq<Constraint>, kind: Kind, lowKey: string, highKey: string): Bounds {
    (LastBound(cfg, cs, kind, lowKey), LastBound(cfg, cs, kind, highKey))
  }

  ghost predicate LastToState(cfg: Config, cs: seq<Constraint>, kind: Kind, key: string, i: int) {
    && 0 <= i < |cs| && Stated(cfg, cs[i], kind, key).Some?
    && forall j :: i < j < |cs| ==> Stated(cfg, cs[j], kind, key).None?
  }

  /** A key's bound is what its last stating constraint states. */
  lemma {:induction false} BoundIsLastStated(cfg: Config, cs: seq<Constraint>, kind: Kind, key: string, i: int)
    requires LastToState(cfg, cs, kind, key, i)
    ensures LastBound(cfg, cs, kind, key) == Stated(cfg, cs[i], kind, key)
  {
    if i < |cs| - 1 {
      assert cs[..|cs| - 1][i] == cs[i];
      BoundIsLastStated(cfg, cs[..|cs| - 1], kind, key, i);
    }
  }

  /** A key has no bound exactly when no constraint states one. */
  lemma {:induction false} UnboundedIffUnstated(cfg: Config, cs: seq<Constraint>, kind: Kind, key: string)
    ensures LastBound(cfg, cs, kind, key).None? <==> forall i :: 0 <= i < |cs| ==> Stated(cfg, cs[i], kind, key).None?
  {
    if cs != [] {
      var front, last := cs[..|cs| - 1], |cs| - 1;
      UnboundedIffUnstated(cfg, front, kind, key);
      assert forall i :: 0 <= i < last ==> cs[i] == front[i];
    }
  }

  lemma BoundsAreLastStated(cfg: Config, cs: seq<Constraint>, kind: Kind, key: string)
    ensures forall i :: LastToState(cfg, cs, kind, key, i)
                        ==> LastBound(cfg, cs, kind, key) == Stated(cfg, cs[i], kind, key)
    ensures LastBound(cfg, cs, kind, key).None? <==> forall i :: 0 <= i < |cs| ==> Stated(cfg, cs[i], kind, key).None?
  {
    forall i | LastToState(cfg, cs, kind, key, i)
      ensures LastBound(cfg, cs, kind, key) == Stated(cfg, cs[i], kind, key)
    {
      BoundIsLastStated(cfg, cs, kind, key, i);
    }
    UnboundedIffUnstated(cfg, cs, kind, key);
  }

  method NumericBounds(cfg: Config, cs: seq<Constraint>, kind: Kind, lowKey: string, highKey: string)
    returns (lo: Option<real>, hi: Option<real>)
    requires lowKey != highKey
    ensures (lo, hi) == BoundsOf(cfg, cs, kind, lowKey, highKey)
    ensures forall i :: LastToState(cfg, cs, kind, lowKey, i) ==> lo == Stated(cfg, cs[i], kind, lowKey)
    ensures forall i :: LastToState(cfg, cs, kind, highKey, i) ==> hi == Stated(cfg, cs[i], kind, highKey)
    ensures lo.None? <==> forall i :: 0 <= i < |cs| ==> Stated(cfg, cs[i], kind, lowKey).None?
    ensures hi.None? <==> forall i :: 0 <= i < |cs| ==> Stated(cfg, cs[i], kind, highKey).None?
  {
    lo, hi := None, None;
    for i := 0 to |cs|
      invariant (lo, hi) == BoundsOf(cfg, cs[..i], kind, lowKey, highKey)
    {
      assert cs[..i + 1][..i] == cs[..i];
      if cs[i].kind != kind { continue; }
      var read := cfg.readBound(cs[i].expression);
      if read.None? { continue; }
      if read.value.0 == lowKey {
        lo := Some(read.value.1);
      } else if read.value.0 == highKey {
        hi := Some(read.value.1);
      }
    }
    assert cs[..|cs|] == cs;
    BoundsAreLastStated(cfg, cs, kind, lowKey);
    BoundsAreLastStated(cfg, cs, kind, highKey);
  }

  function Expressions(cs: seq<Constraint>, kind: Kind): set<string> {
    set i | 0 <= i < |cs| && cs[i].kind == kind :: cs[i].expression
  }

  predicate HasKind(cs: seq<Constraint>, kind: Kind) { exists i :: 0 <= i < |cs| && cs[i].kind == kind }

  function KindScore(cfg: Config, kind: Kind, a: seq<Constraint>, b: seq<Constraint>): Option<real> {
    if !HasKind(a, kind) || !HasKind(b, kind) then None
    else match kind
      case Range =>
        IntervalOverlap(BoundsOf(cfg, a, Range, "minimum", "maximum"), BoundsOf(cfg, b, Range, "minimum", "maximum"))
      case Length =>
        IntervalOverlap(BoundsOf(cfg, a, Length, "minLength", "maxLength"),
            BoundsOf(cfg, b, Length, "minLength", "maxLength"))
      case _ => Some(if Expressions(a, kind) == Expressions(b, kind) then 1.0 else 0.0)
  }

  const KINDS: seq<Kind> := [Length, Pattern, Range, Format, CrossField, Custom]

  /** The scores of the shared kinds; their sum does not depend on the order of the set. */
  function KindScores(cfg: Config, kinds: seq<Kind>, a: seq<Constraint>, b: seq<Constraint>): seq<real> {
    if kinds == [] then []
    else
      var s := KindScore(cfg, kinds[0], a, b);
      (if s.Some? then [s.value] else []) + KindScores(cfg, kinds[1..], a, b)
  }

  function PatternRangeSimilarity(cfg: Config, a: seq<Constraint>, b: seq<Constraint>): real {
    if a == [] && b == [] then 0.5
    else if a == [] || b == [] then 0.3
    else
      var scores := KindScores(cfg, KINDS, a, b);
      if scores == [] then 0.0 else Sum(scores) / |scores| as real
  }

  method ScoreKind(cfg: Config, kind: Kind, a: seq<Constraint>, b: seq<Constraint>) returns (score: Option<real>)
    ensures score == KindScore(cfg, kind, a, b)
  {
    if !HasKind(a, kind) || !HasKind(b, kind) { return None; }
    if kind == Range {
      var aLo, aHi := NumericBounds(cfg, a, kind, "minimum", "maximum");
      var bLo, bHi := NumericBounds(cfg, b, kind, "minimum", "maximum");
      score := IntervalOverlap((aLo, aHi), (bLo, bHi));
    } else if kind == Length {
      var aLo, aHi := NumericBounds(cfg, a, kind, "minLength", "maxLength");
      var bLo, bHi := NumericBounds(cfg, b, kind, "minLength", "maxLength");
      score := IntervalOverlap((aLo, aHi), (bLo, bHi));
    } else {
      score := Some(if Expressions(a, kind) == Expressions(b, kind) then 1.0 else 0.0);
    }
  }

  method ScoreKinds(cfg: Config, kinds: seq<Kind>, a: seq<Constraint>, b: seq<Constraint>) returns (scores: seq<real>)
    ensures scores == KindScores(cfg, kinds, a, b)
  {
    scores := [];
    for k := 0 to |kinds|
      invariant scores + KindScores(cfg, kinds[k..], a, b) == KindScores(cfg, kinds, a, b)
    {
      assert kinds[k..][1..] == kinds[k + 1..];
      var score := ScoreKind(cfg, kinds[k], a, b);
      if score.Some? { scores := scores + [score.value]; }
    }
  }

  method PatternRange(cfg: Config, a: seq<Constraint>, b: seq<Constraint>) returns (r: real)
    ensures r == PatternRangeSimilarity(cfg, a, b)
  {
    if a == [] && b == [] { return 0.5; }
    if a == [] || b == [] { return 0.3; }
    var scores := ScoreKinds(cfg, KINDS, a, b);
    r := if scores == [] then 0.0 else Sum(scores) / |scores| as real;
  }

  lemma {:induction false} SumInUnit(xs: seq<real>)
    requires forall i :: 0 <= i < |xs| ==> 0.0 <= xs[i] <= 1.0
    ensures 0.0 <= Sum(xs) <= |xs| as real
  {
    if xs != [] { SumInUnit(xs[1..]); }
  }

  lemma {:induction false} KindScoresInUnit(cfg: Config, kinds: seq<Kind>, a: seq<Constraint>, b: seq<Constraint>)
    ensures forall i :: 0 <= i < |KindScores(cfg, kinds, a, b)| ==> 0.0 <= KindScores(cfg, kinds, a, b)[i] <= 1.0
    ensures KindScores(cfg, kinds, a, b) == KindScores(cfg, kinds, b, a)
  {
    if kinds != [] {
      KindScoresInUnit(cfg, kinds[1..], a, b);
      OverlapInUnit(BoundsOf(cfg, a, Range, "minimum", "maximum"), BoundsOf(cfg, b, Range, "minimum", "maximum"));
      OverlapInUnit(BoundsOf(cfg, a, Length, "minLength", "maxLength"),
          BoundsOf(cfg, b, Length, "minLength", "maxLength"));
    }
  }

  lemma PatternRangeInUnit(cfg: Config, a: seq<Constraint>, b: seq<Constraint>)
    ensures 0.0 <= PatternRangeSimilarity(cfg, a, b) <= 1.0
    ensures PatternRangeSimilarity(cfg, a, b) == PatternRangeSimilarity(cfg, b, a)
  {
    KindScoresInUnit(cfg, KINDS, a, b);
    var scores := KindScores(cfg, KINDS, a, b);
    SumInUnit(scores);
    if scores != [] { MeanInUnit(Sum(scores), |scores| as real); }
  }

  lemma MeanInUnit(sum: real, n: real)
    requires 0.0 <= sum <= n && n > 0.0
    ensures 0.0 <= sum / n <= 1.0
  {
  }

  function Codes(cfg: Config, a: Attribute): set<string> {
    set i | 0 <= i < |a.enumeration| :: cfg.upper(a.enumeration[i])
  }

  /** Enumerations dominate; constraints are the fallback. */
  function ConstraintOverlap(cfg: Config, a: Attribute, b: Attribute): real {
    if a.enumeration != [] && b.enumeration != [] then
      var shared, all := Codes(cfg, a) * Codes(cfg, b), Codes(cfg, a) + Codes(cfg, b);
      |shared| as real / (if |all| > 1 then |all| else 1) as real
    else PatternRangeSimilarity(cfg, a.constraints, b.constraints)
  }

  lemma ConstraintsInUnit(cfg: Config, a: Attribute, b: Attribute)
    ensures 0.0 <= ConstraintOverlap(cfg, a, b) <= 1.0
    ensures ConstraintOverlap(cfg, a, b) == ConstraintOverlap(cfg, b, a)
  {
    InsideUnion(Codes(cfg, a), Codes(cfg, b));
    JaccardSymmetric(Codes(cfg, a), Codes(cfg, b));
    assert Codes(cfg, a) * Codes(cfg, b) == Codes(cfg, b) * Codes(cfg, a) &&
           Codes(cfg, a) + Codes(cfg, b) == Codes(cfg, b) + Codes(cfg, a);
    PatternRangeInUnit(cfg, a.constraints, b.constraints);
    if a.enumeration != [] && b.enumeration != [] {
      var all := |Codes(cfg, a) + Codes(cfg, b)|;
      MeanInUnit(|Codes(cfg, a) * Codes(cfg, b)| as real, (if all > 1 then all else 1) as real);
    }
  }

  // ------------------------------------------------------------------------ cosine

  /** sum(x * y for x, y in zip(a, b)): zip stops at the shorter vector. */
  function Dot(a: seq<real>, b: seq<real>): real {
    if a == [] || b == [] then 0.0 else a[0] * b[0] + Dot(a[1..], b[1..])
  }

  function Squares(a: seq<real>): real { if a == [] then 0.0 else a[0] * a[0] + Squares(a[1..]) }

  function Cosine(sqrt: real -> real, a: seq<real>, b: seq<real>): real {
    if a == [] || b == [] then 0.0
    else
      Ratio(Dot(a, b), sqrt(Squares(a)), sqrt(Squares(b)))
  }

  function Ratio(dot: real, na: real, nb: real): real {
    if na == 0.0 || nb == 0.0 then 0.0
    else
      NonZeroProduct(na, nb);
      dot / (na * nb)
  }

  lemma NonZeroProduct(p: real, q: real)
    requires p != 0.0 && q != 0.0
    ensures p * q != 0.0
  {
  }

  lemma {:induction false} SquaresNonNegative(a: seq<real>)
    ensures Squares(a) >= 0.0
  {
    if a != [] { SquaresNonNegative(a[1..]); }
  }

  lemma {:induction false} DotSymmetric(a: seq<real>, b: seq<real>)
    ensures Dot(a, b) == Dot(b, a)
  {
    if a != [] && b != [] { DotSymmetric(a[1..], b[1..]); }
  }

  lemma PositiveProduct(p: real, q: real)
    requires p > 0.0 && q > 0.0
    ensures p * q > 0.0
  {
  }

  lemma SquareStrict(p: real, q: real)
    requires p > q >= 0.0
    ensures p * p > q * q
  {
    PositiveProduct(p - q, p + q);
    assert (p - q) * (p + q) == p * p - q * q;
  }

  lemma SquareMonotone(p: real, q: real)
    requires p * p <= q * q && q >= 0.0
    ensures p <= q
  {
    if p > q { SquareStrict(p, q); }
  }

  /** (xy + D)^2 <= (x^2 + A)(y^2 + B) once D^2 <= AB. */
  lemma CauchyStep(x: real, y: real, D: real, A: real, B: real)
    requires D * D <= A * B && A >= 0.0 && B >= 0.0
    ensures (x * y + D) * (x * y + D) <= (x * x + A) * (y * y + B)
  {
    var p, q := 2.0 * (x * y * D), x * x * B + y * y * A;
    CauchyCross(x, y, D, A, B);
    SquareMonotone(p, q);
    assert (x * y + D) * (x * y + D) == (x * y) * (x * y) + p + D * D;
    assert (x * x + A) * (y * y + B) == (x * y) * (x * y) + q + A * B;
  }

  lemma CauchyCross(x: real, y: real, D: real, A: real, B: real)
    requires D * D <= A * B && A >= 0.0 && B >= 0.0
    ensures var p, q := 2.0 * (x * y * D), x * x * B + y * y * A; p * p <= q * q && q >= 0.0
  {
    var u, v, w := x * x * B, y * y * A, (x * y) * (x * y);
    assert x * x >= 0.0 && y * y >= 0.0 && w >= 0.0;
    assert u >= 0.0 && v >= 0.0;
    assert (2.0 * (x * y * D)) * (2.0 * (x * y * D)) == 4.0 * (w * (D * D));
    assert w * (D * D) <= w * (A * B);
    assert w * (A * B) == u * v by { ProductRegroup(x, y, A, B); }
    assert (u + v) * (u + v) - 4.0 * (u * v) == (u - v) * (u - v) >= 0.0;
  }

  lemma ProductRegroup(x: real, y: real, A: real, B: real)
    ensures ((x * y) * (x * y)) * (A * B) == (x * x * B) * (y * y * A)
  {
    var xx, yy := x * x, y * y;
    assert (x * y) * (x * y) == xx * yy;
    assert (xx * yy) * (A * B) == (xx * B) * (yy * A);
  }

  /** Cauchy-Schwarz when zip truncates the dot product but the norms see every component. */
  lemma {:induction false} TruncatedCauchySchwarz(a: seq<real>, b: seq<real>)
    ensures Dot(a, b) * Dot(a, b) <= Squares(a) * Squares(b)
  {
    SquaresNonNegative(a);
    SquaresNonNegative(b);
    if a != [] && b != [] {
      TruncatedCauchySchwarz(a[1..], b[1..]);
      SquaresNonNegative(a[1..]);
      SquaresNonNegative(b[1..]);
      CauchyStep(a[0], b[0], Dot(a[1..], b[1..]), Squares(a[1..]), Squares(b[1..]));
    } else {
      assert Squares(a) * Squares(b) >= 0.0;
    }
  }

  lemma CosineAtMostOne(sqrt: real -> real, a: seq<real>, b: seq<real>)
    requires IsSqrt(sqrt)
    ensures Cosine(sqrt, a, b) <= 1.0
  {
    SquaresNonNegative(a);
    SquaresNonNegative(b);
    TruncatedCauchySchwarz(a, b);
    BelowNorms(Dot(a, b), sqrt(Squares(a)), sqrt(Squares(b)), Squares(a), Squares(b));
  }

  lemma BelowNorms(d: real, na: real, nb: real, A: real, B: real)
    requires d * d <= A * B && na >= 0.0 && nb >= 0.0 && na * na == A && nb * nb == B
    ensures Ratio(d, na, nb) <= 1.0
  {
    var n := na * nb;
    assert n * n == (na * na) * (nb * nb);
    assert n >= 0.0;
    SquareMonotone(d, n);
    if na != 0.0 && nb != 0.0 {
      NonZeroProduct(na, nb);
      DivideBelow(d, n);
    }
  }

  lemma CosineSymmetric(sqrt: real -> real, a: seq<real>, b: seq<real>)
    ensures Cosine(sqrt, a, b) == Cosine(sqrt, b, a)
  {
    DotSymmetric(a, b);
    RatioSymmetric(Dot(a, b), sqrt(Squares(a)), sqrt(Squares(b)));
  }

  lemma RatioSymmetric(d: real, na: real, nb: real)
    ensures Ratio(d, na, nb) == Ratio(d, nb, na)
  {
    assert na * nb == nb * na;
  }

  lemma DivideBelow(d: real, n: real)
    requires d <= n && n > 0.0
    ensures d / n <= 1.0
  {
  }

  // ---------------------------------------------------------------------- the score

  function Embedding(embeddings: map<string, seq<real>>, id: string): seq<real> {
    if id in embeddings then embeddings[id] else []
  }

  datatype Features = Features(lexical: real, embedding: real, types: real, constraints: real, context: real)

  function FeaturesOf(cfg: Config, embeddings: map<string, seq<real>>, a: Attribute, b: Attribute): Features {
    Features(
      Jaccard(Elements(a.tokens), Elements(b.tokens)),
      Cosine(cfg.sqrt, Embedding(embeddings, a.id), Embedding(embeddings, b.id)),
      TypeCompatibility(cfg, a.dataType, b.dataType),
      ConstraintOverlap(cfg, a, b),
      0.5 * PathSimilarity(a.parentPath, b.parentPath) +
          0.5 * Jaccard(Elements(a.siblingNames), Elements(b.siblingNames)))
  }

  function Combine(cfg: Config, f: Features): real {
    Weight(cfg, "lexical") * f.lexical + Weight(cfg, "embedding") * f.embedding + Weight(cfg, "type") * f.types
    + Weight(cfg, "constraints") * f.constraints + Weight(cfg, "context") * f.context
  }

  function Score(cfg: Config, embeddings: map<string, seq<real>>, a: Attribute, b: Attribute): real {
    Combine(cfg, FeaturesOf(cfg, embeddings, a, b))
  }

  lemma ContextSymmetric(a: Attribute, b: Attribute)
    ensures 0.5 * PathSimilarity(a.parentPath, b.parentPath) +
            0.5 * Jaccard(Elements(a.siblingNames), Elements(b.siblingNames))
         == 0.5 * PathSimilarity(b.parentPath, a.parentPath) +
             0.5 * Jaccard(Elements(b.siblingNames), Elements(a.siblingNames))
  {
    JaccardSymmetric(Elements(a.siblingNames), Elements(b.siblingNames));
    PathSymmetric(a.parentPath, b.parentPath);
  }

  /** Neither the features nor the score depend on which attribute comes first. */
  lemma ScoreSymmetric(cfg: Config, embeddings: map<string, seq<real>>, a: Attribute, b: Attribute)
    ensures FeaturesOf(cfg, embeddings, a, b) == FeaturesOf(cfg, embeddings, b, a)
    ensures Score(cfg, embeddings, a, b) == Score(cfg, embeddings, b, a)
  {
    JaccardSymmetric(Elements(a.tokens), Elements(b.tokens));
    CosineSymmetric(cfg.sqrt, Embedding(embeddings, a.id), Embedding(embeddings, b.id));
    TableSymmetric(cfg.typeCompatibility, a.dataType, b.dataType);
    ConstraintsInUnit(cfg, a, b);
    ContextSymmetric(a, b);
  }

  /** With non-negative weights summing to one, no pair scores above one. */
  lemma ScoreAtMostOne(cfg: Config, embeddings: map<string, seq<real>>, a: Attribute, b: Attribute)
    requires IsSqrt(cfg.sqrt) && TableInRange(cfg) && MeanWeights(cfg)
    ensures Score(cfg, embeddings, a, b) <= 1.0
  {
    CosineAtMostOne(cfg.sqrt, Embedding(embeddings, a.id), Embedding(embeddings, b.id));
    TableInUnit(cfg.typeCompatibility, a.dataType, b.dataType);
    ConstraintsInUnit(cfg, a, b);
    CombineAtMostOne(cfg, FeaturesOf(cfg, embeddings, a, b));
  }

  lemma CombineAtMostOne(cfg: Config, f: Features)
    requires MeanWeights(cfg)
    requires f.lexical <= 1.0 && f.embedding <= 1.0 && f.types <= 1.0 && f.constraints <= 1.0 && f.context <= 1.0
    ensures Combine(cfg, f) <= 1.0
  {
    MeanAtMostOne(Weight(cfg, "lexical"), Weight(cfg, "embedding"), Weight(cfg, "type"), Weight(cfg, "constraints"),
        Weight(cfg, "context"), f);
  }

  lemma MeanAtMostOne(l: real, e: real, t: real, c: real, x: real, f: Features)
    requires l >= 0.0 && e >= 0.0 && t >= 0.0 && c >= 0.0 && x >= 0.0 && l + e + t + c + x == 1.0
    requires f.lexical <= 1.0 && f.embedding <= 1.0 && f.types <= 1.0 && f.constraints <= 1.0 && f.context <= 1.0
    ensures l * f.lexical + e * f.embedding + t * f.types + c * f.constraints + x * f.context <= 1.0
  {
    Weighted(l, f.lexical);
    Weighted(e, f.embedding);
    Weighted(t, f.types);
    Weighted(c, f.constraints);
    Weighted(x, f.context);
    SumBelow(l * f.lexical, e * f.embedding, t * f.types, c * f.constraints, x * f.context, l, e, t, c, x);
  }

  lemma SumBelow(a: real, b: real, c: real, d: real, e: real, a': real, b': real, c': real, d': real, e': real)
    requires a <= a' && b <= b' && c <= c' && d <= d' && e <= e'
    ensures a + b + c + d + e <= a' + b' + c' + d' + e'
  {
  }

  lemma Weighted(w: real, f: real)
    requires w >= 0.0 && f <= 1.0
    ensures w * f <= w
  {
  }
}
