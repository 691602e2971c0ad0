/**
 algorithms/conflict.py: the five homonym signals. They depend on the members of a group
 and not on their order, never fire on a lone member, and are not monotone.
 */
module Signals {
  import opened Wrappers
  import opened Attributes
  import Similarity

  const TYPE_FLOOR := 0.35
  const PARENT_DISTANCE := 0.8

  type Group = seq<Attribute>

  predicate TypeIncompatible(cfg: Config, ms: Group) {
    exists i, j :: 0 <= i < j < |ms| && Similarity.TypeCompatibility(cfg, ms[i].dataType, ms[j].dataType) < TYPE_FLOOR
  }

  predicate AllHaveEnums(ms: Group) { forall i :: 0 <= i < |ms| ==> ms[i].enumeration != [] }

  function WithEnums(ms: Group): Group {
    if ms == [] then [] else (if ms[0].enumeration != [] then [ms[0]] else []) + WithEnums(ms[1..])
  }

  function Meet(cfg: Config, ms: Group): set<string>
    requires ms != []
  {
    if |ms| == 1 then Similarity.Codes(cfg, ms[0]) else Similarity.Codes(cfg, ms[0]) * Meet(cfg, ms[1..])
  }

  function Union(cfg: Config, ms: Group): set<string> {
    if ms == [] then {} else Similarity.Codes(cfg, ms[0]) + Union(cfg, ms[1..])
  }

  /** Intersection over union of all the enumerations; 1 with fewer than two of them. */
  function EnumOverlap(cfg: Config, ms: Group): real {
    var listed := WithEnums(ms);
    if |listed| < 2 then 1.0
    else
      UnionNotEmpty(cfg, ms);
      |Meet(cfg, listed)| as real / |Union(cfg, listed)| as real
  }

  lemma {:induction false} UnionNotEmpty(cfg: Config, ms: Group)
    requires WithEnums(ms) != []
    ensures Union(cfg, WithEnums(ms)) != {}
  {
    if ms[0].enumeration != [] {
      assert cfg.upper(ms[0].enumeration[0]) in Similarity.Codes(cfg, ms[0]);
      assert WithEnums(ms)[0] == ms[0];
    } else {
      assert WithEnums(ms) == WithEnums(ms[1..]);
      UnionNotEmpty(cfg, ms[1..]);
    }
  }

  predicate DisjointEnums(cfg: Config, ms: Group) { AllHaveEnums(ms) && EnumOverlap(cfg, ms) == 0.0 }

  /** Some member is mandatory and some other is not; the regions are not compared. */
  predicate ObligationInversion(ms: Group) {
    (exists i :: 0 <= i < |ms| && ms[i].level.Mandatory?) && (exists i :: 0 <= i < |ms| && !ms[i].level.Mandatory?)
  }

  /** The critic does not exist yet. */
  predicate ContradictionDetected(ms: Group) { false }

  predicate DivergentParents(ms: Group) {
    exists i, j :: 0 <= i < j < |ms| && ms[i].parentPath.Some? && ms[j].parentPath.Some?
                   && 1.0 - Similarity.PathSimilarity(ms[i].parentPath, ms[j].parentPath) > PARENT_DISTANCE
  }

  predicate Fires(cfg: Config, ms: Group) {
    TypeIncompatible(cfg, ms) || DisjointEnums(cfg, ms) || ObligationInversion(ms) || ContradictionDetected(ms) ||
        DivergentParents(ms)
  }

  function FiredNames(cfg: Config, ms: Group): (names: seq<string>)
    ensures names == [] <==> !Fires(cfg, ms)
  {
    (if TypeIncompatible(cfg, ms) then ["type-incompatible"] else [])
    + (if DisjointEnums(cfg, ms) then ["disjoint-enumerations"] else [])
    + (if ObligationInversion(ms) then ["obligation-inversion"] else [])
    + (if ContradictionDetected(ms) then ["documentation-contradiction"] else [])
    + (if DivergentParents(ms) then ["divergent-parent-context"] else [])
  }

  // ------------------------------------------------------- the sibling-region signal

  /** What the signal's description asks for: a mandatory member and one that is not, in
      different regions. */
  predicate CrossRegionInversion(ms: Group) {
    exists i, j :: 0 <= i < |ms| && 0 <= j < |ms| && ms[i].level.Mandatory? && !ms[j].level.Mandatory? &&
        ms[i].region != ms[j].region
  }

  predicate OneRegion(ms: Group) { forall i, j :: 0 <= i < j < |ms| ==> ms[i].region == ms[j].region }

  /** The signal fires beyond its description exactly on groups of one region that hold both
      kinds of level. */
  lemma FiresWithoutSiblingIff(ms: Group)
    ensures CrossRegionInversion(ms) ==> ObligationInversion(ms)
    ensures ObligationInversion(ms) && !CrossRegionInversion(ms) <==> ObligationInversion(ms) && OneRegion(ms)
  {
    if ObligationInversion(ms) && !CrossRegionInversion(ms) {
      var m :| 0 <= m < |ms| && ms[m].level.Mandatory?;
      var o :| 0 <= o < |ms| && !ms[o].level.Mandatory?;
      forall i | 0 <= i < |ms| ensures ms[i].region == ms[m].region {
        if ms[i].level.Mandatory? { assert ms[i].region == ms[o].region; }
      }
    }
    if CrossRegionInversion(ms) && OneRegion(ms) {
      var i, j :| 0 <= i < |ms| && 0 <= j < |ms| && ms[i].level.Mandatory? && !ms[j].level.Mandatory? &&
          ms[i].region != ms[j].region;
    }
  }

  /** Two members of one region are enough. */
  lemma OneRegionFires(cfg: Config)
    ensures var ms := [Coded("a", []).(level := Mandatory), Coded("b", [])];
            Fires(cfg, ms) && OneRegion(ms) && !CrossRegionInversion(ms)
  {
    var ms := [Coded("a", []).(level := Mandatory), Coded("b", [])];
    assert ms[0].level.Mandatory? && !ms[1].level.Mandatory?;
  }

  // --------------------------------------------------------------- what each name means

  /** The code, whatever its case, is on the member's list. */
  ghost predicate Lists(cfg: Config, m: Attribute, code: string) {
    exists c :: c in m.enumeration && cfg.upper(c) == code
  }

  ghost predicate AllList(cfg: Config, ms: Group, code: string) {
    forall i :: 0 <= i < |ms| ==> Lists(cfg, ms[i], code)
  }

  lemma CodesAreListed(cfg: Config, m: Attribute, code: string)
    ensures code in Similarity.Codes(cfg, m) <==> Lists(cfg, m, code)
  {
    if Lists(cfg, m, code) {
      var c :| c in m.enumeration && cfg.upper(c) == code;
      var i :| 0 <= i < |m.enumeration| && m.enumeration[i] == c;
      assert cfg.upper(m.enumeration[i]) == code;
    }
  }

  lemma DisjointMeansNoCommonCode(cfg: Config, ms: Group)
    ensures DisjointEnums(cfg, ms) <==>
              |ms| >= 2 && (forall i :: 0 <= i < |ms| ==> ms[i].enumeration != []) &&
              forall code :: !AllList(cfg, ms, code)
  {
    DisjointEnumsMeaning(cfg, ms);
    forall code, i | 0 <= i < |ms| ensures code in Similarity.Codes(cfg, ms[i]) <==> Lists(cfg, ms[i], code) {
      CodesAreListed(cfg, ms[i], code);
    }
    if |ms| >= 2 {
      forall code ensures AllList(cfg, ms, code) <==>
                            code in Similarity.Codes(cfg, ms[0]) &&
                            forall i :: 0 <= i < |ms| ==> code in Similarity.Codes(cfg, ms[i])
      {
      }
    }
  }

  /** The types of two members fit by less than 0.35. */
  ghost predicate Unfit(cfg: Config, ms: Group, i: int, j: int) {
    0 <= i < j < |ms| && Similarity.TypeCompatibility(cfg, ms[i].dataType, ms[j].dataType) < 0.35
  }

  /** The parent paths of two members, both given, are more than 0.8 apart. */
  ghost predicate Distant(ms: Group, i: int, j: int) {
    && 0 <= i < j < |ms| && ms[i].parentPath.Some? && ms[j].parentPath.Some?
    && 1.0 - Similarity.PathSimilarity(ms[i].parentPath, ms[j].parentPath) > 0.8
  }

  ghost predicate Inverted(ms: Group, i: int, j: int) {
    0 <= i < |ms| && 0 <= j < |ms| && ms[i].level == Mandatory && ms[j].level != Mandatory
  }

  lemma PairsTell(cfg: Config, ms: Group)
    ensures TypeIncompatible(cfg, ms) <==> exists i, j :: Unfit(cfg, ms, i, j)
    ensures DivergentParents(ms) <==> exists i, j :: Distant(ms, i, j)
    ensures ObligationInversion(ms) <==> exists i, j :: Inverted(ms, i, j)
  {
    if TypeIncompatible(cfg, ms) {
      var i, j :| 0 <= i < j < |ms| &&
                  Similarity.TypeCompatibility(cfg, ms[i].dataType, ms[j].dataType) < TYPE_FLOOR;
      assert Unfit(cfg, ms, i, j);
    }
    if DivergentParents(ms) {
      var i, j :| 0 <= i < j < |ms| && ms[i].parentPath.Some? && ms[j].parentPath.Some?
                  && 1.0 - Similarity.PathSimilarity(ms[i].parentPath, ms[j].parentPath) > PARENT_DISTANCE;
      assert Distant(ms, i, j);
    }
    if ObligationInversion(ms) {
      var i :| 0 <= i < |ms| && ms[i].level.Mandatory?;
      var j :| 0 <= j < |ms| && !ms[j].level.Mandatory?;
      assert Inverted(ms, i, j);
    }
  }

  /** Which names fire, and for what. */
  lemma NamesTell(cfg: Config, ms: Group)
    ensures "type-incompatible" in FiredNames(cfg, ms) <==> exists i, j :: Unfit(cfg, ms, i, j)
    ensures "disjoint-enumerations" in FiredNames(cfg, ms) <==>
              |ms| >= 2 && (forall i :: 0 <= i < |ms| ==> ms[i].enumeration != []) &&
              forall code :: !AllList(cfg, ms, code)
    ensures "obligation-inversion" in FiredNames(cfg, ms) <==> exists i, j :: Inverted(ms, i, j)
    ensures "divergent-parent-context" in FiredNames(cfg, ms) <==> exists i, j :: Distant(ms, i, j)
    ensures forall name :: name in FiredNames(cfg, ms) ==>
              name in {"type-incompatible", "disjoint-enumerations", "obligation-inversion", "divergent-parent-context"}
  {
    DisjointMeansNoCommonCode(cfg, ms);
    PairsTell(cfg, ms);
    NamesApart("type-incompatible", "disjoint-enumerations", "obligation-inversion", "documentation-contradiction",
        "divergent-parent-context");
    FivePieces(TypeIncompatible(cfg, ms), DisjointEnums(cfg, ms), ObligationInversion(ms), DivergentParents(ms),
        "type-incompatible", "disjoint-enumerations", "obligation-inversion", "divergent-parent-context",
        FiredNames(cfg, ms));
  }

  ghost function Piece(fires: bool, name: string): seq<string> { if fires then [name] else [] }

  lemma FivePieces(p: bool, q: bool, r: bool, s: bool, a: string, b: string, c: string, d: string, names: seq<string>)
    requires a != b && a != c && a != d && b != c && b != d && c != d
    requires names == Piece(p, a) + Piece(q, b) + Piece(r, c) + [] + Piece(s, d)
    ensures (a in names <==> p) && (b in names <==> q) && (c in names <==> r) && (d in names <==> s)
    ensures forall name :: name in names ==> name in {a, b, c, d}
  {
  }

  lemma NamesApart(a: string, b: string, c: string, d: string, e: string)
    requires |a| == 17 && |b| == 21 && |c| == 20 && |d| == 27 && |e| == 24
    ensures a != b && a != c && a != e && b != c && b != e && c != e
  {
  }

  // ---------------------------------------------------------- order independence

  lemma {:induction false} AllListed(ms: Group)
    requires AllHaveEnums(ms)
    ensures WithEnums(ms) == ms
  {
    if ms != [] {
      AllListed(ms[1..]);
      assert ms == [ms[0]] + ms[1..];
    }
  }

  lemma {:induction false} MeetIsCommon(cfg: Config, ms: Group, x: string)
    requires ms != []
    ensures x in Meet(cfg, ms) <==> forall i :: 0 <= i < |ms| ==> x in Similarity.Codes(cfg, ms[i])
  {
    if |ms| > 1 {
      MeetIsCommon(cfg, ms[1..], x);
      assert forall i :: 0 <= i < |ms| ==> ms[i] == if i == 0 then ms[0] else ms[1..][i - 1];
    }
  }

  /** What the disjoint-enumerations signal means: at least two lists, no value on all of them. */
  lemma DisjointEnumsMeaning(cfg: Config, ms: Group)
    ensures DisjointEnums(cfg, ms) <==>
              AllHaveEnums(ms) && |ms| >= 2 && forall x :: x in Similarity.Codes(cfg, ms[0]) ==>
                  exists i :: 0 <= i < |ms| && x !in Similarity.Codes(cfg, ms[i])
  {
    if AllHaveEnums(ms) {
      AllListed(ms);
      if |ms| >= 2 {
        UnionNotEmpty(cfg, ms);
        assert EnumOverlap(cfg, ms) == 0.0 <==> |Meet(cfg, ms)| == 0 by {
          RatioZero(|Meet(cfg, ms)|, |Union(cfg, ms)|);
        }
        MeetEmptyMeaning(cfg, ms);
      }
    }
  }

  lemma MeetEmptyMeaning(cfg: Config, ms: Group)
    requires ms != []
    ensures |Meet(cfg, ms)| == 0 <==>
              forall x :: x in Similarity.Codes(cfg, ms[0]) ==>
                  exists i :: 0 <= i < |ms| && x !in Similarity.Codes(cfg, ms[i])
  {
    forall x ensures x in Meet(cfg, ms) <==> forall i :: 0 <= i < |ms| ==> x in Similarity.Codes(cfg, ms[i]) {
      MeetIsCommon(cfg, ms, x);
    }
    if |Meet(cfg, ms)| != 0 {
      var x :| x in Meet(cfg, ms);
      assert x in Similarity.Codes(cfg, ms[0]);
    } else {
      forall x | x in Similarity.Codes(cfg, ms[0])
        ensures exists i :: 0 <= i < |ms| && x !in Similarity.Codes(cfg, ms[i])
      {
        assert x !in Meet(cfg, ms);
      }
    }
  }

  lemma RatioZero(n: nat, d: nat)
    requires d > 0
    ensures n as real / d as real == 0.0 <==> n == 0
  {
  }

  ghost predicate SameMembers(a: Group, b: Group) { forall m :: m in a <==> m in b }

  /** Two members of a, in either order, are two members of b. */
  lemma PairCarries(a: Group, b: Group, i: nat, j: nat) returns (k: nat, l: nat)
    requires SameMembers(a, b) && DistinctIds(a) && i < j < |a|
    ensures k < l < |b| && ((b[k] == a[i] && b[l] == a[j]) || (b[k] == a[j] && b[l] == a[i]))
  {
    assert a[i] in b && a[j] in b;
    k :| 0 <= k < |b| && b[k] == a[i];
    l :| 0 <= l < |b| && b[l] == a[j];
    if k > l { k, l := l, k; }
  }

  lemma FiresCarries(cfg: Config, a: Group, b: Group)
    requires SameMembers(a, b) && DistinctIds(a) && Fires(cfg, a)
    ensures Fires(cfg, b)
  {
    if TypeIncompatible(cfg, a) {
      var i, j :| 0 <= i < j < |a| && Similarity.TypeCompatibility(cfg, a[i].dataType, a[j].dataType) < TYPE_FLOOR;
      var k, l := PairCarries(a, b, i, j);
      Similarity.TableSymmetric(cfg.typeCompatibility, a[i].dataType, a[j].dataType);
      assert TypeIncompatible(cfg, b);
    } else if DivergentParents(a) {
      var i, j :| 0 <= i < j < |a| && a[i].parentPath.Some? && a[j].parentPath.Some?
                  && 1.0 - Similarity.PathSimilarity(a[i].parentPath, a[j].parentPath) > PARENT_DISTANCE;
      var k, l := PairCarries(a, b, i, j);
      Similarity.PathSymmetric(a[i].parentPath, a[j].parentPath);
      assert DivergentParents(b);
    } else if ObligationInversion(a) {
      InversionCarries(a, b);
    } else {
      DisjointCarries(cfg, a, b);
    }
  }

  lemma InversionCarries(a: Group, b: Group)
    requires SameMembers(a, b) && ObligationInversion(a)
    ensures ObligationInversion(b)
  {
    var i :| 0 <= i < |a| && a[i].level.Mandatory?;
    var j :| 0 <= j < |a| && !a[j].level.Mandatory?;
    assert a[i] in b && a[j] in b;
  }

  lemma DisjointCarries(cfg: Config, a: Group, b: Group)
    requires SameMembers(a, b) && DistinctIds(a) && DisjointEnums(cfg, a)
    ensures DisjointEnums(cfg, b)
  {
    DisjointEnumsMeaning(cfg, a);
    DisjointEnumsMeaning(cfg, b);
    var k, l := PairCarries(a, b, 0, 1);
    forall i | 0 <= i < |b| ensures b[i].enumeration != [] {
      assert b[i] in a;
    }
    forall x | x in Similarity.Codes(cfg, b[0]) ensures exists i :: 0 <= i < |b| && x !in Similarity.Codes(cfg, b[i]) {
      if x in Similarity.Codes(cfg, a[0]) {
        var j :| 0 <= j < |a| && x !in Similarity.Codes(cfg, a[j]);
        assert a[j] in b;
      } else {
        assert a[0] in b;
      }
    }
  }

  /** The signals see only which attributes are in the group. */
  lemma FiresIgnoresOrder(cfg: Config, a: Group, b: Group)
    requires SameMembers(a, b) && DistinctIds(a) && DistinctIds(b)
    ensures Fires(cfg, a) <==> Fires(cfg, b)
  {
    if Fires(cfg, a) { FiresCarries(cfg, a, b); }
    if Fires(cfg, b) { FiresCarries(cfg, b, a); }
  }

  /** No signal fires on a lone member, nor on an empty group. */
  lemma LoneMemberSilent(cfg: Config, ms: Group)
    requires |ms| <= 1
    ensures !Fires(cfg, ms)
  {
    DisjointEnumsMeaning(cfg, ms);
  }

  /** An optional string attribute with the given code list and nothing else of note. */
  function Coded(id: string, codes: seq<string>): Attribute {
    Attribute(id, "us", "n", "string", Optional, 1, codes, [], [], [], "n", None, [])
  }

  lemma OneCode(cfg: Config, id: string, code: string)
    ensures Similarity.Codes(cfg, Coded(id, [code])) == {cfg.upper(code)}
  {
    assert Coded(id, [code]).enumeration[0] == code;
  }

  /** A part of a silent group can fire: two disjoint lists fall silent beside a member
      without one, so splitting has to test every part again. */
  lemma SignalsAreNotMonotone(cfg: Config)
    requires cfg.upper("A") != cfg.upper("B")
    ensures !Fires(cfg, [Coded("a", ["A"]), Coded("b", ["B"]), Coded("c", [])])
    ensures Fires(cfg, [Coded("a", ["A"]), Coded("b", ["B"])])
  {
    var three := [Coded("a", ["A"]), Coded("b", ["B"]), Coded("c", [])];
    assert three[2].enumeration == [];
    var two := [Coded("a", ["A"]), Coded("b", ["B"])];
    DisjointEnumsMeaning(cfg, two);
    OneCode(cfg, "a", "A");
    OneCode(cfg, "b", "B");
    assert AllHaveEnums(two) && DisjointEnums(cfg, two);
  }
}
