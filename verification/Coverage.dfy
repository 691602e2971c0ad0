/**
 algorithms/coverage.py: the concept universe, the weighted coverage score with its table
 keyed by concept id, the three gates, and the gap register that must agree with them.
 */
module Coverage {
  import opened Wrappers
  import Attributes
  import Order

  type Level = Attributes.Level

  datatype Resolution = Core | Extension | Gap

  datatype Concept = Concept(
    id: string, weight: int, evidence: seq<string>, sme: Option<string>, resolution: Resolution, regions: set<string>,
        inferred: bool)

  datatype Record = Record(level: Level, inferred: bool)
  datatype Member = Member(attributeId: string, region: string)
  datatype Cluster = Cluster(id: string, members: seq<Member>, evidenceRefs: seq<string>)
  datatype Candidate = Candidate(id: string, placement: string, weight: int, status: string, sme: Option<string>)

  datatype Config = Config(core: real, extension: real, gap: real, regionFloor: real, domainTarget: real)

  /** The settings schema's bounds. */
  ghost predicate ValidConfig(k: Config) {
    && 0.0 <= k.core <= 1.0 && 0.0 <= k.extension <= 1.0 && 0.0 <= k.gap <= 1.0
    && 0.0 <= k.regionFloor <= 1.0 && 0.0 <= k.domainTarget <= 1.0
  }

  ghost predicate Graded(k: Config) { k.gap <= k.extension <= k.core }

  const REGIONS: seq<string> := ["us", "uk", "eu"]

  // ---------------------------------------------------------------- build_universe

  function WeightOf(level: Level): int {
    match level case Mandatory => 5 case Conditional => 3 case Optional => 1
  }

  function Strongest(records: seq<Record>): Level {
    if records == [] then Attributes.Optional
    else
      var rest := Strongest(records[1..]);
      if WeightOf(records[0].level) >= WeightOf(rest) then records[0].level else rest
  }

  function MemberRecords(members: seq<Member>, attribute: string -> Record): seq<Record> {
    seq(|members|, i requires 0 <= i < |members| => attribute(members[i].attributeId))
  }

  function ConceptOf(c: Cluster, candidates: map<string, Candidate>, attribute: string -> Record): Concept {
    var records := MemberRecords(c.members, attribute);
    var regions := set i | 0 <= i < |c.members| :: c.members[i].region;
    var evidence := Order.SortedOf(set i | 0 <= i < |c.evidenceRefs| :: c.evidenceRefs[i]);
    var inferred := records != [] && forall i :: 0 <= i < |records| ==> records[i].inferred;
    if c.id !in candidates then
      Concept(c.id, WeightOf(Strongest(records)), evidence, None, Gap, regions, inferred)
    else
      var candidate := candidates[c.id];
      Concept(candidate.id, candidate.weight, evidence, if candidate.status == "approved" then candidate.sme else None,
              if candidate.placement == "core" then Core else Extension, regions, inferred)
  }

  function Universe(clusters: seq<Cluster>, candidates: map<string, Candidate>,
        attribute: string -> Record): seq<Concept>
  {
    seq(|clusters|, i requires 0 <= i < |clusters| => ConceptOf(clusters[i], candidates, attribute))
  }

  method BuildUniverse(clusters: seq<Cluster>, candidates: map<string, Candidate>, attribute: string -> Record)
    returns (universe: seq<Concept>)
    ensures universe == Universe(clusters, candidates, attribute)
  {
    universe := [];
    for i := 0 to |clusters|
      invariant |universe| == i && forall j :: 0 <= j < i ==>
                universe[j] == ConceptOf(clusters[j], candidates, attribute)
    {
      var concept := ConceptOf(clusters[i], candidates, attribute);
      universe := universe + [concept];
    }
  }

  ghost predicate HasLevel(members: seq<Member>, attribute: string -> Record, level: Level) {
    exists m :: m in members && attribute(m.attributeId).level == level
  }

  /** A gap weighs 5 with a mandatory member, 3 with a conditional one and no mandatory, else 1. */
  lemma {:induction false} StrongestWeighs(members: seq<Member>, attribute: string -> Record)
    ensures WeightOf(Strongest(MemberRecords(members, attribute))) ==
            if HasLevel(members, attribute, Attributes.Mandatory) then 5
            else if HasLevel(members, attribute, Attributes.Conditional) then 3
            else 1
  {
    if members != [] {
      var rest := members[1..];
      StrongestWeighs(rest, attribute);
      assert members == [members[0]] + rest;
      assert MemberRecords(members, attribute)[1..] == MemberRecords(rest, attribute);
      forall level ensures HasLevel(members, attribute, level) <==>
                             attribute(members[0].attributeId).level == level || HasLevel(rest, attribute, level)
      {
        if attribute(members[0].attributeId).level == level { assert members[0] in members; }
        if HasLevel(rest, attribute, level) {
          var m :| m in rest && attribute(m.attributeId).level == level;
          assert m in members;
        }
      }
    }
  }

  lemma EvidenceListed(refs: seq<string>)
    ensures var listed := Order.SortedOf(set i | 0 <= i < |refs| :: refs[i]);
            Order.StrictlySorted(listed) && forall ref :: ref in listed <==> ref in refs
  {
    forall ref | ref in refs ensures ref in Order.SortedOf(set i | 0 <= i < |refs| :: refs[i]) {
      var i :| 0 <= i < |refs| && refs[i] == ref;
    }
  }

  /** What a cluster's concept takes from its members, and from its candidate where it has one. */
  lemma ConceptTells(c: Cluster, candidates: map<string, Candidate>, attribute: string -> Record)
    ensures var concept := ConceptOf(c, candidates, attribute);
            && (forall r :: r in concept.regions <==> exists m :: m in c.members && m.region == r)
            && Order.StrictlySorted(concept.evidence)
            && (forall ref :: ref in concept.evidence <==> ref in c.evidenceRefs)
            && (concept.inferred <==>
                c.members != [] && forall m :: m in c.members ==> attribute(m.attributeId).inferred)
    ensures var concept := ConceptOf(c, candidates, attribute);
            c.id !in candidates ==>
              && concept.id == c.id && concept.resolution == Gap && concept.sme.None?
              && concept.weight == if HasLevel(c.members, attribute, Attributes.Mandatory) then 5
                                   else if HasLevel(c.members, attribute, Attributes.Conditional) then 3
                                   else 1
    ensures var concept := ConceptOf(c, candidates, attribute);
            c.id in candidates ==>
              var candidate := candidates[c.id];
              && concept.id == candidate.id && concept.weight == candidate.weight
              && (concept.resolution == Core <==> candidate.placement == "core")
              && (concept.resolution == Extension <==> candidate.placement != "core")
              && concept.sme == if candidate.status == "approved" then candidate.sme else None
  {
    StrongestWeighs(c.members, attribute);
    EvidenceListed(c.evidenceRefs);
    MembersTell(c, candidates, attribute);
  }

  lemma MembersTell(c: Cluster, candidates: map<string, Candidate>, attribute: string -> Record)
    ensures var concept := ConceptOf(c, candidates, attribute);
            && (forall r :: r in concept.regions <==> exists m :: m in c.members && m.region == r)
            && (concept.inferred <==>
                c.members != [] && forall m :: m in c.members ==> attribute(m.attributeId).inferred)
  {
    var concept, records := ConceptOf(c, candidates, attribute), MemberRecords(c.members, attribute);
    forall m | m in c.members
      ensures m.region in concept.regions && (concept.inferred ==> attribute(m.attributeId).inferred)
    {
      var i :| 0 <= i < |c.members| && c.members[i] == m;
      assert records[i] == attribute(m.attributeId);
    }
    if c.members != [] && forall m :: m in c.members ==> attribute(m.attributeId).inferred {
      forall i | 0 <= i < |records| ensures records[i].inferred { assert c.members[i] in c.members; }
    }
  }

  // ------------------------------------------------------------------ classification

  predicate Evidenced(c: Concept) { c.evidence != [] && c.sme.Some? && c.sme.value != "" }

  function ResolutionScore(r: Resolution, k: Config): real {
    match r case Core => k.core case Extension => k.extension case Gap => k.gap
  }

  /** What one concept is worth on its own. */
  function Value(c: Concept, k: Config): real { if Evidenced(c) then ResolutionScore(c.resolution, k) else 0.0 }

  /** Evidence, and a named expert behind it. */
  ghost predicate Backed(c: Concept) { |c.evidence| > 0 && c.sme.Some? && |c.sme.value| > 0 }

  /** The worth of a concept: the weight of its resolution when it is backed, nothing otherwise. */
  ghost function OwnWorth(c: Concept, k: Config): real {
    if Backed(c) && c.resolution == Core then k.core
    else if Backed(c) && c.resolution == Extension then k.extension
    else if Backed(c) && c.resolution == Gap then k.gap
    else 0.0
  }

  predicate Unresolved(c: Concept, k: Config) { c.weight == 5 && Value(c, k) < 1.0 }

  function Filter(u: seq<Concept>, p: Concept -> bool): seq<Concept> {
    if u == [] then [] else (if p(u[0]) then [u[0]] else []) + Filter(u[1..], p)
  }

  function UnresolvedOf(u: seq<Concept>, k: Config): seq<Concept> { Filter(u, c => Unresolved(c, k)) }

  function UnevidencedOf(u: seq<Concept>): seq<Concept> { Filter(u, c => !Evidenced(c)) }

  /** resolved_r: later concepts overwrite earlier ones with the same id. */
  function Table(u: seq<Concept>, k: Config): map<string, real> {
    if u == [] then map[] else Table(u[..|u| - 1], k)[u[|u| - 1].id := Value(u[|u| - 1], k)]
  }

  method Classify(u: seq<Concept>, k: Config)
    returns (unresolved: seq<Concept>, unevidenced: seq<Concept>, resolved: map<string, real>)
    ensures unresolved == UnresolvedOf(u, k) && unevidenced == UnevidencedOf(u) && resolved == Table(u, k)
  {
    unresolved, unevidenced, resolved := [], [], map[];
    for i := 0 to |u|
      invariant unresolved + UnresolvedOf(u[i..], k) == UnresolvedOf(u, k)
      invariant unevidenced + UnevidencedOf(u[i..]) == UnevidencedOf(u)
      invariant resolved == Table(u[..i], k)
    {
      var c := u[i];
      assert u[i..][1..] == u[i + 1..] && u[..i + 1][..i] == u[..i];
      var r := 0.0;
      if !Evidenced(c) { unevidenced := unevidenced + [c]; } else { r := ResolutionScore(c.resolution, k); }
      if c.weight == 5 && r < 1.0 { unresolved := unresolved + [c]; }
      resolved := resolved[c.id := r];
    }
    assert u[..|u|] == u;
  }

  ghost predicate TableIsOwn(u: seq<Concept>, k: Config) {
    forall i :: 0 <= i < |u| ==> u[i].id in Table(u, k) && Table(u, k)[u[i].id] == Value(u[i], k)
  }

  lemma {:induction false} TableHas(u: seq<Concept>, k: Config, i: nat)
    requires i < |u|
    ensures u[i].id in Table(u, k)
    decreases |u|
  {
    if i < |u| - 1 { TableHas(u[..|u| - 1], k, i); }
  }

  lemma TableHasAll(u: seq<Concept>, k: Config)
    ensures forall i :: 0 <= i < |u| ==> u[i].id in Table(u, k)
  {
    forall i | 0 <= i < |u| ensures u[i].id in Table(u, k) { TableHas(u, k, i); }
  }

  lemma {:induction false} TableKeepsLast(u: seq<Concept>, k: Config, i: nat)
    requires i < |u| && forall j :: i < j < |u| ==> u[j].id != u[i].id
    ensures u[i].id in Table(u, k) && Table(u, k)[u[i].id] == Value(u[i], k)
    decreases |u|
  {
    if i < |u| - 1 {
      var front := u[..|u| - 1];
      assert forall j :: i < j < |front| ==> front[j] == u[j];
      TableKeepsLast(front, k, i);
    }
  }

  ghost predicate SameIdSameValue(u: seq<Concept>, k: Config) {
    forall i, j :: 0 <= i < j < |u| && u[i].id == u[j].id ==> Value(u[i], k) == Value(u[j], k)
  }

  lemma LastWithId(u: seq<Concept>, i: nat) returns (l: nat)
    requires i < |u|
    ensures i <= l < |u| && u[l].id == u[i].id && forall j :: l < j < |u| ==> u[j].id != u[l].id
    decreases |u| - i
  {
    if j :| i < j < |u| && u[j].id == u[i].id { l := LastWithId(u, j); } else { l := i; }
  }

  /** The keyed table gives every concept its own value exactly when concepts that share an
      id share a value. */
  lemma TableIsOwnIff(u: seq<Concept>, k: Config)
    ensures TableIsOwn(u, k) <==> SameIdSameValue(u, k)
  {
    forall i | 0 <= i < |u| && SameIdSameValue(u, k)
      ensures u[i].id in Table(u, k) && Table(u, k)[u[i].id] == Value(u[i], k)
    {
      var l := LastWithId(u, i);
      TableKeepsLast(u, k, l);
    }
  }

  const CLUSTER_SCHEME := "cluster://"
  const CANDIDATE_SCHEME := "canon://"

  /** The C6 and C8 schemas' id patterns, and candidate ids naming one candidate each. */
  ghost predicate WellNamed(clusters: seq<Cluster>, candidates: map<string, Candidate>) {
    && (forall i :: 0 <= i < |clusters| ==> CLUSTER_SCHEME <= clusters[i].id)
    && (forall x :: x in candidates ==> CANDIDATE_SCHEME <= candidates[x].id)
    && (forall x, y :: x in candidates && y in candidates && candidates[x].id == candidates[y].id ==>
       candidates[x] == candidates[y])
  }

  /** A universe built from evidenced clusters keeps each concept's own value in the table,
      even where clusters share a candidate. */
  lemma BuiltTableIsOwn(clusters: seq<Cluster>, candidates: map<string, Candidate>, attribute: string -> Record,
        k: Config)
    requires WellNamed(clusters, candidates) && forall i :: 0 <= i < |clusters| ==> clusters[i].evidenceRefs != []
    ensures TableIsOwn(Universe(clusters, candidates, attribute), k)
  {
    var u := Universe(clusters, candidates, attribute);
    forall i, j | 0 <= i < j < |u| && u[i].id == u[j].id ensures Value(u[i], k) == Value(u[j], k) {
      PairShares(clusters, candidates, attribute, k, i, j);
    }
    TableIsOwnIff(u, k);
  }

  lemma PairShares(clusters: seq<Cluster>, candidates: map<string, Candidate>, attribute: string -> Record, k: Config,
        i: nat, j: nat)
    requires WellNamed(clusters, candidates) && i < j < |clusters|
    requires clusters[i].evidenceRefs != [] && clusters[j].evidenceRefs != []
    requires ConceptOf(clusters[i], candidates, attribute).id == ConceptOf(clusters[j], candidates, attribute).id
    ensures Value(ConceptOf(clusters[i], candidates, attribute), k)
            == Value(ConceptOf(clusters[j], candidates, attribute), k)
  {
    assert WellNamed([clusters[i], clusters[j]], candidates);
    SharedIdSharedWorth(clusters[i], clusters[j], candidates, attribute, k);
  }

  lemma SharedIdSharedWorth(c: Cluster, d: Cluster, candidates: map<string, Candidate>, attribute: string -> Record,
        k: Config)
    requires WellNamed([c, d], candidates) && c.evidenceRefs != [] && d.evidenceRefs != []
    requires ConceptOf(c, candidates, attribute).id == ConceptOf(d, candidates, attribute).id
    ensures Value(ConceptOf(c, candidates, attribute), k) == Value(ConceptOf(d, candidates, attribute), k)
  {
    Worth(c, candidates, attribute, k);
    Worth(d, candidates, attribute, k);
    assert [c, d][0] == c && [c, d][1] == d;
    assert CLUSTER_SCHEME[1] == 'l' && CANDIDATE_SCHEME[1] == 'a';
  }

  /** An evidenced cluster's concept is worth what its candidate alone determines. */
  function CandidateValue(c: Candidate, k: Config): real {
    if c.status == "approved" && c.sme.Some? && c.sme.value != ""
        then (if c.placement == "core" then k.core else k.extension) else 0.0
  }

  lemma Worth(c: Cluster, candidates: map<string, Candidate>, attribute: string -> Record, k: Config)
    requires c.evidenceRefs != []
    ensures var concept := ConceptOf(c, candidates, attribute);
            if c.id in candidates then concept.id == candidates[c.id].id &&
                Value(concept, k) == CandidateValue(candidates[c.id], k)
            else concept.id == c.id && Value(concept, k) == 0.0
  {
    EvidenceKept(c, candidates, attribute);
  }

  lemma EvidenceKept(c: Cluster, candidates: map<string, Candidate>, attribute: string -> Record)
    requires c.evidenceRefs != []
    ensures ConceptOf(c, candidates, attribute).evidence != []
    ensures c.id !in candidates ==> !Evidenced(ConceptOf(c, candidates, attribute))
  {
    var refs := set i | 0 <= i < |c.evidenceRefs| :: c.evidenceRefs[i];
    assert c.evidenceRefs[0] in refs;
    assert c.evidenceRefs[0] in Order.SortedOf(refs);
  }

  /** A gap of a built universe is never ratified, so it is worth nothing. */
  lemma BuiltGapsUnevidenced(clusters: seq<Cluster>, candidates: map<string, Candidate>, attribute: string -> Record)
    ensures forall c :: c in Universe(clusters, candidates, attribute) && c.resolution.Gap? ==> !Evidenced(c)
  {
  }

  // ------------------------------------------------------------------------- score

  function Den(u: seq<Concept>): int { if u == [] then 0 else u[0].weight + Den(u[1..]) }

  function Num(u: seq<Concept>, table: map<string, real>): real
    requires forall i :: 0 <= i < |u| ==> u[i].id in table
  {
    if u == [] then 0.0 else u[0].weight as real * table[u[0].id] + Num(u[1..], table)
  }

  function Score(u: seq<Concept>, k: Config): real {
    TableHasAll(u, k);
    if Den(u) != 0 then Num(u, Table(u, k)) / Den(u) as real else 0.0
  }

  ghost predicate Weighted(u: seq<Concept>) { forall i :: 0 <= i < |u| ==> u[i].weight in {1, 3, 5} }

  ghost predicate UniqueIds(u: seq<Concept>) { forall i, j :: 0 <= i < j < |u| ==> u[i].id != u[j].id }

  lemma {:induction false} DenPositive(u: seq<Concept>)
    requires Weighted(u)
    ensures Den(u) >= |u|
  {
    if u != [] { DenPositive(u[1..]); }
  }

  /** What the universe would add up to if every concept were worth x. */
  function Scaled(u: seq<Concept>, x: real): real {
    if u == [] then 0.0 else u[0].weight as real * x + Scaled(u[1..], x)
  }

  lemma {:induction false} ScaledIsProduct(u: seq<Concept>, x: real)
    ensures Scaled(u, x) == x * Den(u) as real
  {
    if u != [] {
      ScaledIsProduct(u[1..], x);
      Distribute(u[0].weight, Den(u[1..]), x);
    }
  }

  lemma Distribute(a: int, b: int, x: real)
    ensures a as real * x + x * b as real == x * (a + b) as real
  {
    DistributeReal(a as real, b as real, x);
    assert (a + b) as real == a as real + b as real;
  }

  lemma DistributeReal(p: real, q: real, x: real)
    ensures p * x + x * q == x * (p + q)
  {
  }

  lemma {:induction false} NumBetween(u: seq<Concept>, table: map<string, real>, lo: real, hi: real)
    requires Weighted(u) && forall i :: 0 <= i < |u| ==> u[i].id in table && lo <= table[u[i].id] <= hi
    ensures Scaled(u, lo) <= Num(u, table) <= Scaled(u, hi)
  {
    if u != [] {
      NumBetween(u[1..], table, lo, hi);
      SumBetween(u[0].weight as real, lo, table[u[0].id], hi, Scaled(u[1..], lo), Num(u[1..], table),
          Scaled(u[1..], hi));
    }
  }

  lemma SumBetween(w: real, lo: real, r: real, hi: real, a: real, b: real, c: real)
    requires w >= 0.0 && lo <= r <= hi && a <= b <= c
    ensures w * lo + a <= w * r + b <= w * hi + c
  {
    ProductMonotone(w, lo, r);
    ProductMonotone(w, r, hi);
  }

  lemma NumInProportion(u: seq<Concept>, table: map<string, real>, lo: real, hi: real)
    requires Weighted(u) && forall i :: 0 <= i < |u| ==> u[i].id in table && lo <= table[u[i].id] <= hi
    ensures lo * Den(u) as real <= Num(u, table) <= hi * Den(u) as real
  {
    NumBetween(u, table, lo, hi);
    ScaledIsProduct(u, lo);
    ScaledIsProduct(u, hi);
  }

  /** A weighted mean lies between bounds on the values. */
  lemma RatioBetween(u: seq<Concept>, table: map<string, real>, lo: real, hi: real)
    requires Weighted(u) && u != [] && forall i :: 0 <= i < |u| ==> u[i].id in table && lo <= table[u[i].id] <= hi
    ensures Den(u) > 0 && lo <= Num(u, table) / Den(u) as real <= hi
  {
    DenPositive(u);
    NumInProportion(u, table, lo, hi);
    MeanBetween(Num(u, table), Den(u) as real, lo, hi);
  }

  lemma MeanBetween(num: real, den: real, lo: real, hi: real)
    requires den > 0.0 && lo * den <= num <= hi * den
    ensures lo <= num / den <= hi
  {
    var q := num / den;
    assert q * den == num;
    if q < lo { ProductLess(q, lo, den); }
    if hi < q { ProductLess(hi, q, den); }
  }

  lemma ProductLess(a: real, b: real, d: real)
    requires a < b && d > 0.0
    ensures a * d < b * d
  {
  }

  lemma {:induction false} TableInUnit(u: seq<Concept>, k: Config)
    requires ValidConfig(k)
    ensures forall x :: x in Table(u, k) ==> 0.0 <= Table(u, k)[x] <= 1.0
    decreases |u|
  {
    if u != [] { TableInUnit(u[..|u| - 1], k); }
  }

  /** The score stays in [0, 1], with shared ids or without. */
  lemma ScoreInUnit(u: seq<Concept>, k: Config)
    requires ValidConfig(k) && Weighted(u)
    ensures 0.0 <= Score(u, k) <= 1.0
  {
    TableHasAll(u, k);
    TableInUnit(u, k);
    if u != [] { RatioBetween(u, Table(u, k), 0.0, 1.0); }
  }

  /** Gate 3: with every concept of a built universe evidenced there is no gap left, and the
      score is at least the smaller of the core and extension weights. */
  lemma Gate3MeansResolved(clusters: seq<Cluster>, candidates: map<string, Candidate>, attribute: string -> Record,
        k: Config)
    requires clusters != []
    requires Weighted(Universe(clusters, candidates, attribute))
    requires UnevidencedOf(Universe(clusters, candidates, attribute)) == []
    ensures forall c :: c in Universe(clusters, candidates, attribute) ==> !c.resolution.Gap?
    ensures Score(Universe(clusters, candidates, attribute), k) >= if k.core <= k.extension then k.core else k.extension
  {
    var u := Universe(clusters, candidates, attribute);
    FilterExact(u, c => !Evidenced(c));
    BuiltGapsUnevidenced(clusters, candidates, attribute);
    ResolvedScore(u, k);
  }

  lemma ResolvedScore(u: seq<Concept>, k: Config)
    requires Weighted(u) && u != [] && forall c :: c in u ==> Evidenced(c) && !c.resolution.Gap?
    ensures Score(u, k) >= if k.core <= k.extension then k.core else k.extension
  {
    if k.core <= k.extension {
      ScoreBetween(u, k, k.core, k.extension);
    } else {
      ScoreBetween(u, k, k.extension, k.core);
    }
  }

  lemma ScoreBetween(u: seq<Concept>, k: Config, lo: real, hi: real)
    requires Weighted(u) && u != [] && forall c :: c in u ==> lo <= Value(c, k) <= hi
    ensures lo <= Score(u, k) <= hi
  {
    var table := Table(u, k);
    forall i | 0 <= i < |u| ensures u[i].id in table && lo <= table[u[i].id] <= hi { EntryBetween(u, k, lo, hi, i); }
    TableHasAll(u, k);
    RatioBetween(u, table, lo, hi);
  }

  lemma EntryBetween(u: seq<Concept>, k: Config, lo: real, hi: real, i: nat)
    requires i < |u| && forall c :: c in u ==> lo <= Value(c, k) <= hi
    ensures u[i].id in Table(u, k) && lo <= Table(u, k)[u[i].id] <= hi
  {
    var l := LastWithId(u, i);
    TableKeepsLast(u, k, l);
    assert u[l] in u;
  }

  lemma {:induction false} FilterExact(u: seq<Concept>, p: Concept -> bool)
    ensures forall c :: c in Filter(u, p) <==> c in u && p(c)
  {
    if u != [] {
      FilterExact(u[1..], p);
      assert u == [u[0]] + u[1..];
    }
  }

  // ----------------------------------------------------- how the score may move

  ghost function Contribution(c: Concept, k: Config): real { c.weight as real * OwnWorth(c, k) }

  /** The sum over own values, of the concepts that satisfy p. */
  ghost function NumWhere(u: seq<Concept>, k: Config, p: Concept -> bool): real {
    if u == [] then 0.0 else (if p(u[0]) then Contribution(u[0], k) else 0.0) + NumWhere(u[1..], k, p)
  }

  ghost function DenWhere(u: seq<Concept>, p: Concept -> bool): int {
    if u == [] then 0 else (if p(u[0]) then u[0].weight else 0) + DenWhere(u[1..], p)
  }

  lemma {:induction false} FilterUnique(u: seq<Concept>, p: Concept -> bool)
    requires UniqueIds(u)
    ensures UniqueIds(Filter(u, p))
  {
    if u != [] {
      FilterUnique(u[1..], p);
      FilterExact(u[1..], p);
      var rest := Filter(u[1..], p);
      forall j | 0 <= j < |rest| ensures rest[j].id != u[0].id {
        assert rest[j] in u[1..];
      }
    }
  }

  lemma {:induction false} NumIsOwn(u: seq<Concept>, table: map<string, real>, k: Config)
    requires forall i :: 0 <= i < |u| ==> u[i].id in table && table[u[i].id] == Value(u[i], k)
    ensures Num(u, table) == NumWhere(u, k, _ => true) && Den(u) == DenWhere(u, _ => true)
  {
    if u != [] { NumIsOwn(u[1..], table, k); }
  }

  lemma {:induction false} SumsOfFilter(u: seq<Concept>, k: Config, p: Concept -> bool)
    ensures NumWhere(Filter(u, p), k, _ => true) == NumWhere(u, k, p)
    ensures DenWhere(Filter(u, p), _ => true) == DenWhere(u, p)
  {
    if u != [] {
      SumsOfFilter(u[1..], k, p);
      var f := Filter(u[1..], p);
      assert p(u[0]) ==> ([u[0]] + f)[1..] == f;
      assert !p(u[0]) ==> Filter(u, p) == f;
    }
  }

  function MeanOf(num: real, den: int): real { if den != 0 then num / den as real else 0.0 }

  /** With unique ids the score of any sub-universe is the mean of the concepts' own values. */
  lemma ScoreIsMean(u: seq<Concept>, k: Config, p: Concept -> bool)
    requires UniqueIds(u)
    ensures Score(Filter(u, p), k) == MeanOf(NumWhere(u, k, p), DenWhere(u, p))
  {
    var f := Filter(u, p);
    FilterUnique(u, p);
    TableIsOwnIff(f, k);
    NumIsOwn(f, Table(f, k), k);
    SumsOfFilter(u, k, p);
  }

  lemma {:induction false} SumsAfterChange(u: seq<Concept>, k: Config, p: Concept -> bool, i: nat, c: Concept)
    requires i < |u| && p(c) == p(u[i]) && c.weight == u[i].weight
    ensures NumWhere(u[i := c], k, p) ==
            NumWhere(u, k, p) + (if p(c) then Contribution(c, k) - Contribution(u[i], k) else 0.0)
    ensures DenWhere(u[i := c], p) == DenWhere(u, p)
    decreases |u|
  {
    if i == 0 {
      assert u[i := c][1..] == u[1..];
    } else {
      assert u[i := c][1..] == u[1..][i - 1 := c];
      SumsAfterChange(u[1..], k, p, i - 1, c);
    }
  }

  lemma {:induction false} DenWhereNonNegative(u: seq<Concept>, p: Concept -> bool)
    requires Weighted(u)
    ensures DenWhere(u, p) >= 0
  {
    if u != [] { DenWhereNonNegative(u[1..], p); }
  }

  /** Same concept, no less evidence or ratification, no lower resolution. */
  ghost predicate Upgrades(c: Concept, c': Concept) {
    && c'.id == c.id && c'.weight == c.weight && c'.regions == c.regions
    && (Evidenced(c) ==> Evidenced(c'))
    && (c'.resolution.Core? || c'.resolution == c.resolution || (c.resolution.Gap? && c'.resolution.Extension?))
  }

  ghost predicate RegionBlind(p: Concept -> bool) {
    forall c: Concept, c': Concept :: c.regions == c'.regions ==> p(c) == p(c')
  }

  function InRegion(region: string): Concept -> bool { (c: Concept) => region in c.regions }

  /** Upgrading one concept never lowers the score of the whole universe nor of any region:
      p is any choice that looks only at a concept's regions. */
  lemma UpgradeNeverLowers(u: seq<Concept>, k: Config, p: Concept -> bool, i: nat, c: Concept)
    requires ValidConfig(k) && Graded(k) && UniqueIds(u) && Weighted(u) && RegionBlind(p)
    requires i < |u| && Upgrades(u[i], c)
    ensures Score(Filter(u[i := c], p), k) >= Score(Filter(u, p), k)
  {
    var u' := u[i := c];
    ScoreIsMean(u, k, p);
    ScoreIsMean(u', k, p);
    NumAfterUpgrade(u, k, p, i, c);
    DenWhereNonNegative(u, p);
    MeanMonotone(NumWhere(u, k, p), NumWhere(u', k, p), DenWhere(u, p));
  }

  lemma NumAfterUpgrade(u: seq<Concept>, k: Config, p: Concept -> bool, i: nat, c: Concept)
    requires ValidConfig(k) && Graded(k) && Weighted(u) && RegionBlind(p) && i < |u| && Upgrades(u[i], c)
    ensures NumWhere(u[i := c], k, p) >= NumWhere(u, k, p) && DenWhere(u[i := c], p) == DenWhere(u, p)
  {
    SumsAfterChange(u, k, p, i, c);
    ContributionRises(u[i], c, k);
  }

  lemma ContributionRises(c: Concept, c': Concept, k: Config)
    requires ValidConfig(k) && Graded(k) && Upgrades(c, c') && c.weight >= 0
    ensures Contribution(c, k) <= Contribution(c', k)
  {
    ProductMonotone(c.weight as real, Value(c, k), Value(c', k));
  }

  lemma MeanMonotone(a: real, b: real, d: int)
    requires a <= b && d >= 0
    ensures MeanOf(a, d) <= MeanOf(b, d)
  {
    if d != 0 { DivideMonotone(a, b, d as real); }
  }

  lemma ProductMonotone(w: real, a: real, b: real)
    requires w >= 0.0 && a <= b
    ensures w * a <= w * b
  {
  }

  lemma DivideMonotone(a: real, b: real, d: real)
    requires a <= b && d > 0.0
    ensures a / d <= b / d
  {
  }

  lemma {:induction false} SumsAfterAppend(u: seq<Concept>, k: Config, p: Concept -> bool, c: Concept)
    ensures NumWhere(u + [c], k, p) == NumWhere(u, k, p) + (if p(c) then Contribution(c, k) else 0.0)
    ensures DenWhere(u + [c], p) == DenWhere(u, p) + (if p(c) then c.weight else 0)
    decreases |u|
  {
    if u == [] {
      assert [c][1..] == [] && u + [c] == [c];
    } else {
      assert (u + [c])[1..] == u[1..] + [c];
      SumsAfterAppend(u[1..], k, p, c);
    }
  }

  /** Adding a concept raises a score it counts towards exactly when it is worth more than
      that score; it never touches the others. */
  lemma AddingRaisesIff(u: seq<Concept>, k: Config, p: Concept -> bool, c: Concept)
    requires UniqueIds(u + [c]) && Weighted(u + [c])
    ensures !p(c) ==> Score(Filter(u + [c], p), k) == Score(Filter(u, p), k)
    ensures p(c) ==> (Score(Filter(u + [c], p), k) > Score(Filter(u, p), k) <==> Value(c, k) > Score(Filter(u, p), k))
  {
    FrontOf(u, c);
    ScoreIsMean(u, k, p);
    ScoreIsMean(u + [c], k, p);
    MeanAfterAppend(u, k, p, c);
  }

  lemma FrontOf(u: seq<Concept>, c: Concept)
    requires UniqueIds(u + [c]) && Weighted(u + [c])
    ensures UniqueIds(u) && Weighted(u) && c.weight > 0
  {
    assert forall i :: 0 <= i < |u| ==> (u + [c])[i] == u[i];
    assert (u + [c])[|u|] == c;
  }

  lemma MeanAfterAppend(u: seq<Concept>, k: Config, p: Concept -> bool, c: Concept)
    requires Weighted(u) && c.weight > 0
    ensures var before, after := MeanOf(NumWhere(u, k, p), DenWhere(u, p)),
            MeanOf(NumWhere(u + [c], k, p), DenWhere(u + [c], p));
            if p(c) then (after > before <==> Value(c, k) > before) else after == before
  {
    SumsAfterAppend(u, k, p, c);
    if p(c) {
      DenWhereNonNegative(u, p);
      EmptyWhere(u, k, p);
      MixedMean(NumWhere(u, k, p), DenWhere(u, p), NumWhere(u + [c], k, p), DenWhere(u + [c], p), c.weight,
          Value(c, k));
    }
  }

  lemma {:induction false} EmptyWhere(u: seq<Concept>, k: Config, p: Concept -> bool)
    requires Weighted(u)
    ensures DenWhere(u, p) == 0 ==> NumWhere(u, k, p) == 0.0
  {
    if u != [] {
      DenWhereNonNegative(u[1..], p);
      EmptyWhere(u[1..], k, p);
    }
  }

  lemma MixedMean(num: real, den: int, num': real, den': int, w: int, r: real)
    requires den >= 0 && w > 0 && (den == 0 ==> num == 0.0) && num' == num + w as real * r && den' == den + w
    ensures MeanOf(num', den') > MeanOf(num, den) <==> r > MeanOf(num, den)
  {
    var m, m' := MeanOf(num, den), MeanOf(num', den');
    assert m * den as real == num;
    assert m' * den' as real == num';
    Crossed(m, m', den as real, w as real, r);
    SameSign(m' - m, den' as real, r - m, w as real);
  }

  lemma Crossed(m: real, m': real, d: real, v: real, r: real)
    requires m' * (d + v) == m * d + v * r
    ensures (m' - m) * (d + v) == v * (r - m)
  {
    assert (m' - m) * (d + v) == m' * (d + v) - m * (d + v);
    assert m * (d + v) == m * d + m * v;
    assert v * (r - m) == v * r - v * m;
  }

  lemma SameSign(a: real, x: real, b: real, y: real)
    requires a * x == y * b && x > 0.0 && y > 0.0
    ensures a > 0.0 <==> b > 0.0
  {
  }

  /** An unevidenced concept, and so any gap build_universe makes, never raises a score. */
  lemma UnevidencedNeverRaises(u: seq<Concept>, k: Config, p: Concept -> bool, c: Concept)
    requires ValidConfig(k) && UniqueIds(u + [c]) && Weighted(u + [c]) && !Evidenced(c)
    ensures Score(Filter(u + [c], p), k) <= Score(Filter(u, p), k)
  {
    AddingRaisesIff(u, k, p, c);
    FilterWeighted(u + [c], u, p);
    ScoreInUnit(Filter(u, p), k);
  }

  lemma FilterWeighted(all: seq<Concept>, u: seq<Concept>, p: Concept -> bool)
    requires Weighted(all) && u <= all
    ensures Weighted(Filter(u, p))
  {
    FilterExact(u, p);
    forall i | 0 <= i < |Filter(u, p)| ensures Filter(u, p)[i].weight in {1, 3, 5} {
      assert Filter(u, p)[i] in u;
    }
  }

  /** A ratified, evidenced gap is another matter: with a gap weight above the current score
      it does raise it. */
  lemma RatifiedGapCanRaise(k: Config)
    requires k.gap > 0.0
    ensures var poor, gap := Concept("a", 1, [], None, Core, {"us"}, false),
            Concept("b", 1, ["e"], Some("sme"), Gap, {"us"}, false);
            Score(Filter([poor, gap], InRegion("us")), k) > Score(Filter([poor], InRegion("us")), k)
  {
    var poor, gap := Concept("a", 1, [], None, Core, {"us"}, false),
        Concept("b", 1, ["e"], Some("sme"), Gap, {"us"}, false);
    var p := InRegion("us");
    assert [poor] + [gap] == [poor, gap];
    AddingRaisesIff([poor], k, p, gap);
    ScoreIsMean([poor], k, p);
    assert [poor][1..] == [];
    assert NumWhere([poor], k, p) == 0.0;
  }
}
