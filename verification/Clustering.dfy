/**
 algorithms/clustering.py: block-wise pair scoring, connected components, homonym split and
 cluster assembly. build_blocks is a parameter: any list of blocks of distinct attributes.
 */
module Clustering {
  import opened Wrappers
  import opened Attributes
  import opened Signals
  import opened Order
  import opened Graph
  import opened Conflict
  import opened Sequences
  import Similarity

  type Embeddings = map<string, seq<real>>

  // ------------------------------------------------------------------ combinations

  function WithFirst(m: Attribute, rest: Group): seq<(Attribute, Attribute)> {
    seq(|rest|, i requires 0 <= i < |rest| => (m, rest[i]))
  }

  /** itertools.combinations(ms, 2) */
  function Combinations(ms: Group): seq<(Attribute, Attribute)> {
    if ms == [] then [] else WithFirst(ms[0], ms[1..]) + Combinations(ms[1..])
  }

  /** Every combination is of two members, the first one before the second. */
  lemma {:induction false} CombinationOf(ms: Group, c: (Attribute, Attribute)) returns (i: nat, j: nat)
    requires c in Combinations(ms)
    ensures i < j < |ms| && c == (ms[i], ms[j])
    decreases |ms|
  {
    var first := WithFirst(ms[0], ms[1..]);
    if c in first {
      var k :| 0 <= k < |first| && first[k] == c;
      i, j := 0, k + 1;
    } else {
      i, j := CombinationOf(ms[1..], c);
      i, j := i + 1, j + 1;
    }
  }

  lemma {:induction false} CombinationListed(ms: Group, i: nat, j: nat)
    requires i < j < |ms|
    ensures (ms[i], ms[j]) in Combinations(ms)
    decreases |ms|
  {
    if i == 0 {
      assert WithFirst(ms[0], ms[1..])[j - 1] == (ms[0], ms[j]);
    } else {
      CombinationListed(ms[1..], i - 1, j - 1);
    }
  }

  function PairId(c: (Attribute, Attribute)): Pair { {c.0.id, c.1.id} }

  function PairIds(cs: seq<(Attribute, Attribute)>): set<Pair> { set i | 0 <= i < |cs| :: PairId(cs[i]) }

  function AllCombinations(blocks: seq<Group>): seq<(Attribute, Attribute)> {
    if blocks == [] then [] else AllCombinations(blocks[..|blocks| - 1]) + Combinations(blocks[|blocks| - 1])
  }

  // ------------------------------------------------------------------- pair scoring

  datatype ReviewPair = ReviewPair(a: Attribute, b: Attribute, score: real)

  datatype Scan = Scan(seen: set<Pair>, edges: Edges, review: seq<ReviewPair>)

  /** The score of a pair of ids, whichever of the two is taken first. */
  ghost predicate Scores(cfg: Config, emb: Embeddings, attrs: Group, p: Pair, s: real) {
    exists a, b :: a in attrs && b in attrs && p == {a.id, b.id} && s == Similarity.Score(cfg, emb, a, b)
  }

  lemma ScoreUnique(cfg: Config, emb: Embeddings, attrs: Group, p: Pair, s: real, t: real)
    requires DistinctIds(attrs) && Scores(cfg, emb, attrs, p, s) && Scores(cfg, emb, attrs, p, t)
    ensures s == t
  {
    var a, b :| a in attrs && b in attrs && p == {a.id, b.id} && s == Similarity.Score(cfg, emb, a, b);
    var c, d :| c in attrs && d in attrs && p == {c.id, d.id} && t == Similarity.Score(cfg, emb, c, d);
    PairIs(a.id, b.id, c.id, d.id);
    SameIdSame(attrs, a, c);
    SameIdSame(attrs, a, d);
    SameIdSame(attrs, b, c);
    SameIdSame(attrs, b, d);
    Similarity.ScoreSymmetric(cfg, emb, a, b);
  }

  lemma SameIdSame(attrs: Group, a: Attribute, b: Attribute)
    requires DistinctIds(attrs) && a in attrs && b in attrs
    ensures a.id == b.id ==> a == b
  {
    var i :| 0 <= i < |attrs| && attrs[i] == a;
    var j :| 0 <= j < |attrs| && attrs[j] == b;
  }

  /** "This pair of ids scores s", as a relation. */
  type Scoring = (Pair, real) -> bool

  ghost function ScoringOf(cfg: Config, emb: Embeddings, attrs: Group): Scoring {
    (p: Pair, s: real) => Scores(cfg, emb, attrs, p, s)
  }

  /** The edges are exactly the seen pairs at or above the threshold, with their scores. */
  ghost predicate EdgesExact(S: Scoring, link: real, seen: set<Pair>, edges: Edges) {
    && (forall p :: p in edges ==> p in seen && S(p, edges[p]) && edges[p] >= link)
    && (forall p, s :: p in seen && S(p, s) && s >= link ==> p in edges)
  }

  function ReviewId(r: ReviewPair): Pair { {r.a.id, r.b.id} }

  ghost predicate ReviewSound(S: Scoring, low: real, link: real, seen: set<Pair>, review: seq<ReviewPair>) {
    forall r :: r in review ==> ReviewId(r) in seen && S(ReviewId(r), r.score) && low <= r.score < link
  }

  ghost predicate ReviewOnce(review: seq<ReviewPair>) {
    forall i, j :: 0 <= i < j < |review| ==> ReviewId(review[i]) != ReviewId(review[j])
  }

  ghost predicate ReviewComplete(S: Scoring, low: real, link: real, seen: set<Pair>, review: seq<ReviewPair>) {
    forall p, s :: p in seen && S(p, s) && low <= s < link ==> exists r :: r in review && ReviewId(r) == p
  }

  /** The review list holds exactly the seen pairs in the band, each once. */
  ghost predicate ReviewExact(S: Scoring, low: real, link: real, seen: set<Pair>, review: seq<ReviewPair>) {
    ReviewSound(S, low, link, seen, review) && ReviewOnce(review) && ReviewComplete(S, low, link, seen, review)
  }

  ghost predicate ScanExact(S: Scoring, cfg: Config, s: Scan) {
    && TwoEnded(s.seen)
    && EdgesExact(S, cfg.linkThreshold, s.seen, s.edges)
    && ReviewExact(S, cfg.reviewBandLow, cfg.linkThreshold, s.seen, s.review)
  }

  /** One pair of the double loop, once it has been scored. */
  function Record(link: real, low: real, s: Scan, c: (Attribute, Attribute), score: real): Scan {
    var p := PairId(c);
    if score >= link then Scan(s.seen + {p}, s.edges[p := score], s.review)
    else if score >= low then Scan(s.seen + {p}, s.edges, s.review + [ReviewPair(c.0, c.1, score)])
    else s.(seen := s.seen + {p})
  }

  function ScanPair(cfg: Config, emb: Embeddings, s: Scan, c: (Attribute, Attribute)): Scan {
    if PairId(c) in s.seen then s
    else Record(cfg.linkThreshold, cfg.reviewBandLow, s, c, Similarity.Score(cfg, emb, c.0, c.1))
  }

  lemma RecordEdges(S: Scoring, link: real, seen: set<Pair>, edges: Edges, p: Pair, score: real)
    requires EdgesExact(S, link, seen, edges) && p !in seen && S(p, score) && forall t :: S(p, t) ==> t == score
    ensures EdgesExact(S, link, seen + {p}, if score >= link then edges[p := score] else edges)
  {
  }

  lemma RecordReview(S: Scoring, low: real, link: real, seen: set<Pair>, review: seq<ReviewPair>, r: ReviewPair)
    requires ReviewExact(S, low, link, seen, review) && ReviewId(r) !in seen
    requires S(ReviewId(r), r.score) && forall t :: S(ReviewId(r), t) ==> t == r.score
    ensures ReviewExact(S, low, link, seen + {ReviewId(r)}, if low <= r.score < link then review + [r] else review)
  {
    var after := if low <= r.score < link then review + [r] else review;
    assert forall x :: x in after ==> x in review || x == r;
    forall i | 0 <= i < |review| ensures ReviewId(review[i]) != ReviewId(r) { assert review[i] in review; }
    forall q, t | q in seen + {ReviewId(r)} && S(q, t) && low <= t < link
      ensures exists x :: x in after && ReviewId(x) == q
    {
      if q in seen {
        var x :| x in review && ReviewId(x) == q;
        assert x in after;
      } else {
        assert r in after;
      }
    }
  }

  lemma RecordExact(S: Scoring, cfg: Config, s: Scan, c: (Attribute, Attribute), score: real)
    requires ScanExact(S, cfg, s) && PairId(c) !in s.seen && c.0.id != c.1.id
    requires S(PairId(c), score) && forall t :: S(PairId(c), t) ==> t == score
    ensures ScanExact(S, cfg, Record(cfg.linkThreshold, cfg.reviewBandLow, s, c, score))
  {
    RecordEdges(S, cfg.linkThreshold, s.seen, s.edges, PairId(c), score);
    RecordReview(S, cfg.reviewBandLow, cfg.linkThreshold, s.seen, s.review, ReviewPair(c.0, c.1, score));
  }

  /** The pair has this score and no other. */
  ghost predicate OnlyScore(S: Scoring, p: Pair, score: real) { S(p, score) && forall t :: S(p, t) ==> t == score }

  lemma PairScored(cfg: Config, emb: Embeddings, attrs: Group, c: (Attribute, Attribute))
    requires DistinctIds(attrs) && c.0 in attrs && c.1 in attrs
    ensures OnlyScore(ScoringOf(cfg, emb, attrs), PairId(c), Similarity.Score(cfg, emb, c.0, c.1))
  {
    var p, score := PairId(c), Similarity.Score(cfg, emb, c.0, c.1);
    assert Scores(cfg, emb, attrs, p, score);
    forall t | Scores(cfg, emb, attrs, p, t) ensures t == score { ScoreUnique(cfg, emb, attrs, p, score, t); }
  }

  lemma RecordScored(S: Scoring, cfg: Config, s: Scan, c: (Attribute, Attribute), score: real)
    requires ScanExact(S, cfg, s) && c.0.id != c.1.id && OnlyScore(S, PairId(c), score)
    ensures var next := if PairId(c) in s.seen then s else Record(cfg.linkThreshold, cfg.reviewBandLow, s, c, score);
            ScanExact(S, cfg, next) && next.seen == s.seen + {PairId(c)}
  {
    if PairId(c) !in s.seen { RecordExact(S, cfg, s, c, score); }
  }

  /** One turn of the pair loop keeps the scan exact. */
  lemma ScanPairExact(cfg: Config, emb: Embeddings, attrs: Group, s: Scan, c: (Attribute, Attribute))
    requires DistinctIds(attrs) && ScanExact(ScoringOf(cfg, emb, attrs), cfg, s)
    requires c.0 in attrs && c.1 in attrs && c.0.id != c.1.id
    ensures ScanExact(ScoringOf(cfg, emb, attrs), cfg, ScanPair(cfg, emb, s, c))
    ensures ScanPair(cfg, emb, s, c).seen == s.seen + {PairId(c)}
  {
    PairScored(cfg, emb, attrs, c);
    RecordScored(ScoringOf(cfg, emb, attrs), cfg, s, c, Similarity.Score(cfg, emb, c.0, c.1));
  }

  ghost predicate GoodBlocks(attrs: Group, blocks: seq<Group>) {
    forall k :: 0 <= k < |blocks| ==> DistinctIds(blocks[k]) && forall m :: m in blocks[k] ==> m in attrs
  }

  lemma PairIdsGrow(cs: seq<(Attribute, Attribute)>, i: nat)
    requires i < |cs|
    ensures PairIds(cs[..i + 1]) == PairIds(cs[..i]) + {PairId(cs[i])}
  {
    assert cs[..i + 1] == cs[..i] + [cs[i]];
    PairIdsConcat(cs[..i], [cs[i]]);
    assert [cs[i]][0] == cs[i];
  }

  lemma PairIdsConcat(a: seq<(Attribute, Attribute)>, b: seq<(Attribute, Attribute)>)
    ensures PairIds(a + b) == PairIds(a) + PairIds(b)
  {
    forall p ensures p in PairIds(a + b) <==> p in PairIds(a) + PairIds(b) {
      if p in PairIds(a) { var i :| 0 <= i < |a| && PairId(a[i]) == p; assert (a + b)[i] == a[i]; }
      if p in PairIds(b) { var i :| 0 <= i < |b| && PairId(b[i]) == p; assert (a + b)[|a| + i] == b[i]; }
    }
  }

  method ScanBlock(cfg: Config, emb: Embeddings, ghost attrs: Group, block: Group, before: Scan) returns (s: Scan)
    requires DistinctIds(attrs) && DistinctIds(block) && (forall m :: m in block ==> m in attrs) &&
             ScanExact(ScoringOf(cfg, emb, attrs), cfg, before)
    ensures ScanExact(ScoringOf(cfg, emb, attrs), cfg, s) && s.seen == before.seen + PairIds(Combinations(block))
  {
    PairsOfBlock(attrs, block);
    s := ScanPairs(cfg, emb, Combinations(block), before);
    ScanAllExact(cfg, emb, attrs, Combinations(block), before);
  }

  ghost predicate GoodPairs(attrs: Group, pairs: seq<(Attribute, Attribute)>) {
    forall i :: 0 <= i < |pairs| ==> pairs[i].0 in attrs && pairs[i].1 in attrs && pairs[i].0.id != pairs[i].1.id
  }

  lemma PairsOfBlock(attrs: Group, block: Group)
    requires DistinctIds(block) && forall m :: m in block ==> m in attrs
    ensures GoodPairs(attrs, Combinations(block))
  {
    var pairs := Combinations(block);
    forall i | 0 <= i < |pairs| ensures pairs[i].0 in attrs && pairs[i].1 in attrs && pairs[i].0.id != pairs[i].1.id {
      var k, l := CombinationOf(block, pairs[i]);
    }
  }

  function ScanAll(cfg: Config, emb: Embeddings, pairs: seq<(Attribute, Attribute)>, before: Scan): Scan {
    if pairs == [] then before else ScanPair(cfg, emb, ScanAll(cfg, emb, pairs[..|pairs| - 1], before),
        pairs[|pairs| - 1])
  }

  lemma {:induction false} ScanAllExact(cfg: Config, emb: Embeddings, attrs: Group, pairs: seq<(Attribute, Attribute)>,
        before: Scan)
    requires DistinctIds(attrs) && GoodPairs(attrs, pairs) && ScanExact(ScoringOf(cfg, emb, attrs), cfg, before)
    ensures var s := ScanAll(cfg, emb, pairs, before);
            ScanExact(ScoringOf(cfg, emb, attrs), cfg, s) && s.seen == before.seen + PairIds(pairs)
  {
    if pairs == [] {
      assert PairIds([]) == {};
    } else {
      var front, last := pairs[..|pairs| - 1], |pairs| - 1;
      ScanAllExact(cfg, emb, attrs, front, before);
      ScanPairExact(cfg, emb, attrs, ScanAll(cfg, emb, front, before), pairs[last]);
      PairIdsGrow(pairs, last);
      assert pairs[..last + 1] == pairs;
    }
  }

  method ScanPairs(cfg: Config, emb: Embeddings, pairs: seq<(Attribute, Attribute)>, before: Scan) returns (s: Scan)
    ensures s == ScanAll(cfg, emb, pairs, before)
  {
    s := before;
    for i := 0 to |pairs|
      invariant s == ScanAll(cfg, emb, pairs[..i], before)
    {
      assert pairs[..i + 1][..i] == pairs[..i];
      s := ScanPair(cfg, emb, s, pairs[i]);
    }
    assert pairs[..|pairs|] == pairs;
  }

  method ScanBlocks(cfg: Config, emb: Embeddings, ghost attrs: Group, blocks: seq<Group>) returns (s: Scan)
    requires DistinctIds(attrs) && GoodBlocks(attrs, blocks)
    ensures ScanExact(ScoringOf(cfg, emb, attrs), cfg, s) && s.seen == PairIds(AllCombinations(blocks))
  {
    s := Scan({}, map[], []);
    for k := 0 to |blocks|
      invariant ScanExact(ScoringOf(cfg, emb, attrs), cfg, s) && s.seen == PairIds(AllCombinations(blocks[..k]))
    {
      s := ScanBlock(cfg, emb, attrs, blocks[k], s);
      PairIdsConcat(AllCombinations(blocks[..k]), Combinations(blocks[k]));
      assert blocks[..k + 1][..k] == blocks[..k];
    }
    assert blocks[..|blocks|] == blocks;
  }

  // -------------------------------------------------------------- cluster assembly

  datatype Member = Member(id: string, region: string, isCore: bool, pairScore: real)

  datatype Cluster = Cluster(members: seq<Member>, confidence: real, conflictClass: Option<string>)

  /** The scores of the pairs of the group that are edges. */
  function EdgeScores(pairs: seq<(Attribute, Attribute)>, edges: Edges): seq<real> {
    if pairs == [] then []
    else (if PairId(pairs[0]) in edges then [edges[PairId(pairs[0])]] else []) + EdgeScores(pairs[1..], edges)
  }

  function MinOf(xs: seq<real>): (m: real)
    requires xs != []
    ensures m in xs && forall x :: x in xs ==> m <= x
  {
    if |xs| == 1 then xs[0]
    else
      assert xs == [xs[0]] + xs[1..];
      var rest := MinOf(xs[1..]);
      if xs[0] <= rest then xs[0] else rest
  }

  function Confidence(g: Group, edges: Edges): real {
    if |g| < 2 then 1.0
    else
      var scores := EdgeScores(Combinations(g), edges);
      if scores == [] then 0.0 else MinOf(scores)
  }

  function ScoresTo(m: Attribute, g: Group, edges: Edges): seq<real> {
    if g == [] then []
    else (if g[0] != m && {m.id, g[0].id} in edges then [edges[{m.id, g[0].id}]] else []) + ScoresTo(m, g[1..], edges)
  }

  function MeanSimilarity(m: Attribute, g: Group, edges: Edges): real {
    var scores := ScoresTo(m, g, edges);
    if scores == [] then 0.0 else Sum(scores) / |scores| as real
  }

  /** The core order: lowest evidence tier, then highest mean similarity, then first id. */
  predicate Before(g: Group, edges: Edges, a: Attribute, b: Attribute) {
    || a.evidenceTier < b.evidenceTier
    || (a.evidenceTier == b.evidenceTier &&
        (|| MeanSimilarity(a, g, edges) > MeanSimilarity(b, g, edges)
         || (MeanSimilarity(a, g, edges) == MeanSimilarity(b, g, edges) && Less(a.id, b.id))))
  }

  ghost predicate IsCore(g: Group, edges: Edges, core: Attribute) {
    core in g && forall m :: m in g ==> !Before(g, edges, m, core)
  }

  /** The selection order leaves no choice of core. */
  lemma CoreUnique(g: Group, edges: Edges, a: Attribute, b: Attribute)
    requires DistinctIds(g) && IsCore(g, edges, a) && IsCore(g, edges, b)
    ensures a == b
  {
    assert !Before(g, edges, a, b) && !Before(g, edges, b, a);
    LessTotal(a.id, b.id);
    SameIdSame(g, a, b);
  }

  method PickCore(g: Group, edges: Edges) returns (core: Attribute)
    requires g != []
    ensures IsCore(g, edges, core)
  {
    core := g[0];
    LessIrreflexive(core.id);
    for i := 1 to |g|
      invariant core in g && forall k :: 0 <= k < i ==> !Before(g, edges, g[k], core)
    {
      if Before(g, edges, g[i], core) {
        forall k | 0 <= k < i + 1 ensures !Before(g, edges, g[k], g[i]) {
          BeforeChain(g, edges, g[k], g[i], core);
        }
        core := g[i];
      }
    }
  }

  lemma BeforeChain(g: Group, edges: Edges, a: Attribute, b: Attribute, c: Attribute)
    requires Before(g, edges, b, c) && (a == b || !Before(g, edges, a, c))
    ensures !Before(g, edges, a, b)
  {
    LessIrreflexive(a.id);
    if Before(g, edges, a, b) && Less(a.id, b.id) && Less(b.id, c.id) { LessTransitive(a.id, b.id, c.id); }
  }

  function MemberOf(m: Attribute, core: Attribute, edges: Edges, confidence: real): Member {
    if m == core then Member(m.id, m.region, true, 1.0)
    else
      var p := {m.id, core.id};
      Member(m.id, m.region, false, if p in edges then edges[p] else confidence)
  }

  function MemberIds(c: Cluster): set<string> { set i | 0 <= i < |c.members| :: c.members[i].id }

  /** The cluster of a group: its core, and each member's score against the core. */
  ghost predicate Assembled(g: Group, edges: Edges, c: Cluster) {
    exists core :: IsCore(g, edges, core) && AssembledAround(g, edges, c, core)
  }

  ghost predicate AssembledAround(g: Group, edges: Edges, c: Cluster, core: Attribute) {
    && c.confidence == Confidence(g, edges) && |c.members| == |g|
    && forall i :: 0 <= i < |g| ==> c.members[i] == MemberOf(g[i], core, edges, c.confidence)
  }

  /** A group and its edges determine the cluster. */
  lemma AssembledUnique(g: Group, edges: Edges, c: Cluster, d: Cluster)
    requires DistinctIds(g) && Assembled(g, edges, c) && Assembled(g, edges, d) && c.conflictClass == d.conflictClass
    ensures c == d
  {
    var a :| IsCore(g, edges, a) && AssembledAround(g, edges, c, a);
    var b :| IsCore(g, edges, b) && AssembledAround(g, edges, d, b);
    CoreUnique(g, edges, a, b);
    assert c.members == d.members;
  }

  // ------------------------------------------------ what a cluster tells, member by member

  ghost function EdgeTo(m: Attribute, other: Attribute, edges: Edges): Option<real> {
    if other.id != m.id && {m.id, other.id} in edges then Some(edges[{m.id, other.id}]) else None
  }

  ghost function Total(m: Attribute, g: Group, edges: Edges): real {
    if g == [] then 0.0 else Total(m, g[..|g| - 1], edges) + EdgeTo(m, g[|g| - 1], edges).GetOr(0.0)
  }

  ghost function Count(m: Attribute, g: Group, edges: Edges): nat {
    if g == [] then 0 else Count(m, g[..|g| - 1], edges) + if EdgeTo(m, g[|g| - 1], edges).Some? then 1 else 0
  }

  /** The mean score of the member's edges within the group, nothing without any. */
  ghost function Average(m: Attribute, g: Group, edges: Edges): real {
    if Count(m, g, edges) == 0 then 0.0 else Total(m, g, edges) / Count(m, g, edges) as real
  }

  /** Stronger evidence, or the same and closer to the rest, or the same in both and first by id. */
  ghost predicate Preferred(a: Attribute, b: Attribute, g: Group, edges: Edges) {
    || a.evidenceTier < b.evidenceTier
    || (a.evidenceTier == b.evidenceTier && Average(a, g, edges) > Average(b, g, edges))
    || (a.evidenceTier == b.evidenceTier && Average(a, g, edges) == Average(b, g, edges) &&
        exists k :: DecidedAt(a.id, b.id, k))
  }

  ghost predicate EdgeWithin(g: Group, edges: Edges, p: Pair) {
    p in edges && exists i, j :: 0 <= i < j < |g| && p == {g[i].id, g[j].id}
  }

  /** The score of the group's weakest edge. */
  ghost predicate Weakest(x: real, g: Group, edges: Edges) {
    (exists p :: EdgeWithin(g, edges, p) && edges[p] == x) && forall p :: EdgeWithin(g, edges, p) ==> x <= edges[p]
  }

  /** The members in their order, the core preferred to all others, each scored against it, and the
      confidence of the weakest edge. */
  ghost predicate Describes(c: Cluster, g: Group, edges: Edges, core: int) {
    && 0 <= core < |g| && |c.members| == |g|
    && (forall i :: 0 <= i < |g| ==>
          && c.members[i].id == g[i].id && c.members[i].region == g[i].region
          && (c.members[i].isCore <==> i == core)
          && c.members[i].pairScore == if i == core then 1.0 else EdgeTo(g[i], g[core], edges).GetOr(c.confidence))
    && (forall i :: 0 <= i < |g| && i != core ==> Preferred(g[core], g[i], g, edges))
    && (if |g| == 1 then c.confidence == 1.0 else Weakest(c.confidence, g, edges))
  }

  ghost predicate Described(c: Cluster, g: Group, edges: Edges) { exists core :: Describes(c, g, edges, core) }

  lemma {:induction false} ScoresToLast(m: Attribute, g: Group, last: Attribute, edges: Edges)
    ensures ScoresTo(m, g + [last], edges) == ScoresTo(m, g, edges) + ScoresTo(m, [last], edges)
  {
    if g == [] {
      assert [] + [last] == [last];
    } else {
      assert (g + [last])[1..] == g[1..] + [last];
      ScoresToLast(m, g[1..], last, edges);
    }
  }

  lemma {:induction false} SumOfConcat(xs: seq<real>, ys: seq<real>)
    ensures Sum(xs + ys) == Sum(xs) + Sum(ys)
  {
    if xs == [] {
      assert [] + ys == ys;
    } else {
      assert (xs + ys)[1..] == xs[1..] + ys;
      SumOfConcat(xs[1..], ys);
    }
  }

  lemma {:induction false} ScoresAddUp(m: Attribute, g: Group, edges: Edges)
    requires forall i :: 0 <= i < |g| && g[i].id == m.id ==> g[i] == m
    ensures Sum(ScoresTo(m, g, edges)) == Total(m, g, edges) && |ScoresTo(m, g, edges)| == Count(m, g, edges)
  {
    if g != [] {
      var front, last := g[..|g| - 1], g[|g| - 1];
      ScoresAddUp(m, front, edges);
      ScoresToLast(m, front, last, edges);
      assert g == front + [last];
      SumOfConcat(ScoresTo(m, front, edges), ScoresTo(m, [last], edges));
    }
  }

  lemma MeanIsAverage(m: Attribute, g: Group, edges: Edges)
    requires DistinctIds(g) && m in g
    ensures MeanSimilarity(m, g, edges) == Average(m, g, edges)
  {
    forall i | 0 <= i < |g| && g[i].id == m.id ensures g[i] == m { SameIdSame(g, g[i], m); }
    ScoresAddUp(m, g, edges);
  }

  lemma CorePreferred(g: Group, edges: Edges, core: Attribute, m: Attribute)
    requires DistinctIds(g) && IsCore(g, edges, core) && m in g && m != core
    ensures Preferred(core, m, g, edges)
  {
    MeanIsAverage(core, g, edges);
    MeanIsAverage(m, g, edges);
    assert !Before(g, edges, m, core);
    if core.id == m.id { SameIdSame(g, core, m); }
    LessTotal(core.id, m.id);
    LessIffDecided(core.id, m.id);
  }

  lemma ConfidenceIsWeakest(cfg: Config, g: Group, edges: Edges)
    requires |g| >= 2 && DistinctIds(g) && TwoEnded(edges.Keys) && LinkedScores(cfg, edges) && Whole(Ids(g), edges.Keys)
    ensures Weakest(Confidence(g, edges), g, edges)
  {
    var scores := EdgeScores(Combinations(g), edges);
    HasEdge(g, edges);
    forall p | EdgeWithin(g, edges, p) ensures scores != [] && Confidence(g, edges) <= edges[p] {
      var i, j :| 0 <= i < j < |g| && p == {g[i].id, g[j].id};
      EdgeAboveConfidence(g, edges, g[i], g[j]);
    }
    var c := ScoreOfPair(Combinations(g), edges, Confidence(g, edges));
    var i, j := CombinationOf(g, c);
    assert EdgeWithin(g, edges, PairId(c));
  }

  /** A connected group of two or more has an edge inside. */
  lemma HasEdge(g: Group, edges: Edges)
    requires |g| >= 2 && DistinctIds(g) && Whole(Ids(g), edges.Keys)
    ensures EdgeScores(Combinations(g), edges) != []
  {
    IdsMember(g, g[0]);
    IdsMember(g, g[1]);
    assert Reachable(Ids(g), edges.Keys, g[0].id, g[1].id);
    var p :| Joins(Ids(g), edges.Keys, p, g[0].id, g[1].id);
    assert Adjacent(Ids(g), edges.Keys, p[0], p[1]);
    var i :| 0 <= i < |g| && g[i].id == p[0];
    var j :| 0 <= j < |g| && g[j].id == p[1];
    EdgeAboveConfidence(g, edges, g[i], g[j]);
  }

  lemma {:induction false} ScoreOfPair(pairs: seq<(Attribute, Attribute)>, edges: Edges, x: real)
    returns (c: (Attribute, Attribute))
    requires x in EdgeScores(pairs, edges)
    ensures c in pairs && PairId(c) in edges && edges[PairId(c)] == x
    decreases |pairs|
  {
    if PairId(pairs[0]) in edges && edges[PairId(pairs[0])] == x {
      c := pairs[0];
    } else {
      c := ScoreOfPair(pairs[1..], edges, x);
    }
  }

  /** The cluster built around the core of a connected group tells all this. */
  lemma AssembledTells(cfg: Config, g: Group, edges: Edges, c: Cluster, k: nat)
    requires DistinctIds(g) && TwoEnded(edges.Keys) && LinkedScores(cfg, edges) && Whole(Ids(g), edges.Keys)
    requires k < |g| && IsCore(g, edges, g[k]) && AssembledAround(g, edges, c, g[k])
    ensures Describes(c, g, edges, k)
  {
    forall i | 0 <= i < |g| && i != k ensures g[i] != g[k] && Preferred(g[k], g[i], g, edges) {
      assert g[i].id != g[k].id;
      CorePreferred(g, edges, g[k], g[i]);
    }
    if |g| >= 2 { ConfidenceIsWeakest(cfg, g, edges); }
  }

  /** What a cluster promises its readers, whatever the weights: its confidence reaches the link
      threshold and no member but the core scores below it. */
  ghost predicate Trustworthy(cfg: Config, c: Cluster) {
    |c.members| >= 2 ==>
      && cfg.linkThreshold <= c.confidence
      && forall i :: 0 <= i < |c.members| && !c.members[i].isCore ==> c.members[i].pairScore >= c.confidence
  }

  /** And where no edge scores above 1: nothing in the cluster does, the core is no exception. */
  ghost predicate InUnit(c: Cluster) {
    c.confidence <= 1.0 && forall i :: 0 <= i < |c.members| ==> c.confidence <= c.members[i].pairScore <= 1.0
  }

  ghost predicate CoreIs(c: Cluster, k: nat) {
    k < |c.members| && forall i :: 0 <= i < |c.members| ==> (c.members[i].isCore <==> i == k)
  }

  ghost predicate OneCore(c: Cluster) {
    exists k :: CoreIs(c, k)
  }

  ghost predicate LinkedScores(cfg: Config, edges: Edges) {
    forall p :: p in edges ==> cfg.linkThreshold <= edges[p]
  }

  ghost predicate UnitScores(edges: Edges) {
    forall p :: p in edges ==> edges[p] <= 1.0
  }

  method BuildCluster(cfg: Config, g: Group, edges: Edges, conflictClass: Option<string>) returns (c: Cluster)
    requires g != [] && DistinctIds(g) && TwoEnded(edges.Keys) && LinkedScores(cfg, edges) && Whole(Ids(g), edges.Keys)
    ensures Assembled(g, edges, c) && c.conflictClass == conflictClass
    ensures MemberIds(c) == Ids(g) && OneCore(c) && Trustworthy(cfg, c) && (UnitScores(edges) ==> InUnit(c))
    ensures Described(c, g, edges)
  {
    var core := PickCore(g, edges);
    var confidence := Confidence(g, edges);
    var members: seq<Member> := [];
    for i := 0 to |g|
      invariant |members| == i && forall k :: 0 <= k < i ==> members[k] == MemberOf(g[k], core, edges, confidence)
    {
      members := members + [MemberOf(g[i], core, edges, confidence)];
    }
    c := Cluster(members, confidence, conflictClass);
    assert AssembledAround(g, edges, c, core);
    ghost var k :| 0 <= k < |g| && g[k] == core;
    AssembledTells(cfg, g, edges, c, k);
    ClusterIds(g, c);
    AssembledTrustworthy(cfg, g, edges, c, core);
  }

  lemma AssembledTrustworthy(cfg: Config, g: Group, edges: Edges, c: Cluster, core: Attribute)
    requires g != [] && DistinctIds(g) && TwoEnded(edges.Keys) && LinkedScores(cfg, edges) && Whole(Ids(g), edges.Keys)
    requires core in g && AssembledAround(g, edges, c, core)
    ensures OneCore(c) && Trustworthy(cfg, c) && (UnitScores(edges) ==> InUnit(c))
  {
    var k :| 0 <= k < |g| && g[k] == core;
    assert CoreIs(c, k);
    if |g| >= 2 {
      ConfidenceBounds(cfg, g, edges);
      forall i | 0 <= i < |g| && g[i] != core ensures c.members[i].pairScore >= c.confidence {
        EdgeAboveConfidence(g, edges, g[i], core);
      }
    }
  }

  lemma ClusterIds(g: Group, c: Cluster)
    requires |c.members| == |g| && forall i :: 0 <= i < |g| ==> c.members[i].id == g[i].id
    ensures MemberIds(c) == Ids(g)
  {
    forall x ensures x in MemberIds(c) <==> x in Ids(g) {
      if x in Ids(g) { var i :| 0 <= i < |g| && g[i].id == x; assert c.members[i].id == x; }
    }
  }

  lemma {:induction false} EdgeScoresExact(pairs: seq<(Attribute, Attribute)>, edges: Edges)
    ensures forall c :: c in pairs && PairId(c) in edges ==> edges[PairId(c)] in EdgeScores(pairs, edges)
    ensures forall x :: x in EdgeScores(pairs, edges) ==> exists p :: p in edges && edges[p] == x
    decreases |pairs|
  {
    if pairs != [] {
      EdgeScoresExact(pairs[1..], edges);
      assert pairs == [pairs[0]] + pairs[1..];
    }
  }

  /** The confidence is no higher than any edge between two members. */
  lemma EdgeAboveConfidence(g: Group, edges: Edges, a: Attribute, b: Attribute)
    requires |g| >= 2 && a in g && b in g && a != b
    ensures {a.id, b.id} in edges ==>
              EdgeScores(Combinations(g), edges) != [] && edges[{a.id, b.id}] >= Confidence(g, edges)
  {
    if {a.id, b.id} in edges {
      var c := PairListed(g, a, b);
      EdgeScoresExact(Combinations(g), edges);
      assert edges[PairId(c)] in EdgeScores(Combinations(g), edges);
    }
  }

  lemma PairListed(g: Group, a: Attribute, b: Attribute) returns (c: (Attribute, Attribute))
    requires a in g && b in g && a != b
    ensures c in Combinations(g) && PairId(c) == {a.id, b.id}
  {
    var i :| 0 <= i < |g| && g[i] == a;
    var j :| 0 <= j < |g| && g[j] == b;
    if i < j {
      CombinationListed(g, i, j);
      c := (a, b);
    } else {
      CombinationListed(g, j, i);
      c := (b, a);
    }
    assert {a.id, b.id} == {b.id, a.id};
  }

  /** A connected group of two or more has an edge, and every edge scored at least the threshold. */
  lemma ConfidenceBounds(cfg: Config, g: Group, edges: Edges)
    requires |g| >= 2 && DistinctIds(g) && TwoEnded(edges.Keys) && LinkedScores(cfg, edges) && Whole(Ids(g), edges.Keys)
    ensures cfg.linkThreshold <= Confidence(g, edges) && (UnitScores(edges) ==> Confidence(g, edges) <= 1.0)
  {
    var V := Ids(g);
    IdsMember(g, g[0]);
    IdsMember(g, g[1]);
    assert Reachable(V, edges.Keys, g[0].id, g[1].id);
    var p :| Joins(V, edges.Keys, p, g[0].id, g[1].id);
    assert Adjacent(V, edges.Keys, p[0], p[1]);
    var i :| 0 <= i < |g| && g[i].id == p[0];
    var j :| 0 <= j < |g| && g[j].id == p[1];
    EdgeAboveConfidence(g, edges, g[i], g[j]);
    EdgeScoresExact(Combinations(g), edges);
  }

  // ------------------------------------------------------------------ run_clustering

  function LinkedIds(edges: Edges): set<string> { set p, x | p in edges && x in p :: x }

  ghost predicate ClustersApart(clusters: seq<Cluster>) {
    forall i, j :: 0 <= i < j < |clusters| ==> MemberIds(clusters[i]) !! MemberIds(clusters[j])
  }

  ghost predicate ClustersHold(clusters: seq<Cluster>, ids: set<string>) {
    forall x :: x in ids <==> exists i :: 0 <= i < |clusters| && x in MemberIds(clusters[i])
  }

  ghost predicate ScoresBounded(cfg: Config) { IsSqrt(cfg.sqrt) && TableInRange(cfg) && MeanWeights(cfg) }

  method RunClustering(cfg: Config, emb: Embeddings, attrs: Group, blocks: seq<Group>)
    returns (clusters: seq<Cluster>, review: seq<ReviewPair>, ghost edges: Edges, ghost cuts: seq<seq<Group>>)
    requires DistinctIds(attrs) && GoodBlocks(attrs, blocks)
    ensures EdgesExact(ScoringOf(cfg, emb, attrs), cfg.linkThreshold, PairIds(AllCombinations(blocks)), edges)
    ensures ReviewExact(ScoringOf(cfg, emb, attrs), cfg.reviewBandLow, cfg.linkThreshold,
            PairIds(AllCombinations(blocks)), review)
    ensures forall r :: r in review ==> ReviewId(r) !in edges
    ensures ClustersApart(clusters) && ClustersHold(clusters, LinkedIds(edges))
    ensures forall i :: 0 <= i < |clusters| ==> OneCore(clusters[i]) && Trustworthy(cfg, clusters[i])
    ensures ScoresBounded(cfg) ==> forall i :: 0 <= i < |clusters| ==> InUnit(clusters[i])
    ensures CutsOf(cfg, attrs, edges, cuts) && ClustersOf(cfg, edges, clusters, Flatten(cuts)) &&
            Silent(cfg, Flatten(cuts))
  {
    var s := ScanBlocks(cfg, emb, attrs, blocks);
    review, edges := s.review, s.edges;
    ReviewNeverLinked(cfg, emb, attrs, s);
    EdgesLinked(cfg, emb, attrs, s.seen, s.edges);
    if ScoresBounded(cfg) { EdgesInUnit(cfg, emb, attrs, s.seen, s.edges); }
    clusters, cuts := ClusterComponents(cfg, attrs, s.edges);
  }

  lemma ReviewNeverLinked(cfg: Config, emb: Embeddings, attrs: Group, s: Scan)
    requires DistinctIds(attrs) && ScanExact(ScoringOf(cfg, emb, attrs), cfg, s)
    ensures forall r :: r in s.review ==> ReviewId(r) !in s.edges
  {
    forall r | r in s.review ensures ReviewId(r) !in s.edges {
      if ReviewId(r) in s.edges { ScoreUnique(cfg, emb, attrs, ReviewId(r), r.score, s.edges[ReviewId(r)]); }
    }
  }

  lemma EdgesLinked(cfg: Config, emb: Embeddings, attrs: Group, seen: set<Pair>, edges: Edges)
    requires EdgesExact(ScoringOf(cfg, emb, attrs), cfg.linkThreshold, seen, edges)
    ensures LinkedScores(cfg, edges) && LinkedIds(edges) <= Ids(attrs)
  {
    forall p | p in edges ensures p <= Ids(attrs) {
      var a, b :| a in attrs && b in attrs && p == {a.id, b.id} && edges[p] == Similarity.Score(cfg, emb, a, b);
      IdsMember(attrs, a);
      IdsMember(attrs, b);
    }
  }

  /** Weights that make a mean keep every edge at 1 or below. */
  lemma EdgesInUnit(cfg: Config, emb: Embeddings, attrs: Group, seen: set<Pair>, edges: Edges)
    requires EdgesExact(ScoringOf(cfg, emb, attrs), cfg.linkThreshold, seen, edges) && ScoresBounded(cfg)
    ensures UnitScores(edges)
  {
    forall p | p in edges ensures edges[p] <= 1.0 {
      var a, b :| a in attrs && b in attrs && p == {a.id, b.id} && edges[p] == Similarity.Score(cfg, emb, a, b);
      Similarity.ScoreAtMostOne(cfg, emb, a, b);
    }
  }

  ghost predicate ClusterOf(cfg: Config, edges: Edges, c: Cluster, g: Group) {
    && Assembled(g, edges, c) && Described(c, g, edges) && MemberIds(c) == Ids(g)
    && OneCore(c) && Trustworthy(cfg, c) && (UnitScores(edges) ==> InUnit(c))
  }

  ghost predicate ClustersOf(cfg: Config, edges: Edges, clusters: seq<Cluster>, groups: seq<Group>) {
    && |clusters| == |groups|
    && forall i :: 0 <= i < |clusters| ==> ClusterOf(cfg, edges, clusters[i], groups[i])
  }

  method BuildClusters(cfg: Config, groups: seq<MemberGroup>, edges: Edges) returns (clusters: seq<Cluster>)
    requires TwoEnded(edges.Keys) && LinkedScores(cfg, edges)
    requires forall i :: 0 <= i < |groups| ==>
             groups[i].members != [] && DistinctIds(groups[i].members) && Whole(Ids(groups[i].members), edges.Keys)
    ensures ClustersOf(cfg, edges, clusters, PartsOf(groups))
    ensures forall k :: 0 <= k < |clusters| ==> clusters[k].conflictClass == groups[k].conflictClass
  {
    clusters := [];
    for i := 0 to |groups|
      invariant |clusters| == i
      invariant forall k :: 0 <= k < i ==>
                ClusterOf(cfg, edges, clusters[k], groups[k].members) &&
                    clusters[k].conflictClass == groups[k].conflictClass
    {
      var c := BuildCluster(cfg, groups[i].members, edges, groups[i].conflictClass);
      clusters := clusters + [c];
    }
  }

  /** How a component was cut: into silent parts that surviving edges connect, no edge without
      need, and not at all when no signal fires on it. */
  ghost predicate CutOf(cfg: Config, edges: Edges, members: Group, parts: seq<Group>) {
    && (exists kept ::
          Cut(cfg, members, edges, parts, kept) && AllWhole(parts, kept) && CutsNeeded(cfg, members, edges, kept))
    && (!Fires(cfg, members) ==> parts == [members])
  }

  /** One cut for each of the components the linked ids fall into. */
  ghost predicate CutsOf(cfg: Config, attrs: Group, edges: Edges, cuts: seq<seq<Group>>) {
    var components := Components(LinkedIds(edges), edges.Keys);
    && |cuts| == |components|
    && forall k :: 0 <= k < |cuts| ==> ComponentCut(cfg, attrs, edges, components[k], cuts[k])
  }

  ghost predicate ComponentCut(cfg: Config, attrs: Group, edges: Edges, component: seq<string>, parts: seq<Group>) {
    Elements(component) <= Ids(attrs) && CutOf(cfg, edges, Pick(attrs, component), parts)
  }

  ghost function Flatten(cuts: seq<seq<Group>>): seq<Group> {
    if cuts == [] then [] else Flatten(cuts[..|cuts| - 1]) + cuts[|cuts| - 1]
  }

  /** One component: split on homonym signals, then assembled. */
  method ClusterComponent(cfg: Config, attrs: Group, component: seq<string>, edges: Edges)
    returns (clusters: seq<Cluster>, ghost groups: seq<Group>)
    requires DistinctIds(attrs) && TwoEnded(edges.Keys) && LinkedScores(cfg, edges)
    requires component != [] && StrictlySorted(component) && Elements(component) <= Ids(attrs) &&
             Whole(Elements(component), edges.Keys)
    ensures CutOf(cfg, edges, Pick(attrs, component), groups) && ClustersOf(cfg, edges, clusters, groups)
  {
    var picked := Pick(attrs, component);
    PickExact(attrs, component);
    var split, kept := SplitOnHomonymSignals(cfg, picked, edges);
    PartsBuildable(picked, edges, split, kept);
    clusters := BuildClusters(cfg, split, edges);
    groups := PartsOf(split);
    assert !Fires(cfg, picked) ==> groups == [picked];
  }

  lemma JoinClusters(cfg: Config, edges: Edges, a: seq<Cluster>, b: seq<Cluster>, ga: seq<Group>, gb: seq<Group>)
    requires ClustersOf(cfg, edges, a, ga) && ClustersOf(cfg, edges, b, gb)
    ensures ClustersOf(cfg, edges, a + b, ga + gb)
  {
  }

  /** Components, homonym split and assembly. */
  method ClusterComponents(cfg: Config, attrs: Group, edges: Edges)
    returns (clusters: seq<Cluster>, ghost cuts: seq<seq<Group>>)
    requires DistinctIds(attrs) && TwoEnded(edges.Keys) && LinkedScores(cfg, edges) && LinkedIds(edges) <= Ids(attrs)
    ensures ClustersApart(clusters) && ClustersHold(clusters, LinkedIds(edges))
    ensures CutsOf(cfg, attrs, edges, cuts) && ClustersOf(cfg, edges, clusters, Flatten(cuts)) &&
            Silent(cfg, Flatten(cuts))
  {
    var linked := SortedOf(LinkedIds(edges));
    ghost var V, E := LinkedIds(edges), edges.Keys;
    assert Elements(linked) == V;
    var components := ConnectedComponents(linked, edges);
    clusters := [];
    ghost var covered: Group := [];
    cuts := [];
    for k := 0 to |components|
      invariant Built(cfg, attrs, edges, k, covered, cuts, clusters)
    {
      ComponentListing(V, E, k);
      ComponentWhole(V, E, k);
      var more, parts := ClusterComponent(cfg, attrs, components[k], edges);
      NextBuilt(cfg, attrs, edges, k, covered, cuts, clusters, parts, more);
      clusters, cuts, covered := clusters + more, cuts + [parts], covered + Pick(attrs, components[k]);
    }
    PartitionHolds(cfg, edges, covered, Flatten(cuts), clusters);
    AllIdsCovered(V, E, covered);
  }

  /** What the loop over components has after k of them. */
  ghost predicate Built(cfg: Config, attrs: Group, edges: Edges, k: nat, covered: Group, cuts: seq<seq<Group>>,
        clusters: seq<Cluster>)
  {
    var components := Components(LinkedIds(edges), edges.Keys);
    && Shared(cfg, LinkedIds(edges), edges.Keys, k, covered, Flatten(cuts))
    && ClustersOf(cfg, edges, clusters, Flatten(cuts))
    && |cuts| == k <= |components|
    && forall j :: 0 <= j < k ==> ComponentCut(cfg, attrs, edges, components[j], cuts[j])
  }

  lemma NextBuilt(cfg: Config, attrs: Group, edges: Edges, k: nat, covered: Group, cuts: seq<seq<Group>>,
        clusters: seq<Cluster>, parts: seq<Group>, more: seq<Cluster>)
    requires TwoEnded(edges.Keys) && k < |Components(LinkedIds(edges), edges.Keys)|
    requires Built(cfg, attrs, edges, k, covered, cuts, clusters) && ClustersOf(cfg, edges, more, parts)
    requires StrictlySorted(Components(LinkedIds(edges), edges.Keys)[k])
    requires ComponentCut(cfg, attrs, edges, Components(LinkedIds(edges), edges.Keys)[k], parts)
    ensures Built(cfg, attrs, edges, k + 1, covered + Pick(attrs, Components(LinkedIds(edges), edges.Keys)[k]),
            cuts + [parts], clusters + more)
  {
    FlattenAppend(cuts, parts);
    NextShared(cfg, edges, attrs, LinkedIds(edges), edges.Keys, k, covered, Flatten(cuts), parts);
    JoinClusters(cfg, edges, clusters, more, Flatten(cuts), parts);
    CutsAppend(cfg, attrs, edges, Components(LinkedIds(edges), edges.Keys), k, cuts, parts);
  }

  lemma CutsAppend(cfg: Config, attrs: Group, edges: Edges, components: seq<seq<string>>, k: nat, cuts: seq<seq<Group>>,
        parts: seq<Group>)
    requires |cuts| == k < |components| && ComponentCut(cfg, attrs, edges, components[k], parts)
    requires forall j :: 0 <= j < k ==> ComponentCut(cfg, attrs, edges, components[j], cuts[j])
    ensures forall j :: 0 <= j < k + 1 ==> ComponentCut(cfg, attrs, edges, components[j], (cuts + [parts])[j])
  {
  }

  /** The first k components' members are shared out over silent groups. */
  ghost predicate Shared(cfg: Config, V: set<string>, E: set<Pair>, k: nat, covered: Group, groups: seq<Group>) {
    k <= |Components(V, E)| && Handled(V, E, k, covered) && DistinctIds(covered) && Partition(covered, groups) &&
        Silent(cfg, groups)
  }

  lemma NextShared(cfg: Config, edges: Edges, attrs: Group, V: set<string>, E: set<Pair>, k: nat, covered: Group,
        groups: seq<Group>, parts: seq<Group>)
    requires TwoEnded(E) && k < |Components(V, E)| && Shared(cfg, V, E, k, covered, groups)
    requires StrictlySorted(Components(V, E)[k]) && ComponentCut(cfg, attrs, edges, Components(V, E)[k], parts)
    ensures Shared(cfg, V, E, k + 1, covered + Pick(attrs, Components(V, E)[k]), groups + parts)
  {
    var members := Pick(attrs, Components(V, E)[k]);
    PickExact(attrs, Components(V, E)[k]);
    CutParts(cfg, edges, members, parts);
    NextComponent(V, E, k, covered, members);
    JoinPartitions(covered, members, groups, parts);
    DistinctConcat(covered, members);
  }

  lemma CutParts(cfg: Config, edges: Edges, members: Group, parts: seq<Group>)
    requires CutOf(cfg, edges, members, parts)
    ensures Partition(members, parts) && Silent(cfg, parts)
  {
  }

  lemma FlattenAppend(cuts: seq<seq<Group>>, parts: seq<Group>)
    ensures Flatten(cuts + [parts]) == Flatten(cuts) + parts
  {
    assert (cuts + [parts])[..|cuts|] == cuts;
  }

  lemma ComponentListing(V: set<string>, E: set<Pair>, k: nat)
    requires k < |Components(V, E)|
    ensures var c := Components(V, E)[k]; c != [] && StrictlySorted(c) && Elements(c) <= V
  {
    ComponentsExact(V, E);
  }

  lemma DistinctConcat(a: Group, b: Group)
    requires DistinctIds(a) && DistinctIds(b) && Ids(a) !! Ids(b)
    ensures DistinctIds(a + b)
  {
    forall i, j | 0 <= i < j < |a + b| ensures (a + b)[i].id != (a + b)[j].id {
      if i < |a| <= j {
        IdsMember(a, a[i]);
        IdsMember(b, b[j - |a|]);
      }
    }
  }

  lemma PartsBuildable(members: Group, edges: Edges, split: seq<MemberGroup>, kept: set<Pair>)
    requires Partition(members, PartsOf(split)) && NoneEmpty(PartsOf(split)) && AllWhole(PartsOf(split), kept) &&
             kept <= edges.Keys
    ensures forall i :: 0 <= i < |split| ==>
            split[i].members != [] && DistinctIds(split[i].members) && Whole(Ids(split[i].members), edges.Keys)
  {
    forall i | 0 <= i < |split|
      ensures split[i].members != [] && DistinctIds(split[i].members) && Whole(Ids(split[i].members), edges.Keys)
    {
      assert PartsOf(split)[i] == split[i].members;
      WholeMore(Ids(split[i].members), kept, edges.Keys);
    }
  }

  lemma AllIdsCovered(V: set<string>, E: set<Pair>, covered: Group)
    requires Handled(V, E, |Components(V, E)|, covered)
    ensures Ids(covered) == V
  {
    ComponentsExact(V, E);
    forall x ensures x in Ids(covered) <==> x in V {
      if x in Ids(covered) {
        var l :| 0 <= l < |Components(V, E)| && x in Components(V, E)[l];
        assert x in Elements(Components(V, E)[l]);
      }
    }
  }

  lemma PartitionHolds(cfg: Config, edges: Edges, covered: Group, groups: seq<Group>, clusters: seq<Cluster>)
    requires Partition(covered, groups) && ClustersOf(cfg, edges, clusters, groups) && DistinctIds(covered)
    ensures ClustersApart(clusters) && ClustersHold(clusters, Ids(covered))
  {
    forall i, j | 0 <= i < j < |clusters| ensures MemberIds(clusters[i]) !! MemberIds(clusters[j]) {
      forall x | x in Ids(groups[i]) ensures x !in Ids(groups[j]) {
        if x in Ids(groups[j]) {
          var k :| 0 <= k < |groups[i]| && groups[i][k].id == x;
          var l :| 0 <= l < |groups[j]| && groups[j][l].id == x;
          assert groups[i][k] in groups[i] && groups[j][l] in groups[j];
          SameIdSame(covered, groups[i][k], groups[j][l]);
        }
      }
    }
    forall x ensures x in Ids(covered) <==> exists i :: 0 <= i < |clusters| && x in MemberIds(clusters[i]) {
      if x in Ids(covered) {
        var k :| 0 <= k < |covered| && covered[k].id == x;
        assert covered[k] in covered;
        var i :| 0 <= i < |groups| && covered[k] in groups[i];
        IdsMember(groups[i], covered[k]);
        assert x in MemberIds(clusters[i]);
      }
      if i :| 0 <= i < |clusters| && x in MemberIds(clusters[i]) {
        PartIdsInside(covered, groups, i);
      }
    }
  }
}
