/** substrate/search.py: the tie-broken ranking and reciprocal-rank fusion. */
module Retrieval {
  import opened Wrappers
  import opened Sequences
  import Order

  // ----------------------------------------------------------------- rank_by_score

  datatype Scored = Scored(chunk: string, score: real)

  /** The sort key (-score, chunk hash). */
  predicate Precedes(a: Scored, b: Scored) {
    a.score > b.score || (a.score == b.score && Order.Less(a.chunk, b.chunk))
  }

  function Insert(x: Scored, xs: seq<Scored>): seq<Scored> {
    if xs == [] || Precedes(x, xs[0]) then [x] + xs else [xs[0]] + Insert(x, xs[1..])
  }

  function Sorted(items: seq<Scored>): seq<Scored> {
    if items == [] then [] else Insert(items[0], Sorted(items[1..]))
  }

  function Hashes(items: seq<Scored>): seq<string> {
    if items == [] then [] else [items[0].chunk] + Hashes(items[1..])
  }

  /** items is what scores.items() yields, in whatever order the entries went in. */
  function RankByScore(items: seq<Scored>): seq<string> { Hashes(Sorted(items)) }

  ghost predicate Lists(items: seq<Scored>, scores: map<string, real>) {
    && (forall i, j :: 0 <= i < j < |items| ==> items[i].chunk != items[j].chunk)
    && (forall i :: 0 <= i < |items| ==> items[i].chunk in scores && scores[items[i].chunk] == items[i].score)
    && (forall c :: c in scores ==> exists i :: 0 <= i < |items| && items[i].chunk == c)
  }

  ghost predicate Ranked(r: seq<string>, scores: map<string, real>) {
    && (forall c :: c in r <==> c in scores)
    && forall i, j :: 0 <= i < j < |r| ==> Precedes(Scored(r[i], scores[r[i]]), Scored(r[j], scores[r[j]]))
  }

  lemma PrecedesTransitive(a: Scored, b: Scored, c: Scored)
    requires Precedes(a, b) && Precedes(b, c)
    ensures Precedes(a, c)
  {
    if a.score == b.score == c.score { Order.LessTransitive(a.chunk, b.chunk, c.chunk); }
  }

  lemma PrecedesTotal(a: Scored, b: Scored)
    requires a.chunk != b.chunk
    ensures Precedes(a, b) || Precedes(b, a)
  {
    Order.LessTotal(a.chunk, b.chunk);
  }

  lemma PrecedesAsymmetric(a: Scored, b: Scored)
    requires Precedes(a, b)
    ensures !Precedes(b, a) && a != b
  {
    Order.LessIrreflexive(a.chunk);
    if a.score == b.score { Order.LessAsymmetric(a.chunk, b.chunk); }
  }

  ghost predicate InOrder(xs: seq<Scored>) { forall i, j :: 0 <= i < j < |xs| ==> Precedes(xs[i], xs[j]) }

  ghost predicate Absent(c: string, xs: seq<Scored>) { forall i :: 0 <= i < |xs| ==> xs[i].chunk != c }

  lemma {:induction false} InsertKeeps(x: Scored, xs: seq<Scored>)
    requires InOrder(xs) && Absent(x.chunk, xs)
    ensures InOrder(Insert(x, xs)) && forall y :: y in Insert(x, xs) <==> y == x || y in xs
  {
    if xs != [] && !Precedes(x, xs[0]) {
      PrecedesTotal(x, xs[0]);
      InsertKeeps(x, xs[1..]);
      var rest := Insert(x, xs[1..]);
      forall j | 0 <= j < |rest| ensures Precedes(xs[0], rest[j]) { assert rest[j] in rest; }
    } else if xs != [] {
      forall j | 0 <= j < |xs| ensures Precedes(x, xs[j]) {
        if j > 0 { PrecedesTransitive(x, xs[0], xs[j]); }
      }
    }
  }

  lemma {:induction false} SortedKeeps(items: seq<Scored>)
    requires forall i, j :: 0 <= i < j < |items| ==> items[i].chunk != items[j].chunk
    ensures InOrder(Sorted(items)) && forall y :: y in Sorted(items) <==> y in items
  {
    if items != [] {
      SortedKeeps(items[1..]);
      var rest := Sorted(items[1..]);
      forall i | 0 <= i < |rest| ensures rest[i].chunk != items[0].chunk {
        assert rest[i] in items[1..];
      }
      InsertKeeps(items[0], rest);
    }
  }

  lemma {:induction false} HashesAt(items: seq<Scored>)
    ensures |Hashes(items)| == |items| && forall i :: 0 <= i < |items| ==> Hashes(items)[i] == items[i].chunk
  {
    if items != [] { HashesAt(items[1..]); }
  }

  /** Ranking the entries of a table yields a ranking of the table. */
  lemma RankIsRanking(items: seq<Scored>, scores: map<string, real>)
    requires Lists(items, scores)
    ensures Ranked(RankByScore(items), scores)
  {
    SortedKeeps(items);
    var s, r := Sorted(items), RankByScore(items);
    HashesAt(s);
    forall i | 0 <= i < |r| ensures r[i] in scores && s[i] == Scored(r[i], scores[r[i]]) {
      assert s[i] in items;
    }
    forall c | c in scores ensures c in r {
      var i :| 0 <= i < |items| && items[i].chunk == c;
      assert items[i] in s;
      var j :| 0 <= j < |s| && s[j] == items[i];
      assert r[j] == c;
    }
  }

  /** Of two chunks the one ranked first scores higher, or the same with the hash that comes first in
      the dictionary. */
  lemma RankTells(items: seq<Scored>, scores: map<string, real>, i: nat, j: nat)
    requires Lists(items, scores) && i < j < |RankByScore(items)|
    ensures var a, b := RankByScore(items)[i], RankByScore(items)[j];
            && a in scores && b in scores
            && (scores[a] > scores[b] || (scores[a] == scores[b] && exists k :: Order.DecidedAt(a, b, k)))
  {
    var r := RankByScore(items);
    RankIsRanking(items, scores);
    assert r[i] in r && r[j] in r;
    assert Precedes(Scored(r[i], scores[r[i]]), Scored(r[j], scores[r[j]]));
    Order.LessIffDecided(r[i], r[j]);
  }

  lemma RankedFirst(a: seq<string>, b: seq<string>, scores: map<string, real>)
    requires Ranked(a, scores) && Ranked(b, scores) && a != []
    ensures b != [] && a[0] == b[0]
  {
    assert a[0] in b;
    var x, y := Scored(a[0], scores[a[0]]), Scored(b[0], scores[b[0]]);
    assert b[0] in a;
    if a[0] != b[0] {
      var i :| 0 <= i < |b| && b[i] == a[0];
      var j :| 0 <= j < |a| && a[j] == b[0];
      PrecedesAsymmetric(x, y);
    }
  }

  lemma RankedTail(a: seq<string>, scores: map<string, real>)
    requires Ranked(a, scores) && a != []
    ensures Ranked(a[1..], scores - {a[0]})
  {
    var rest := scores - {a[0]};
    forall i | 0 < i < |a| ensures a[i] in rest {
      PrecedesAsymmetric(Scored(a[0], scores[a[0]]), Scored(a[i], scores[a[i]]));
    }
    forall c | c in rest ensures c in a[1..] {
      var i :| 0 <= i < |a| && a[i] == c;
      assert a[1..][i - 1] == c;
    }
  }

  /** A table has one ranking: score descending, then hash ascending. */
  lemma {:induction false} RankingUnique(a: seq<string>, b: seq<string>, scores: map<string, real>)
    requires Ranked(a, scores) && Ranked(b, scores)
    ensures a == b
    decreases |a|
  {
    if a == [] {
      if b != [] { RankedFirst(b, a, scores); }
    } else {
      RankedFirst(a, b, scores);
      RankedTail(a, scores);
      RankedTail(b, scores);
      RankingUnique(a[1..], b[1..], scores - {a[0]});
      assert a == [a[0]] + a[1..] && b == [b[0]] + b[1..];
    }
  }

  /** The order in which the scores were inserted does not matter. */
  lemma RankIgnoresInsertionOrder(first: seq<Scored>, second: seq<Scored>, scores: map<string, real>)
    requires Lists(first, scores) && Lists(second, scores)
    ensures RankByScore(first) == RankByScore(second)
  {
    RankIsRanking(first, scores);
    RankIsRanking(second, scores);
    RankingUnique(RankByScore(first), RankByScore(second), scores);
  }

  // --------------------------------------------------------- reciprocal_rank_fuse

  /** Position at (rank at + 1) is worth 1/(k + rank); the program crashes where k + rank is 0. */
  function Share(k: int, at: nat): real { if k + at + 1 == 0 then 0.0 else 1.0 / (k + at + 1) as real }

  predicate Crashes(ranking: seq<string>, k: int) { k < 0 && |ranking| >= -k }

  /** What the positions from `at` on give to c. */
  function Gain(ranking: seq<string>, k: int, at: nat, c: string): real
    requires at <= |ranking|
    decreases |ranking| - at
  {
    if at == |ranking| then 0.0
    else (if ranking[at] == c then Share(k, at) else 0.0) + Gain(ranking, k, at + 1, c)
  }

  /** fused(c): the sum over rankers of what each gives c. */
  function Fused(rankings: seq<seq<string>>, k: int, c: string): real {
    if rankings == [] then 0.0 else Gain(rankings[0], k, 0, c) + Fused(rankings[1..], k, c)
  }

  function Get(fused: map<string, real>, c: string): real { if c in fused then fused[c] else 0.0 }

  method AddRanking(ranking: seq<string>, k: int, before: map<string, real>) returns (fused: Option<map<string, real>>)
    ensures fused.None? <==> Crashes(ranking, k)
    ensures fused.Some? ==> fused.value.Keys == before.Keys + set i | 0 <= i < |ranking| :: ranking[i]
    ensures fused.Some? ==> forall c :: Get(fused.value, c) == Get(before, c) + Gain(ranking, k, 0, c)
  {
    var table := before;
    for rank := 0 to |ranking|
      invariant k < 0 ==> rank < -k
      invariant table.Keys == before.Keys + set i | 0 <= i < rank :: ranking[i]
      invariant forall c :: Get(table, c) + Gain(ranking, k, rank, c) == Get(before, c) + Gain(ranking, k, 0, c)
    {
      if k + rank + 1 == 0 { return None; }
      var hash := ranking[rank];
      table := table[hash := Get(table, hash) + Share(k, rank)];
    }
    return Some(table);
  }

  function Chunks(rankings: seq<seq<string>>): set<string> {
    set r, i | 0 <= r < |rankings| && 0 <= i < |rankings[r]| :: rankings[r][i]
  }

  method ReciprocalRankFuse(rankings: seq<seq<string>>, k: int) returns (fused: Option<map<string, real>>)
    ensures fused.None? <==> exists r :: 0 <= r < |rankings| && Crashes(rankings[r], k)
    ensures fused.Some? ==> IsFusion(fused.value, rankings, k)
  {
    var table: map<string, real> := map[];
    for r := 0 to |rankings|
      invariant forall q :: 0 <= q < r ==> !Crashes(rankings[q], k)
      invariant table.Keys == Chunks(rankings[..r])
      invariant forall c :: Get(table, c) + Fused(rankings[r..], k, c) == Fused(rankings, k, c)
    {
      assert rankings[r..][1..] == rankings[r + 1..];
      ChunksGrow(rankings, r);
      var added := AddRanking(rankings[r], k, table);
      if added.None? { return None; }
      table := added.value;
    }
    assert rankings[..|rankings|] == rankings;
    return Some(table);
  }

  /** The chunks any ranker returned, each with its sum. */
  ghost predicate IsFusion(fused: map<string, real>, rankings: seq<seq<string>>, k: int) {
    fused.Keys == Chunks(rankings) && forall c :: c in fused ==> fused[c] == Fused(rankings, k, c)
  }

  lemma ChunksGrow(rankings: seq<seq<string>>, r: nat)
    requires r < |rankings|
    ensures Chunks(rankings[..r + 1]) == Chunks(rankings[..r]) + set i | 0 <= i < |rankings[r]| :: rankings[r][i]
  {
    var a, b := Chunks(rankings[..r + 1]), Chunks(rankings[..r]);
    forall c | c in a ensures c in b || c in rankings[r] {
      var s, i :| 0 <= s < r + 1 && 0 <= i < |rankings[..r + 1][s]| && rankings[..r + 1][s][i] == c;
      if s < r { assert rankings[..r][s][i] == c; }
    }
    forall c | c in b ensures c in a {
      var s, i :| 0 <= s < r && 0 <= i < |rankings[..r][s]| && rankings[..r][s][i] == c;
      assert rankings[..r + 1][s][i] == c;
    }
    forall i | 0 <= i < |rankings[r]| ensures rankings[r][i] in a { assert rankings[..r + 1][r][i] == rankings[r][i]; }
  }

  lemma {:induction false} GainAbsent(ranking: seq<string>, k: int, at: nat, c: string)
    requires at <= |ranking| && forall i :: at <= i < |ranking| ==> ranking[i] != c
    ensures Gain(ranking, k, at, c) == 0.0
    decreases |ranking| - at
  {
    if at < |ranking| { GainAbsent(ranking, k, at + 1, c); }
  }

  /** In a ranking without repeats a chunk gains from its one position. */
  lemma {:induction false} GainAt(ranking: seq<string>, k: int, at: nat, i: nat)
    requires at <= i < |ranking| && NoRepeats(ranking)
    ensures Gain(ranking, k, at, ranking[i]) == Share(k, i)
    decreases i - at
  {
    if at == i { GainAbsent(ranking, k, at + 1, ranking[i]); } else { GainAt(ranking, k, at + 1, i); }
  }

  /** c is in the ranking, and d is either missing or further down. */
  ghost predicate Ahead(ranking: seq<string>, c: string, d: string) {
    exists i :: 0 <= i < |ranking| && ranking[i] == c && forall j :: 0 <= j <= i ==> ranking[j] != d
  }

  lemma AheadGainsMore(ranking: seq<string>, k: int, c: string, d: string)
    requires k >= 0 && NoRepeats(ranking) && Ahead(ranking, c, d)
    ensures Gain(ranking, k, 0, c) > Gain(ranking, k, 0, d)
  {
    var i :| 0 <= i < |ranking| && ranking[i] == c && forall j :: 0 <= j <= i ==> ranking[j] != d;
    GainAt(ranking, k, 0, i);
    Reciprocals(k + i + 1);
    GainBehind(ranking, k, i, d);
  }

  /** What is found below position i gains less than i's share. */
  lemma GainBehind(ranking: seq<string>, k: int, i: nat, d: string)
    requires k >= 0 && i < |ranking| && NoRepeats(ranking) && forall j :: 0 <= j <= i ==> ranking[j] != d
    ensures Gain(ranking, k, 0, d) < Share(k, i)
  {
    Reciprocals(k + i + 1);
    if j :| 0 <= j < |ranking| && ranking[j] == d {
      GainAt(ranking, k, 0, j);
      LowerRankGainsLess(k + i + 1, k + j + 1);
    } else {
      GainAbsent(ranking, k, 0, d);
    }
  }

  lemma Reciprocals(n: int)
    requires n >= 1
    ensures 1.0 / n as real > 0.0
  {
  }

  lemma LowerRankGainsLess(m: int, n: int)
    requires 1 <= m < n
    ensures 1.0 / m as real > 1.0 / n as real
  {
    var x, y := 1.0 / m as real, 1.0 / n as real;
    assert x * m as real == 1.0 && y * n as real == 1.0;
    assert (x - y) * m as real == y * (n - m) as real;
  }

  /** Where every ranker that returned c or d puts c ahead, c's fused score is higher. */
  lemma {:induction false} ConsensusScoresHigher(rankings: seq<seq<string>>, k: int, c: string, d: string)
    requires k >= 0 && forall r :: 0 <= r < |rankings| ==> NoRepeats(rankings[r])
    requires forall r :: 0 <= r < |rankings| && (c in rankings[r] || d in rankings[r]) ==> Ahead(rankings[r], c, d)
    ensures Fused(rankings, k, c) >= Fused(rankings, k, d)
    ensures (exists r :: 0 <= r < |rankings| && c in rankings[r]) ==> Fused(rankings, k, c) > Fused(rankings, k, d)
  {
    if rankings != [] {
      var first, rest := rankings[0], rankings[1..];
      assert forall r :: 0 <= r < |rest| ==> rest[r] == rankings[r + 1];
      ConsensusScoresHigher(rest, k, c, d);
      if c in first || d in first {
        AheadGainsMore(first, k, c, d);
      } else {
        GainAbsent(first, k, 0, c);
        GainAbsent(first, k, 0, d);
        if r :| 0 <= r < |rankings| && c in rankings[r] { assert c in rest[r - 1]; }
      }
    }
  }

  /** The final ranking keeps every consensus of the rankers. */
  lemma FusionRespectsConsensus(rankings: seq<seq<string>>, k: int, fused: map<string, real>, final: seq<string>,
        i: nat, j: nat)
    requires k >= 0 && forall r :: 0 <= r < |rankings| ==> NoRepeats(rankings[r])
    requires IsFusion(fused, rankings, k)
    requires Ranked(final, fused) && i < |final| && j < |final|
    requires forall r :: 0 <= r < |rankings| && (final[i] in rankings[r] || final[j] in rankings[r]) ==>
             Ahead(rankings[r], final[i], final[j])
    ensures i < j
  {
    var c, d := final[i], final[j];
    assert c in final && d in final;
    var r, p :| 0 <= r < |rankings| && 0 <= p < |rankings[r]| && rankings[r][p] == c;
    assert c in rankings[r];
    ConsensusScoresHigher(rankings, k, c, d);
    assert !Precedes(Scored(d, fused[d]), Scored(c, fused[c]));
  }

  // ------------------------------------------------------------------- rank by rank

  /** What a chunk is given at each position: 1/(k + rank) where it stands, nothing elsewhere. */
  ghost predicate GivenAt(parts: seq<real>, ranking: seq<string>, k: int, c: string) {
    && |parts| == |ranking|
    && forall i :: 0 <= i < |ranking| ==>
         k + i + 1 != 0 && parts[i] == if ranking[i] == c then 1.0 / (k + (i + 1)) as real else 0.0
  }

  lemma {:induction false} GainAddsUp(parts: seq<real>, ranking: seq<string>, k: int, c: string, at: nat)
    requires GivenAt(parts, ranking, k, c) && at <= |ranking|
    ensures Gain(ranking, k, at, c) == Sum(parts[at..])
    decreases |ranking| - at
  {
    if at < |ranking| {
      GainAddsUp(parts, ranking, k, c, at + 1);
      assert parts[at..][1..] == parts[at + 1..];
    }
  }

  /** A fused score is the sum, over the rankings, of what each gives the chunk at its positions. */
  lemma {:induction false} FusedAddsUp(rankings: seq<seq<string>>, k: int, c: string, table: seq<seq<real>>,
        totals: seq<real>)
    requires |table| == |rankings| && |totals| == |rankings|
    requires forall r :: 0 <= r < |rankings| ==> GivenAt(table[r], rankings[r], k, c) && totals[r] == Sum(table[r])
    ensures Fused(rankings, k, c) == Sum(totals)
  {
    if rankings != [] {
      GainAddsUp(table[0], rankings[0], k, c, 0);
      assert table[0][0..] == table[0];
      FusedAddsUp(rankings[1..], k, c, table[1..], totals[1..]);
    }
  }

  // ------------------------------------------------------------------ conservation

  function Total(fused: map<string, real>, keys: seq<string>): real
    requires forall c :: c in keys ==> c in fused
  {
    if keys == [] then 0.0 else fused[keys[0]] + Total(fused, keys[1..])
  }

  /** All there is to give: 1/(k + rank) for every position. */
  function Supply(ranking: seq<string>, k: int, at: nat): real
    requires at <= |ranking|
    decreases |ranking| - at
  {
    if at == |ranking| then 0.0 else Share(k, at) + Supply(ranking, k, at + 1)
  }

  function AllSupply(rankings: seq<seq<string>>, k: int): real
  {
    if rankings == [] then 0.0 else Supply(rankings[0], k, 0) + AllSupply(rankings[1..], k)
  }

  function GainOf(ranking: seq<string>, k: int, at: nat, keys: seq<string>): real
    requires at <= |ranking|
  {
    if keys == [] then 0.0 else Gain(ranking, k, at, keys[0]) + GainOf(ranking, k, at, keys[1..])
  }

  function FusedOf(rankings: seq<seq<string>>, k: int, keys: seq<string>): real
  {
    if keys == [] then 0.0 else Fused(rankings, k, keys[0]) + FusedOf(rankings, k, keys[1..])
  }

  /** How much position `at` gives to the listed chunks together. */
  lemma {:induction false} PositionGives(ranking: seq<string>, k: int, at: nat, keys: seq<string>)
    requires at < |ranking| && NoRepeats(keys)
    ensures GainOf(ranking, k, at, keys)
            == GainOf(ranking, k, at + 1, keys) + if ranking[at] in keys then Share(k, at) else 0.0
  {
    if keys != [] {
      PositionGives(ranking, k, at, keys[1..]);
      assert forall i :: 0 <= i < |keys[1..]| ==> keys[1..][i] == keys[i + 1];
    }
  }

  lemma {:induction false} GainsUseSupply(ranking: seq<string>, k: int, at: nat, keys: seq<string>)
    requires at <= |ranking| && NoRepeats(keys) && forall i :: at <= i < |ranking| ==> ranking[i] in keys
    ensures GainOf(ranking, k, at, keys) == Supply(ranking, k, at)
    decreases |ranking| - at
  {
    if at < |ranking| {
      PositionGives(ranking, k, at, keys);
      GainsUseSupply(ranking, k, at + 1, keys);
    } else {
      NothingGained(ranking, k, keys);
    }
  }

  lemma {:induction false} NothingGained(ranking: seq<string>, k: int, keys: seq<string>)
    ensures GainOf(ranking, k, |ranking|, keys) == 0.0
  {
    if keys != [] { NothingGained(ranking, k, keys[1..]); }
  }

  lemma {:induction false} FusedOfSplits(rankings: seq<seq<string>>, k: int, keys: seq<string>)
    requires rankings != []
    ensures FusedOf(rankings, k, keys) == GainOf(rankings[0], k, 0, keys) + FusedOf(rankings[1..], k, keys)
  {
    if keys != [] { FusedOfSplits(rankings, k, keys[1..]); }
  }

  lemma {:induction false} FusedOfNone(k: int, keys: seq<string>)
    ensures FusedOf([], k, keys) == 0.0
  {
    if keys != [] { FusedOfNone(k, keys[1..]); }
  }

  lemma {:induction false} FusedUsesSupply(rankings: seq<seq<string>>, k: int, keys: seq<string>)
    requires NoRepeats(keys) && forall r :: 0 <= r < |rankings| ==> forall i :: 0 <= i < |rankings[r]| ==>
             rankings[r][i] in keys
    ensures FusedOf(rankings, k, keys) == AllSupply(rankings, k)
  {
    if rankings == [] {
      FusedOfNone(k, keys);
    } else {
      FusedOfSplits(rankings, k, keys);
      GainsUseSupply(rankings[0], k, 0, keys);
      FusedUsesSupply(rankings[1..], k, keys);
    }
  }

  /** The supply of a ranking is 1/(k + 1) + 1/(k + 2) and so on to its last position. */
  lemma {:induction false} SupplyAddsUp(parts: seq<real>, ranking: seq<string>, k: int, at: nat)
    requires |parts| == |ranking| && at <= |ranking|
    requires forall i :: 0 <= i < |ranking| ==> k + i + 1 != 0 && parts[i] == 1.0 / (k + (i + 1)) as real
    ensures Supply(ranking, k, at) == Sum(parts[at..])
    decreases |ranking| - at
  {
    if at < |ranking| {
      SupplyAddsUp(parts, ranking, k, at + 1);
      assert parts[at..][1..] == parts[at + 1..];
    }
  }

  /** The fused scores together are the sum of 1/(k + rank) over all positions, in whatever
      order the fused chunks are listed and with repeats in the rankings or without. */
  lemma {:induction false} FusionConserves(rankings: seq<seq<string>>, k: int, fused: map<string, real>,
        keys: seq<string>)
    requires NoRepeats(keys) && (forall c :: c in keys <==> c in fused)
    requires IsFusion(fused, rankings, k)
    ensures Total(fused, keys) == AllSupply(rankings, k)
  {
    TotalIsFusedOf(rankings, k, fused, keys);
    forall r, i | 0 <= r < |rankings| && 0 <= i < |rankings[r]| ensures rankings[r][i] in keys {
      assert rankings[r][i] in Chunks(rankings);
    }
    FusedUsesSupply(rankings, k, keys);
  }

  lemma {:induction false} TotalIsFusedOf(rankings: seq<seq<string>>, k: int, fused: map<string, real>,
        keys: seq<string>)
    requires forall c :: c in keys ==> c in fused && fused[c] == Fused(rankings, k, c)
    ensures Total(fused, keys) == FusedOf(rankings, k, keys)
  {
    if keys != [] { TotalIsFusedOf(rankings, k, fused, keys[1..]); }
  }
}
