/**
 algorithms/conflict.py: greedy edge removal until no homonym signal fires, proved to end,
 to partition the group, and to cut only edges no stronger than those it keeps.
 */
module Conflict {
  import opened Wrappers
  import opened Attributes
  import opened Signals
  import opened Order
  import opened Graph
  import opened Sequences

  // ----------------------------------------------------------------- ids and members

  function Ids(ms: Group): set<string> { set i | 0 <= i < |ms| :: ms[i].id }

  function Internal(E: set<Pair>, V: set<string>): set<Pair> { set p | p in E && p <= V }

  /** by_id[id] */
  function ById(ms: Group, id: string): (m: Attribute)
    requires id in Ids(ms)
    ensures m in ms && m.id == id
  {
    if ms[|ms| - 1].id == id then ms[|ms| - 1]
    else
      assert Ids(ms) == Ids(ms[..|ms| - 1]) + {ms[|ms| - 1].id} by { IdsOfFront(ms); }
      ById(ms[..|ms| - 1], id)
  }

  lemma IdsOfFront(ms: Group)
    requires ms != []
    ensures Ids(ms) == Ids(ms[..|ms| - 1]) + {ms[|ms| - 1].id}
  {
    var front := ms[..|ms| - 1];
    forall x ensures x in Ids(ms) <==> x in Ids(front) + {ms[|ms| - 1].id} {
      if i :| 0 <= i < |ms| && ms[i].id == x && i < |front| { assert front[i].id == x; }
      if x in Ids(front) {
        var i :| 0 <= i < |front| && front[i].id == x;
        assert ms[i].id == x;
      }
    }
  }

  function Pick(ms: Group, ids: seq<string>): Group
    requires Elements(ids) <= Ids(ms)
  {
    seq(|ids|, i requires 0 <= i < |ids| => assert ids[i] in Elements(ids); ById(ms, ids[i]))
  }

  lemma PickExact(ms: Group, ids: seq<string>)
    requires Elements(ids) <= Ids(ms) && StrictlySorted(ids)
    ensures DistinctIds(Pick(ms, ids)) && Ids(Pick(ms, ids)) == Elements(ids)
    ensures forall m :: m in Pick(ms, ids) ==> m in ms
    ensures ids != [] ==> Pick(ms, ids) != []
  {
    var g := Pick(ms, ids);
    forall i | 0 <= i < |ids| ensures g[i].id == ids[i] && g[i] in ms {
      assert ids[i] in Elements(ids);
    }
    forall i, j | 0 <= i < j < |g| ensures g[i].id != g[j].id {
      LessAsymmetric(ids[i], ids[j]);
    }
    forall x ensures x in Ids(g) <==> x in Elements(ids) {
      if x in Elements(ids) {
        var i :| 0 <= i < |ids| && ids[i] == x;
        assert g[i].id == x;
      }
    }
  }

  // ------------------------------------------------------------------- what a cut is

  /** The parts share out the members, each in exactly one part. */
  ghost predicate Partition(ms: Group, parts: seq<Group>) {
    && (forall i, m :: 0 <= i < |parts| && m in parts[i] ==> m in ms)
    && (forall m :: m in ms ==> exists i :: 0 <= i < |parts| && m in parts[i])
    && (forall i, j, m :: 0 <= i < j < |parts| && m in parts[i] ==> m !in parts[j])
    && (forall i :: 0 <= i < |parts| ==> DistinctIds(parts[i]))
  }

  ghost predicate Silent(cfg: Config, parts: seq<Group>) {
    forall i :: 0 <= i < |parts| ==> !Fires(cfg, parts[i])
  }

  /** The surviving edges all lie inside parts. */
  ghost predicate Survivors(E: set<Pair>, V: set<string>, parts: seq<Group>, kept: set<Pair>) {
    && kept <= Internal(E, V)
    && forall p :: p in kept ==> exists i :: 0 <= i < |parts| && p <= Ids(parts[i])
  }

  /** An edge that was cut is no stronger than any surviving edge of a part it touches. */
  ghost predicate CutWeakest(edges: Edges, V: set<string>, parts: seq<Group>, kept: set<Pair>) {
    forall e, i, f |
      e in Internal(edges.Keys, V) - kept && 0 <= i < |parts| && e * Ids(parts[i]) != {} && f in kept &&
          f <= Ids(parts[i]) && f in edges
      :: edges[e] <= edges[f]
  }

  ghost predicate Whole(V: set<string>, E: set<Pair>) {
    forall a, b :: a in V && b in V ==> Reachable(V, E, a, b)
  }

  ghost predicate AllWhole(parts: seq<Group>, E: set<Pair>) {
    forall i :: 0 <= i < |parts| ==> Whole(Ids(parts[i]), E)
  }

  ghost predicate Cut(cfg: Config, ms: Group, edges: Edges, parts: seq<Group>, kept: set<Pair>) {
    Partition(ms, parts) && Silent(cfg, parts) && Survivors(edges.Keys, Ids(ms), parts, kept) &&
        CutWeakest(edges, Ids(ms), parts, kept)
  }

  ghost function AtLeast(edges: Edges, bound: real): set<Pair> { set f | f in edges && edges[f] >= bound }

  /** Why e was cut: some of the members, held together by edges no weaker than e, made a signal
      fire, and e lay between two of them. */
  ghost predicate Reason(cfg: Config, ms: Group, edges: Edges, e: Pair, g: Group) {
    e in edges && (forall m :: m in g ==> m in ms) && Fires(cfg, g) && e <= Ids(g) &&
        Whole(Ids(g), AtLeast(edges, edges[e]))
  }

  /** No edge was cut without need. */
  ghost predicate CutsNeeded(cfg: Config, ms: Group, edges: Edges, kept: set<Pair>) {
    forall e :: e in Internal(edges.Keys, Ids(ms)) - kept ==> exists g :: Reason(cfg, ms, edges, e, g)
  }

  ghost predicate NoneEmpty(parts: seq<Group>) { forall i :: 0 <= i < |parts| ==> parts[i] != [] }

  // ------------------------------------------------------------------ small facts

  lemma IdsMember(ms: Group, m: Attribute)
    requires m in ms
    ensures m.id in Ids(ms)
  {
    var i :| 0 <= i < |ms| && ms[i] == m;
  }

  lemma PartIdsInside(ms: Group, parts: seq<Group>, i: nat)
    requires Partition(ms, parts) && i < |parts|
    ensures Ids(parts[i]) <= Ids(ms)
  {
    forall x | x in Ids(parts[i]) ensures x in Ids(ms) {
      var k :| 0 <= k < |parts[i]| && parts[i][k].id == x;
      assert parts[i][k] in parts[i];
      IdsMember(ms, parts[i][k]);
    }
  }

  lemma IdsOfConcat(a: Group, b: Group)
    ensures Ids(a + b) == Ids(a) + Ids(b)
  {
    forall x ensures x in Ids(a + b) <==> x in Ids(a) + Ids(b) {
      if x in Ids(a) { var i :| 0 <= i < |a| && a[i].id == x; assert (a + b)[i].id == x; }
      if x in Ids(b) { var i :| 0 <= i < |b| && b[i].id == x; assert (a + b)[|a| + i].id == x; }
    }
  }

  lemma ReachableMore(V: set<string>, E: set<Pair>, E': set<Pair>, a: string, b: string)
    requires Reachable(V, E, a, b) && forall p :: p in E && p <= V ==> p in E'
    ensures Reachable(V, E', a, b)
  {
    var p :| Joins(V, E, p, a, b);
    assert forall i :: 0 <= i < |p| - 1 ==> Adjacent(V, E, p[i], p[i + 1]) ==> Adjacent(V, E', p[i], p[i + 1]);
    assert Joins(V, E', p, a, b);
  }

  lemma WholeMore(V: set<string>, E: set<Pair>, E': set<Pair>)
    requires Whole(V, E) && forall p :: p in E && p <= V ==> p in E'
    ensures Whole(V, E')
  {
    forall a, b | a in V && b in V ensures Reachable(V, E', a, b) { ReachableMore(V, E, E', a, b); }
  }

  /** A component is connected by itself: its paths never leave it. */
  lemma {:induction false} PathStays(V: set<string>, E: set<Pair>, C: set<string>, p: seq<string>)
    requires IsPath(V, E, p) && p[0] in C && Closed(V, E, C)
    ensures IsPath(C, E, p)
    decreases |p|
  {
    if |p| > 1 {
      assert Adjacent(V, E, p[0], p[1]);
      PathStays(V, E, C, p[1..]);
      forall i | 0 <= i < |p| - 1 ensures Adjacent(C, E, p[i], p[i + 1]) {
        if i > 0 { assert p[i] == p[1..][i - 1] && p[i + 1] == p[1..][i]; }
      }
    }
  }

  /** Neighbours share a component. */
  lemma NeighboursTogether(V: set<string>, E: set<Pair>, i: nat, x: string, y: string)
    requires i < |Components(V, E)| && x in Components(V, E)[i] && Adjacent(V, E, x, y)
    ensures y in Components(V, E)[i]
  {
    ComponentsExact(V, E);
    ReachesItself(V, E, x);
    ReachFurther(V, E, x, x, y);
  }

  lemma ComponentWhole(V: set<string>, E: set<Pair>, i: nat)
    requires i < |Components(V, E)|
    ensures Whole(Elements(Components(V, E)[i]), E)
  {
    var C := Elements(Components(V, E)[i]);
    assert Closed(V, E, C) by {
      forall x, y | x in C && Adjacent(V, E, x, y) ensures y in C { NeighboursTogether(V, E, i, x, y); }
    }
    forall a, b | a in C && b in C ensures Reachable(C, E, a, b) {
      var p := PathBetween(V, E, i, a, b);
      PathStays(V, E, C, p);
      assert Joins(C, E, p, a, b);
    }
  }

  lemma PathBetween(V: set<string>, E: set<Pair>, i: nat, a: string, b: string) returns (p: seq<string>)
    requires i < |Components(V, E)| && a in Components(V, E)[i] && b in Components(V, E)[i]
    ensures Joins(V, E, p, a, b)
  {
    ComponentsExact(V, E);
    assert b in Elements(Components(V, E)[i]);
    assert Reachable(V, E, a, b);
    p :| Joins(V, E, p, a, b);
  }

  lemma SingletonWhole(ms: Group, E: set<Pair>)
    requires |ms| == 1
    ensures Whole(Ids(ms), E)
  {
    assert Ids(ms) == {ms[0].id};
    ReachesItself(Ids(ms), E, ms[0].id);
  }

  // ---------------------------------------------------------------- joining cuts

  ghost predicate NoCrossing(E: set<Pair>, A: set<string>, B: set<string>) {
    Internal(E, A + B) == Internal(E, A) + Internal(E, B)
  }

  lemma JoinPartitions(a: Group, b: Group, pa: seq<Group>, pb: seq<Group>)
    requires Partition(a, pa) && Partition(b, pb) && Ids(a) !! Ids(b)
    ensures Partition(a + b, pa + pb)
  {
    var parts := pa + pb;
    forall m | m in a + b ensures exists i :: 0 <= i < |parts| && m in parts[i] {
      if m in a {
        var i :| 0 <= i < |pa| && m in pa[i];
        assert m in parts[i];
      } else {
        var i :| 0 <= i < |pb| && m in pb[i];
        assert m in parts[|pa| + i];
      }
    }
    forall i, j, m | 0 <= i < j < |parts| && m in parts[i] ensures m !in parts[j] {
      if i < |pa| <= j && m in parts[j] {
        IdsMember(a, m);
        IdsMember(b, m);
      }
    }
  }

  lemma JoinSurvivors(E: set<Pair>, A: set<string>, B: set<string>, pa: seq<Group>, pb: seq<Group>, ka: set<Pair>,
        kb: set<Pair>)
    requires Survivors(E, A, pa, ka) && Survivors(E, B, pb, kb) && NoCrossing(E, A, B)
    ensures Survivors(E, A + B, pa + pb, ka + kb)
  {
    var parts := pa + pb;
    forall p | p in ka + kb ensures exists i :: 0 <= i < |parts| && p <= Ids(parts[i]) {
      if p in ka {
        var i :| 0 <= i < |pa| && p <= Ids(pa[i]);
        assert parts[i] == pa[i];
      } else {
        var i :| 0 <= i < |pb| && p <= Ids(pb[i]);
        assert parts[|pa| + i] == pb[i];
      }
    }
  }

  lemma JoinWeakest(edges: Edges, a: Group, b: Group, pa: seq<Group>, pb: seq<Group>, ka: set<Pair>, kb: set<Pair>)
    requires TwoEnded(edges.Keys) && Partition(a, pa) && Partition(b, pb) && Ids(a) !! Ids(b) &&
             NoCrossing(edges.Keys, Ids(a), Ids(b))
    requires ka <= Internal(edges.Keys, Ids(a)) && kb <= Internal(edges.Keys, Ids(b))
    requires CutWeakest(edges, Ids(a), pa, ka) && CutWeakest(edges, Ids(b), pb, kb)
    ensures CutWeakest(edges, Ids(a) + Ids(b), pa + pb, ka + kb)
  {
    var parts := pa + pb;
    forall e, i, f | e in Internal(edges.Keys, Ids(a) + Ids(b)) - (ka + kb) && 0 <= i < |parts| &&
        e * Ids(parts[i]) != {}
                     && f in ka + kb && f <= Ids(parts[i]) && f in edges
      ensures edges[e] <= edges[f]
    {
      var x :| x in e * Ids(parts[i]);
      assert |f| == 2;
      var y :| y in f;
      if i < |pa| {
        PartIdsInside(a, pa, i);
        assert e in Internal(edges.Keys, Ids(a)) - ka && f in ka;
      } else {
        PartIdsInside(b, pb, i - |pa|);
        assert e in Internal(edges.Keys, Ids(b)) - kb && f in kb;
        assert parts[i] == pb[i - |pa|];
      }
    }
  }

  lemma JoinCuts(cfg: Config, edges: Edges, a: Group, b: Group, pa: seq<Group>, pb: seq<Group>, ka: set<Pair>,
        kb: set<Pair>)
    requires TwoEnded(edges.Keys) && Cut(cfg, a, edges, pa, ka) && Cut(cfg, b, edges, pb, kb)
    requires Ids(a) !! Ids(b) && NoCrossing(edges.Keys, Ids(a), Ids(b))
    ensures Cut(cfg, a + b, edges, pa + pb, ka + kb)
  {
    IdsOfConcat(a, b);
    JoinPartitions(a, b, pa, pb);
    JoinSurvivors(edges.Keys, Ids(a), Ids(b), pa, pb, ka, kb);
    JoinWeakest(edges, a, b, pa, pb, ka, kb);
  }

  lemma JoinWholes(pa: seq<Group>, pb: seq<Group>, ka: set<Pair>, kb: set<Pair>)
    requires AllWhole(pa, ka) && AllWhole(pb, kb)
    ensures AllWhole(pa + pb, ka + kb)
  {
    var parts := pa + pb;
    forall i | 0 <= i < |parts| ensures Whole(Ids(parts[i]), ka + kb) {
      if i < |pa| { WholeMore(Ids(pa[i]), ka, ka + kb); } else { WholeMore(Ids(pb[i - |pa|]), kb, ka + kb); }
    }
  }

  lemma JoinNeeded(cfg: Config, edges: Edges, a: Group, b: Group, ka: set<Pair>, kb: set<Pair>)
    requires CutsNeeded(cfg, a, edges, ka) && CutsNeeded(cfg, b, edges, kb) && NoCrossing(edges.Keys, Ids(a), Ids(b))
    ensures CutsNeeded(cfg, a + b, edges, ka + kb)
  {
    IdsOfConcat(a, b);
    forall e | e in Internal(edges.Keys, Ids(a + b)) - (ka + kb) ensures exists g :: Reason(cfg, a + b, edges, e, g) {
      if e in Internal(edges.Keys, Ids(a)) {
        assert e in Internal(edges.Keys, Ids(a)) - ka;
        var g :| Reason(cfg, a, edges, e, g);
        assert Reason(cfg, a + b, edges, e, g);
      } else {
        assert e in Internal(edges.Keys, Ids(b)) - kb;
        var g :| Reason(cfg, b, edges, e, g);
        assert Reason(cfg, a + b, edges, e, g);
      }
    }
  }

  lemma SameNeeded(cfg: Config, ms: Group, all: Group, edges: Edges, kept: set<Pair>)
    requires SameMembers(ms, all) && CutsNeeded(cfg, all, edges, kept)
    ensures CutsNeeded(cfg, ms, edges, kept)
  {
    SameIds(ms, all);
    forall e | e in Internal(edges.Keys, Ids(ms)) - kept ensures exists g :: Reason(cfg, ms, edges, e, g) {
      var g :| Reason(cfg, all, edges, e, g);
      assert Reason(cfg, ms, edges, e, g);
    }
  }

  /** The weakest edge of a firing, connected group was cut with reason, and so were the edges
      cut from the rest. */
  lemma AddNeeded(cfg: Config, ms: Group, edges: Edges, rest: Edges, worst: Pair, kept: set<Pair>)
    requires Fires(cfg, ms) && Whole(Ids(ms), edges.Keys) && CutsNeeded(cfg, ms, rest, kept)
    requires worst in Internal(edges.Keys, Ids(ms)) && rest.Keys == Internal(edges.Keys, Ids(ms)) - {worst}
    requires forall p :: p in rest ==> rest[p] == edges[p] && edges[worst] <= edges[p]
    ensures CutsNeeded(cfg, ms, edges, kept)
  {
    forall e | e in Internal(edges.Keys, Ids(ms)) - kept ensures exists g :: Reason(cfg, ms, edges, e, g) {
      if e == worst {
        WholeMore(Ids(ms), edges.Keys, AtLeast(edges, edges[worst]));
        assert Reason(cfg, ms, edges, e, ms);
      } else {
        assert e in Internal(rest.Keys, Ids(ms)) - kept;
        var g :| Reason(cfg, ms, rest, e, g);
        WholeMore(Ids(g), AtLeast(rest, rest[e]), AtLeast(edges, edges[e]));
        assert Reason(cfg, ms, edges, e, g);
      }
    }
  }

  /** A cut of the graph without its weakest edge is a cut of the graph. */
  lemma AddWeakest(cfg: Config, ms: Group, all: Group, edges: Edges, rest: Edges, worst: Pair, parts: seq<Group>,
        kept: set<Pair>)
    requires SameMembers(ms, all) && Cut(cfg, all, rest, parts, kept)
    requires worst in Internal(edges.Keys, Ids(ms)) && rest.Keys == Internal(edges.Keys, Ids(ms)) - {worst}
    requires forall p :: p in rest ==> rest[p] == edges[p] && edges[worst] <= edges[p]
    ensures Cut(cfg, ms, edges, parts, kept)
  {
    SameIds(ms, all);
    assert Internal(rest.Keys, Ids(all)) <= rest.Keys <= Internal(edges.Keys, Ids(ms));
    forall e, i, f | e in Internal(edges.Keys, Ids(ms)) - kept && 0 <= i < |parts| && e * Ids(parts[i]) != {}
                     && f in kept && f <= Ids(parts[i]) && f in edges
      ensures edges[e] <= edges[f]
    {
      assert f in rest;
      if e != worst { assert e in Internal(rest.Keys, Ids(all)) - kept; }
    }
  }

  lemma SameIds(a: Group, b: Group)
    requires SameMembers(a, b)
    ensures Ids(a) == Ids(b)
  {
    forall x ensures x in Ids(a) <==> x in Ids(b) {
      if i :| 0 <= i < |a| && a[i].id == x { assert a[i] in b; IdsMember(b, a[i]); }
      if i :| 0 <= i < |b| && b[i].id == x { assert b[i] in a; IdsMember(a, b[i]); }
    }
  }

  // -------------------------------------------------------------- the simple endings

  lemma UncutGroup(cfg: Config, ms: Group, edges: Edges)
    requires DistinctIds(ms) && !Fires(cfg, ms)
    ensures Cut(cfg, ms, edges, [ms], Internal(edges.Keys, Ids(ms)))
    ensures Whole(Ids(ms), edges.Keys) ==> AllWhole([ms], Internal(edges.Keys, Ids(ms)))
  {
    var kept := Internal(edges.Keys, Ids(ms));
    forall p | p in kept ensures exists i :: 0 <= i < |[ms]| && p <= Ids([ms][i]) { assert p <= Ids([ms][0]); }
    assert forall m :: m in ms ==> m in [ms][0];
    if Whole(Ids(ms), edges.Keys) { WholeMore(Ids(ms), edges.Keys, kept); }
  }

  function Singletons(ms: Group): seq<Group> { seq(|ms|, i requires 0 <= i < |ms| => [ms[i]]) }

  lemma Scattered(cfg: Config, ms: Group, edges: Edges)
    requires DistinctIds(ms) && Internal(edges.Keys, Ids(ms)) == {}
    ensures Cut(cfg, ms, edges, Singletons(ms), {}) && NoneEmpty(Singletons(ms)) && AllWhole(Singletons(ms), {})
  {
    var parts := Singletons(ms);
    forall i | 0 <= i < |parts| ensures !Fires(cfg, parts[i]) && Whole(Ids(parts[i]), {}) {
      LoneMemberSilent(cfg, parts[i]);
      SingletonWhole(parts[i], {});
    }
    forall m | m in ms ensures exists i :: 0 <= i < |parts| && m in parts[i] {
      var i :| 0 <= i < |ms| && ms[i] == m;
      assert m in parts[i];
    }
  }

  lemma WorstExists(edges: Edges, E: set<Pair>)
    requires E <= edges.Keys && E != {}
    ensures exists w :: w in E && forall p :: p in E ==> edges[w] <= edges[p]
  {
    var x :| x in E;
    if E == {x} {
      assert forall p :: p in E ==> edges[x] <= edges[p];
    } else {
      WorstExists(edges, E - {x});
      var w :| w in E - {x} && forall p :: p in E - {x} ==> edges[w] <= edges[p];
      var v := if edges[x] <= edges[w] then x else w;
      forall p | p in E ensures edges[v] <= edges[p] { if p != x { assert p in E - {x}; } }
    }
  }

  // ----------------------------------------------------------------- min_cut_until

  /** The components handled so far, and the cut built from them. */
  ghost predicate Handled(V: set<string>, E: set<Pair>, k: nat, covered: Group) {
    && k <= |Components(V, E)|
    && forall x :: x in Ids(covered) <==> exists l :: 0 <= l < k && x in Components(V, E)[l]
  }

  lemma NextComponent(V: set<string>, E: set<Pair>, k: nat, covered: Group, next: Group)
    requires TwoEnded(E) && k < |Components(V, E)| && Handled(V, E, k, covered) &&
             Ids(next) == Elements(Components(V, E)[k])
    ensures Ids(covered) !! Ids(next) && Handled(V, E, k + 1, covered + next)
    ensures NoCrossing(E, Ids(covered), Ids(next))
  {
    var cs := Components(V, E);
    ComponentsExact(V, E);
    IdsOfConcat(covered, next);
    forall x | x in Ids(covered) ensures x !in Ids(next) {
      var l :| 0 <= l < k && x in cs[l];
    }
    forall p | p in Internal(E, Ids(covered) + Ids(next))
      ensures p in Internal(E, Ids(covered)) + Internal(E, Ids(next))
    {
      EdgeInsideOne(V, E, k, covered, next, p);
    }
    forall x ensures x in Ids(covered + next) <==> exists l :: 0 <= l < k + 1 && x in cs[l] {
      if x in Ids(next) { assert x in cs[k]; }
    }
  }

  lemma EdgeInsideOne(V: set<string>, E: set<Pair>, k: nat, covered: Group, next: Group, p: Pair)
    requires TwoEnded(E) && k < |Components(V, E)| && Handled(V, E, k, covered) &&
             Ids(next) == Elements(Components(V, E)[k])
    requires p in E && p <= Ids(covered) + Ids(next)
    ensures p <= Ids(covered) || p <= Ids(next)
  {
    var cs := Components(V, E);
    ComponentsExact(V, E);
    if a :| a in p && a in Ids(next) {
      forall b | b in p ensures b in cs[k] {
        assert a in Elements(cs[k]);
        assert p <= V by { InsideAll(V, E, k, covered, next); }
        if a != b {
          PairOfTwo(p, a, b);
          NeighboursTogether(V, E, k, a, b);
        }
      }
    }
  }

  lemma InsideAll(V: set<string>, E: set<Pair>, k: nat, covered: Group, next: Group)
    requires k < |Components(V, E)| && Handled(V, E, k, covered) && Ids(next) == Elements(Components(V, E)[k])
    ensures Ids(covered) + Ids(next) <= V
  {
    var cs := Components(V, E);
    ComponentsExact(V, E);
    forall x | x in Ids(covered) ensures x in V {
      var l :| 0 <= l < k && x in cs[l];
      assert x in Elements(cs[l]);
    }
  }

  lemma PairOfTwo(p: Pair, a: string, b: string)
    requires |p| == 2 && a in p && b in p && a != b
    ensures p == {a, b}
  {
    var rest := p - {a};
    assert |rest - {b}| == 0;
    assert rest == {b};
    assert p == {a} + rest;
  }

  /** min_cut_until, for whichever weakest edge min() picks among ties. */
  method MinCutUntil(cfg: Config, members: Group, edges: Edges) returns (parts: seq<Group>, ghost kept: set<Pair>)
    requires DistinctIds(members) && TwoEnded(edges.Keys)
    ensures Cut(cfg, members, edges, parts, kept)
    ensures members != [] ==> NoneEmpty(parts)
    ensures Whole(Ids(members), edges.Keys) ==> AllWhole(parts, kept) && CutsNeeded(cfg, members, edges, kept)
    decreases |Internal(edges.Keys, Ids(members))|
  {
    if |members| < 2 || !Fires(cfg, members) {
      if |members| < 2 { LoneMemberSilent(cfg, members); }
      UncutGroup(cfg, members, edges);
      return [members], Internal(edges.Keys, Ids(members));
    }
    var V := Ids(members);
    var internal := Internal(edges.Keys, V);
    if internal == {} {
      Scattered(cfg, members, edges);
      return Singletons(members), {};
    }
    WorstExists(edges, internal);
    var worst :| worst in internal && forall p :: p in internal ==> edges[worst] <= edges[p];
    var remaining: Edges := map p | p in internal && p != worst :: edges[p];
    assert remaining.Keys == internal - {worst};
    parts, kept := CutComponents(cfg, members, remaining, |internal|);
    AddWeakest(cfg, members, members, edges, remaining, worst, parts, kept);
    if Whole(V, edges.Keys) { AddNeeded(cfg, members, edges, remaining, worst, kept); }
  }

  /** The loop over the components left once the weakest edge is gone. */
  method CutComponents(cfg: Config, members: Group, remaining: Edges, ghost size: nat)
    returns (parts: seq<Group>, ghost kept: set<Pair>)
    requires DistinctIds(members) && TwoEnded(remaining.Keys) && |remaining| < size
    ensures Cut(cfg, members, remaining, parts, kept) && NoneEmpty(parts) && AllWhole(parts, kept)
    ensures CutsNeeded(cfg, members, remaining, kept)
    decreases size, 0
  {
    var ids := seq(|members|, i requires 0 <= i < |members| => members[i].id);
    ghost var V, E := Ids(members), remaining.Keys;
    IdListExact(members, ids);
    var components := ConnectedComponents(ids, remaining);
    ComponentsExact(V, E);
    parts, kept := [], {};
    ghost var covered: Group := [];
    for k := 0 to |components|
      invariant Handled(V, E, k, covered) && (forall m :: m in covered ==> m in members)
      invariant Cut(cfg, covered, remaining, parts, kept) && NoneEmpty(parts) && AllWhole(parts, kept)
      invariant CutsNeeded(cfg, covered, remaining, kept)
    {
      assert Elements(components[k]) <= V;
      var sub := Pick(members, components[k]);
      PickExact(members, components[k]);
      SmallerInternal(remaining, Ids(sub));
      ComponentWhole(V, E, k);
      var more, moreKept := MinCutUntil(cfg, sub, remaining);
      NextComponent(V, E, k, covered, sub);
      JoinCuts(cfg, remaining, covered, sub, parts, more, kept, moreKept);
      JoinWholes(parts, more, kept, moreKept);
      JoinNeeded(cfg, remaining, covered, sub, kept, moreKept);
      parts, kept, covered := parts + more, kept + moreKept, covered + sub;
    }
    AllCovered(members, V, E, covered);
    SameCut(cfg, members, covered, remaining, parts, kept);
    SameNeeded(cfg, members, covered, remaining, kept);
  }

  lemma SmallerInternal(remaining: Edges, V: set<string>)
    ensures |Internal(remaining.Keys, V)| <= |remaining|
  {
    var inside := Internal(remaining.Keys, V);
    assert remaining.Keys == inside + (remaining.Keys - inside);
    assert |remaining| == |remaining.Keys|;
  }

  lemma IdListExact(ms: Group, ids: seq<string>)
    requires |ids| == |ms| && forall i :: 0 <= i < |ms| ==> ids[i] == ms[i].id
    ensures Elements(ids) == Ids(ms)
  {
    forall x ensures x in Elements(ids) <==> x in Ids(ms) {
      if x in Ids(ms) { var i :| 0 <= i < |ms| && ms[i].id == x; assert ids[i] == x; }
    }
  }

  lemma AllCovered(members: Group, V: set<string>, E: set<Pair>, covered: Group)
    requires V == Ids(members) && DistinctIds(members) && Handled(V, E, |Components(V, E)|, covered)
    requires forall m :: m in covered ==> m in members
    ensures SameMembers(members, covered)
  {
    ComponentsExact(V, E);
    forall m | m in members ensures m in covered {
      IdsMember(members, m);
      assert m.id in Ids(covered);
      var i :| 0 <= i < |covered| && covered[i].id == m.id;
      assert covered[i] in members;
      var j :| 0 <= j < |members| && members[j] == m;
      var l :| 0 <= l < |members| && members[l] == covered[i];
      assert j == l;
    }
  }

  lemma SameCut(cfg: Config, members: Group, covered: Group, edges: Edges, parts: seq<Group>, kept: set<Pair>)
    requires SameMembers(members, covered) && Cut(cfg, covered, edges, parts, kept)
    ensures Cut(cfg, members, edges, parts, kept)
  {
    SameIds(members, covered);
  }

  /** When a signal fires on the whole group, the cut has at least two parts. */
  lemma FiringGroupSplits(cfg: Config, ms: Group, edges: Edges, parts: seq<Group>, kept: set<Pair>)
    requires DistinctIds(ms) && Cut(cfg, ms, edges, parts, kept) && Fires(cfg, ms)
    ensures |parts| >= 2
  {
    if |ms| <= 1 { LoneMemberSilent(cfg, ms); }
    assert ms[0] in ms;
    if |parts| == 1 {
      FiresIgnoresOrder(cfg, ms, parts[0]);
    }
  }

  // ------------------------------------------------------- split_on_homonym_signals

  datatype MemberGroup = MemberGroup(members: Group, conflictClass: Option<string>, fired: seq<string>)

  method SplitOnHomonymSignals(cfg: Config, members: Group, edges: Edges)
    returns (groups: seq<MemberGroup>, ghost kept: set<Pair>)
    requires DistinctIds(members) && TwoEnded(edges.Keys)
    ensures Cut(cfg, members, edges, PartsOf(groups), kept)
    ensures members != [] ==> NoneEmpty(PartsOf(groups))
    ensures Whole(Ids(members), edges.Keys) ==> AllWhole(PartsOf(groups), kept) && CutsNeeded(cfg, members, edges, kept)
    ensures !Fires(cfg, members) ==> groups == [MemberGroup(members, None, [])]
    ensures Fires(cfg, members) ==> |groups| >= 2 && forall i :: 0 <= i < |groups| ==>
            groups[i].conflictClass == Some("homonym") && groups[i].fired == FiredNames(cfg, members)
  {
    var fired := FiredNames(cfg, members);
    if fired == [] {
      UncutGroup(cfg, members, edges);
      groups, kept := [MemberGroup(members, None, [])], Internal(edges.Keys, Ids(members));
      assert PartsOf(groups) == [members];
      return;
    }
    var parts, k := MinCutUntil(cfg, members, edges);
    FiringGroupSplits(cfg, members, edges, parts, k);
    LabelledParts(parts, fired);
    groups, kept := Labelled(parts, fired), k;
  }

  function Labelled(parts: seq<Group>, fired: seq<string>): seq<MemberGroup> {
    seq(|parts|, i requires 0 <= i < |parts| => MemberGroup(parts[i], Some("homonym"), fired))
  }

  lemma LabelledParts(parts: seq<Group>, fired: seq<string>)
    ensures PartsOf(Labelled(parts, fired)) == parts
  {
  }

  function PartsOf(groups: seq<MemberGroup>): seq<Group> {
    seq(|groups|, i requires 0 <= i < |groups| => groups[i].members)
  }
}
