/**
 algorithms/graph.py: breadth-first connected components of a similarity graph, proved to
 list exactly the reachability classes, in an order fixed by the sets of ids and edges.
 */
module Graph {
  import opened Order
  import opened Sequences

  type Pair = set<string>
  type Edges = map<Pair, real>

  /** Edges join two different ids: `a, b = tuple(pair)` needs exactly two. */
  ghost predicate TwoEnded(pairs: set<Pair>) { forall p :: p in pairs ==> |p| == 2 }

  predicate Adjacent(V: set<string>, E: set<Pair>, a: string, b: string) {
    a in V && b in V && a != b && {a, b} in E
  }

  lemma AdjacentSymmetric(V: set<string>, E: set<Pair>, a: string, b: string)
    requires Adjacent(V, E, a, b)
    ensures Adjacent(V, E, b, a)
  {
    assert {a, b} == {b, a};
  }

  // ---------------------------------------------------------------- reachability

  ghost predicate IsPath(V: set<string>, E: set<Pair>, p: seq<string>) {
    && p != [] && p[0] in V
    && forall i :: 0 <= i < |p| - 1 ==> Adjacent(V, E, p[i], p[i + 1])
  }

  ghost predicate Joins(V: set<string>, E: set<Pair>, p: seq<string>, a: string, b: string) {
    IsPath(V, E, p) && p[0] == a && p[|p| - 1] == b
  }

  ghost predicate Reachable(V: set<string>, E: set<Pair>, a: string, b: string) {
    exists p :: Joins(V, E, p, a, b)
  }

  lemma ReachesItself(V: set<string>, E: set<Pair>, a: string)
    requires a in V
    ensures Reachable(V, E, a, a)
  {
    assert Joins(V, E, [a], a, a);
  }

  lemma ReachFurther(V: set<string>, E: set<Pair>, a: string, b: string, c: string)
    requires Reachable(V, E, a, b) && Adjacent(V, E, b, c)
    ensures Reachable(V, E, a, c)
  {
    var p :| Joins(V, E, p, a, b);
    assert Joins(V, E, p + [c], a, c);
  }

  /** A set closed under adjacency that holds one end of a path holds the other. */
  lemma {:induction false} ClosedHoldsPaths(V: set<string>, E: set<Pair>, S: set<string>, p: seq<string>)
    requires IsPath(V, E, p) && p[0] in S
    requires forall a, b :: a in S && Adjacent(V, E, a, b) ==> b in S
    ensures p[|p| - 1] in S
    decreases |p|
  {
    if |p| > 1 {
      assert Adjacent(V, E, p[0], p[1]);
      ClosedHoldsPaths(V, E, S, p[1..]);
    }
  }

  ghost predicate Closed(V: set<string>, E: set<Pair>, S: set<string>) {
    forall a, b :: a in S && Adjacent(V, E, a, b) ==> b in S
  }

  ghost function Class(V: set<string>, E: set<Pair>, a: string): set<string> {
    set b | b in V && Reachable(V, E, a, b)
  }

  lemma ClassClosed(V: set<string>, E: set<Pair>, a: string)
    ensures Closed(V, E, Class(V, E, a))
  {
    forall b, c | b in Class(V, E, a) && Adjacent(V, E, b, c) ensures c in Class(V, E, a) {
      ReachFurther(V, E, a, b, c);
    }
  }

  /** The class of a is the least closed set holding a. */
  lemma ClassLeast(V: set<string>, E: set<Pair>, a: string, S: set<string>)
    requires Closed(V, E, S) && a in S
    ensures Class(V, E, a) <= S
  {
    forall b | b in Class(V, E, a) ensures b in S {
      var p :| Joins(V, E, p, a, b);
      ClosedHoldsPaths(V, E, S, p);
    }
  }

  lemma ComplementClosed(V: set<string>, E: set<Pair>, S: set<string>)
    requires Closed(V, E, S)
    ensures Closed(V, E, V - S)
  {
    forall a, b | a in V - S && Adjacent(V, E, a, b) ensures b in V - S {
      AdjacentSymmetric(V, E, a, b);
    }
  }

  /** Two ids reach each other exactly when they have one class. */
  lemma ClassesAgree(V: set<string>, E: set<Pair>, a: string, b: string)
    requires a in V && b in Class(V, E, a)
    ensures Class(V, E, a) == Class(V, E, b)
  {
    ReachesItself(V, E, b);
    ClassClosed(V, E, a);
    ClassLeast(V, E, b, Class(V, E, a));
    var S := V - Class(V, E, b);
    ClassClosed(V, E, b);
    ComplementClosed(V, E, Class(V, E, b));
    if a in S { ClassLeast(V, E, a, S); }
    ClassLeast(V, E, a, Class(V, E, b));
  }

  // ------------------------------------------------------------- the specification

  /** The classes that meet `todo`, each listed in order, by ascending least member. */
  ghost function Classes(V: set<string>, E: set<Pair>, todo: set<string>): seq<seq<string>>
    requires todo <= V
    decreases |todo|
  {
    if todo == {} then []
    else
      var a := Least(todo);
      var c := Class(V, E, a);
      assert a in c by { ReachesItself(V, E, a); }
      CardinalityShrinks(todo, c, a);
      [SortedOf(c)] + Classes(V, E, todo - c)
  }

  lemma CardinalityShrinks(s: set<string>, c: set<string>, a: string)
    requires a in s && a in c
    ensures |s - c| < |s|
  {
    assert s - c <= s - {a};
    Subset(s - c, s - {a});
  }

  lemma Subset(a: set<string>, b: set<string>)
    requires a <= b
    ensures |a| <= |b|
  {
    assert b == a + (b - a);
  }

  ghost function Components(V: set<string>, E: set<Pair>): seq<seq<string>> { Classes(V, E, V) }

  ghost predicate Listings(todo: set<string>, cs: seq<seq<string>>) {
    forall i :: 0 <= i < |cs| ==> cs[i] != [] && StrictlySorted(cs[i]) && Elements(cs[i]) <= todo
  }

  /** Ids stand together exactly when a path joins them. */
  ghost predicate TogetherIffReachable(V: set<string>, E: set<Pair>, cs: seq<seq<string>>) {
    forall i, x, y :: 0 <= i < |cs| && x in cs[i] && y in V ==> (y in cs[i] <==> Reachable(V, E, x, y))
  }

  ghost predicate Covers(todo: set<string>, cs: seq<seq<string>>) {
    forall x :: x in todo ==> exists i :: 0 <= i < |cs| && x in cs[i]
  }

  ghost predicate Apart(cs: seq<seq<string>>) {
    forall i, j, x :: 0 <= i < j < |cs| && x in cs[i] ==> x !in cs[j]
  }

  ghost predicate Ordered(cs: seq<seq<string>>) {
    forall i, j :: 0 <= i < j < |cs| ==> cs[i] != [] && cs[j] != [] && Less(cs[i][0], cs[j][0])
  }

  ghost predicate AreClasses(V: set<string>, E: set<Pair>, todo: set<string>, cs: seq<seq<string>>) {
    Listings(todo, cs) && TogetherIffReachable(V, E, cs) && Covers(todo, cs) && Apart(cs) && Ordered(cs)
  }

  lemma {:induction false} ClassesExact(V: set<string>, E: set<Pair>, todo: set<string>)
    requires todo <= V && Closed(V, E, todo)
    ensures AreClasses(V, E, todo, Classes(V, E, todo))
    decreases |todo|
  {
    if todo != {} {
      var a := Least(todo);
      var c := Class(V, E, a);
      ReachesItself(V, E, a);
      CardinalityShrinks(todo, c, a);
      ClassLeast(V, E, a, todo);
      ClassClosed(V, E, a);
      forall x, y | x in todo - c && Adjacent(V, E, x, y) ensures y in todo - c {
        AdjacentSymmetric(V, E, x, y);
      }
      ClassesExact(V, E, todo - c);
      ConsExact(V, E, todo, a, Classes(V, E, todo - c));
    }
  }

  lemma ConsExact(V: set<string>, E: set<Pair>, todo: set<string>, a: string, rest: seq<seq<string>>)
    requires todo <= V && IsLeast(a, todo) && Class(V, E, a) <= todo
    requires AreClasses(V, E, todo - Class(V, E, a), rest)
    ensures AreClasses(V, E, todo, [SortedOf(Class(V, E, a))] + rest)
  {
    ReachesItself(V, E, a);
    ConsReachable(V, E, a, rest);
    ConsCovers(todo, Class(V, E, a), rest);
    ConsOrdered(todo, Class(V, E, a), a, rest);
  }

  lemma ConsReachable(V: set<string>, E: set<Pair>, a: string, rest: seq<seq<string>>)
    requires a in V && TogetherIffReachable(V, E, rest)
    ensures TogetherIffReachable(V, E, [SortedOf(Class(V, E, a))] + rest)
  {
    var first := SortedOf(Class(V, E, a));
    forall x, y | x in first && y in V ensures y in first <==> Reachable(V, E, x, y) {
      ClassesAgree(V, E, a, x);
    }
  }

  lemma ConsCovers(todo: set<string>, c: set<string>, rest: seq<seq<string>>)
    requires c <= todo && Covers(todo - c, rest) && Listings(todo - c, rest) && Apart(rest)
    ensures Covers(todo, [SortedOf(c)] + rest) && Apart([SortedOf(c)] + rest)
  {
    var cs := [SortedOf(c)] + rest;
    forall x | x in todo ensures exists i :: 0 <= i < |cs| && x in cs[i] {
      if x in c {
        assert x in cs[0];
      } else {
        assert x in todo - c;
        var i :| 0 <= i < |rest| && x in rest[i];
        assert x in cs[i + 1];
      }
    }
    forall j, x | 0 <= j < |rest| && x in cs[0] ensures x !in rest[j] {
      assert x !in Elements(rest[j]);
    }
    forall i, j, x | 0 <= i < j < |cs| && x in cs[i] ensures x !in cs[j] {
      assert cs[j] == rest[j - 1];
    }
  }

  lemma LeastLeads(todo: set<string>, c: set<string>, a: string)
    requires c <= todo && IsLeast(a, todo) && a in c
    ensures SortedOf(c) != [] && SortedOf(c)[0] == a
  {
    var first := SortedOf(c);
    assert a in first && first[0] in first;
    if first[0] != a { LessAsymmetric(a, first[0]); }
  }

  lemma ConsOrdered(todo: set<string>, c: set<string>, a: string, rest: seq<seq<string>>)
    requires c <= todo && IsLeast(a, todo) && a in c && Listings(todo - c, rest) && Ordered(rest)
    ensures Listings(todo, [SortedOf(c)] + rest) && Ordered([SortedOf(c)] + rest)
  {
    LeastLeads(todo, c, a);
    forall j | 0 <= j < |rest| ensures Less(a, rest[j][0]) { LaterLead(todo, c, a, rest, j); }
    PutFirst(SortedOf(c), rest);
    ConsListings(todo, c, rest);
  }

  lemma ConsListings(todo: set<string>, c: set<string>, rest: seq<seq<string>>)
    requires c <= todo && SortedOf(c) != [] && Listings(todo - c, rest)
    ensures Listings(todo, [SortedOf(c)] + rest)
  {
    var all := [SortedOf(c)] + rest;
    forall i | 0 <= i < |all| ensures all[i] != [] && StrictlySorted(all[i]) && Elements(all[i]) <= todo {
      if i > 0 { assert all[i] == rest[i - 1]; }
    }
  }

  lemma LaterLead(todo: set<string>, c: set<string>, a: string, rest: seq<seq<string>>, j: nat)
    requires IsLeast(a, todo) && a in c && Listings(todo - c, rest) && j < |rest|
    ensures Less(a, rest[j][0])
  {
    assert rest[j][0] in Elements(rest[j]);
  }

  lemma PutFirst(first: seq<string>, rest: seq<seq<string>>)
    requires first != [] && Ordered(rest) && forall j :: 0 <= j < |rest| ==> rest[j] != [] && Less(first[0], rest[j][0])
    ensures Ordered([first] + rest)
  {
    var all := [first] + rest;
    assert all[0] == first && forall j :: 0 <= j < |rest| ==> all[j + 1] == rest[j];
  }

  /** Components lists the reachability classes: each id once, two ids together exactly when a
      path joins them. */
  lemma ComponentsExact(V: set<string>, E: set<Pair>)
    ensures AreClasses(V, E, V, Components(V, E))
  {
    ClassesExact(V, E, V);
  }

  // ------------------------------------------------------------------------- BFS

  ghost predicate Neighbours(V: set<string>, E: set<Pair>, adjacency: map<string, set<string>>) {
    adjacency.Keys == V && forall v, w :: v in V ==> (w in adjacency[v] <==> Adjacent(V, E, v, w))
  }

  function WithEdge(adjacency: map<string, set<string>>, a: string, b: string): map<string, set<string>> {
    if a in adjacency && b in adjacency then
      var once := adjacency[a := adjacency[a] + {b}];
      once[b := once[b] + {a}]
    else adjacency
  }

  lemma EdgeAdded(V: set<string>, E: set<Pair>, adjacency: map<string, set<string>>, a: string, b: string)
    requires Neighbours(V, E, adjacency) && a != b
    ensures Neighbours(V, E + {{a, b}}, WithEdge(adjacency, a, b))
  {
    forall v, w | v in V
      ensures w in WithEdge(adjacency, a, b)[v] <==> Adjacent(V, E + {{a, b}}, v, w)
    {
      PairIs(a, b, v, w);
    }
  }

  /** a, b = tuple(pair) */
  method Ends(pair: Pair) returns (a: string, b: string)
    requires |pair| == 2
    ensures a != b && pair == {a, b}
  {
    a :| a in pair;
    var rest := pair - {a};
    assert |rest| == 1;
    b :| b in rest;
    assert |rest - {b}| == 0;
    assert rest == {b} && pair == {a} + rest;
  }

  method BuildAdjacency(V: set<string>, edges: Edges) returns (adjacency: map<string, set<string>>)
    requires TwoEnded(edges.Keys)
    ensures Neighbours(V, edges.Keys, adjacency)
  {
    adjacency := map v | v in V :: {};
    var pending := edges.Keys;
    ghost var done: set<Pair> := {};
    while pending != {}
      invariant done + pending == edges.Keys && done !! pending
      invariant Neighbours(V, done, adjacency)
      decreases |pending|
    {
      var pair :| pair in pending;
      var a, b := Ends(pair);
      EdgeAdded(V, done, adjacency, a, b);
      adjacency := WithEdge(adjacency, a, b);
      MoveOne(done, pending, pair);
      pending, done := pending - {pair}, done + {pair};
    }
  }

  lemma MoveOne(done: set<Pair>, pending: set<Pair>, pair: Pair)
    requires pair in pending && done !! pending
    ensures (done + {pair}) + (pending - {pair}) == done + pending && (done + {pair}) !! (pending - {pair})
  {
  }

  lemma PairIs(a: string, b: string, v: string, w: string)
    ensures {v, w} == {a, b} <==> (v == a && w == b) || (v == b && w == a)
  {
    if {v, w} == {a, b} {
      assert v in {a, b} && w in {a, b} && a in {v, w} && b in {v, w};
    }
  }

  /** Listing distinct ids in ascending order gives the sorted listing of their set. */
  lemma SortOfDistinct(xs: seq<string>)
    requires NoRepeats(xs)
    ensures Sort(xs) == SortedOf(Elements(xs))
  {
    SortSorts(xs);
    var s := Sort(xs);
    forall x ensures x in s <==> x in SortedOf(Elements(xs)) {
      assert x in s <==> x in multiset(s);
      assert x in xs <==> x in multiset(xs);
    }
    forall i, j | 0 <= i < j < |s| ensures Less(s[i], s[j]) {
      LessTotal(s[i], s[j]);
      if s[i] == s[j] {
        MultiplicityOne(xs, s[i]);
        TwicePresent(s, i, j);
      }
    }
    SortedUnique(s, SortedOf(Elements(xs)));
  }

  lemma {:induction false} MultiplicityOne(xs: seq<string>, x: string)
    requires NoRepeats(xs)
    ensures multiset(xs)[x] <= 1
    decreases |xs|
  {
    if xs != [] {
      MultiplicityOne(xs[1..], x);
      assert xs == [xs[0]] + xs[1..];
      if x == xs[0] {
        assert x !in xs[1..];
        assert x !in multiset(xs[1..]);
      }
    }
  }

  lemma TwicePresent(s: seq<string>, i: nat, j: nat)
    requires i < j < |s| && s[i] == s[j]
    ensures multiset(s)[s[i]] >= 2
  {
    assert s == s[..j] + s[j..];
    assert s[..j][i] == s[i] && s[j..][0] == s[j];
    assert s[i] in multiset(s[..j]) && s[i] in multiset(s[j..]);
  }

  /** The search so far: done and queued ids are distinct, and are just the ids visited by it,
      all of them in the class. */
  ghost predicate Frontier(done: seq<string>, queue: seq<string>, before: set<string>, visited: set<string>,
        whole: set<string>)
  {
    && NoRepeats(done + queue) && Elements(done + queue) == visited - before
    && before <= visited && visited - before <= whole
  }

  lemma FrontierGrows(done: seq<string>, queue: seq<string>, before: set<string>, visited: set<string>,
        whole: set<string>, n: string)
    requires Frontier(done, queue, before, visited, whole) && n !in visited && n in whole
    ensures Frontier(done, queue + [n], before, visited + {n}, whole)
  {
    assert done + (queue + [n]) == (done + queue) + [n];
    assert n !in Elements(done + queue);
    DistinctGrows(done + queue, n);
  }

  lemma FrontierMoves(done: seq<string>, queue: seq<string>, before: set<string>, visited: set<string>,
        whole: set<string>)
    requires Frontier(done, queue, before, visited, whole) && queue != []
    ensures Frontier(done + [queue[0]], queue[1..], before, visited, whole) && queue[0] in visited - before
  {
    assert done + queue == (done + [queue[0]]) + queue[1..];
    assert (done + queue)[|done|] == queue[0];
    assert queue[0] in Elements(done + queue);
  }

  /** The inner loop: queue the neighbours not yet visited. */
  method Enqueue(neighbours: seq<string>, ghost done: seq<string>, queue: seq<string>, ghost before: set<string>,
        visited: set<string>, ghost whole: set<string>)
    returns (queue': seq<string>, visited': set<string>)
    requires Frontier(done, queue, before, visited, whole) && forall n :: n in neighbours ==> n in whole
    ensures Frontier(done, queue', before, visited', whole) && visited <= visited' && forall n :: n in neighbours ==>
            n in visited'
  {
    queue', visited' := queue, visited;
    for k := 0 to |neighbours|
      invariant Frontier(done, queue', before, visited', whole) && visited <= visited'
      invariant forall j :: 0 <= j < k ==> neighbours[j] in visited'
    {
      var n := neighbours[k];
      if n !in visited' {
        FrontierGrows(done, queue', before, visited', whole, n);
        visited' := visited' + {n};
        queue' := queue' + [n];
      }
    }
  }

  /** Visit everything reachable from `start`; `before` holds the earlier classes. */
  method Explore(V: set<string>, ghost E: set<Pair>, adjacency: map<string, set<string>>, start: string,
        before: set<string>)
    returns (component: seq<string>)
    requires Neighbours(V, E, adjacency)
    requires start in V - before && before <= V && Closed(V, E, before)
    ensures NoRepeats(component) && Elements(component) == Class(V, E, start)
  {
    component := [];
    var queue, visited := [start], before + {start};
    ghost var whole := Class(V, E, start);
    ReachesItself(V, E, start);
    while queue != []
      invariant Frontier(component, queue, before, visited, whole) && start in visited - before
      invariant forall c, w :: c in component && Adjacent(V, E, c, w) ==> w in visited
      decreases |whole| - |component|
    {
      var current := queue[0];
      FrontierMoves(component, queue, before, visited, whole);
      ghost var done := component;
      component := component + [current];
      var neighbours := SortedOf(adjacency[current]);
      forall n | n in neighbours ensures n in whole { ReachFurther(V, E, start, current, n); }
      queue, visited := Enqueue(neighbours, component, queue[1..], before, visited, whole);
      forall c, w | c in component && Adjacent(V, E, c, w) ensures w in visited {
        assert c == current || c in done;
        if c == current { assert w in neighbours; }
      }
      DistinctFits(component, queue, whole);
    }
    assert component + [] == component;
    SearchDone(V, E, start, before, visited, component);
  }

  /** An empty queue: what was found is closed, so it is the whole class. */
  lemma SearchDone(V: set<string>, E: set<Pair>, start: string, before: set<string>, visited: set<string>,
        component: seq<string>)
    requires Frontier(component, [], before, visited, Class(V, E, start)) && start in visited - before &&
             Closed(V, E, before)
    requires forall c, w :: c in component && Adjacent(V, E, c, w) ==> w in visited
    ensures NoRepeats(component) && Elements(component) == Class(V, E, start)
  {
    assert component + [] == component;
    var found := Elements(component);
    forall c, w | c in found && Adjacent(V, E, c, w) ensures w in found {
      if w in before { AdjacentSymmetric(V, E, c, w); }
    }
    ClassLeast(V, E, start, found);
  }

  lemma DistinctGrows(xs: seq<string>, x: string)
    requires NoRepeats(xs) && x !in xs
    ensures NoRepeats(xs + [x]) && Elements(xs + [x]) == Elements(xs) + {x}
  {
  }

  lemma DistinctFits(component: seq<string>, queue: seq<string>, whole: set<string>)
    requires NoRepeats(component + queue) && Elements(component + queue) <= whole
    ensures |component| <= |whole|
  {
    var xs := component + queue;
    DistinctCount(xs);
    Subset(Elements(xs), whole);
  }

  lemma {:induction false} DistinctCount(xs: seq<string>)
    requires NoRepeats(xs)
    ensures |Elements(xs)| == |xs|
    decreases |xs|
  {
    if xs != [] {
      DistinctCount(xs[1..]);
      assert xs == [xs[0]] + xs[1..];
      assert Elements(xs) == {xs[0]} + Elements(xs[1..]);
      assert xs[0] !in xs[1..];
    }
  }

  /** One unvisited start: collect its class, sorted, and mark it visited. */
  method AddClass(V: set<string>, ghost E: set<Pair>, adjacency: map<string, set<string>>, start: string,
                  visited: set<string>, components: seq<seq<string>>)
    returns (visited': set<string>, components': seq<seq<string>>)
    requires Neighbours(V, E, adjacency)
    requires visited <= V && Closed(V, E, visited) && IsLeast(start, V - visited) && Progress(V, E, visited, components)
    ensures visited + {start} <= visited' <= V && Closed(V, E, visited') && Progress(V, E, visited', components')
  {
    var component := Explore(V, E, adjacency, start, visited);
    SortOfDistinct(component);
    NextClass(V, E, visited, start, components);
    visited' := visited + Elements(component);
    components' := components + [Sort(component)];
  }

  /** connected_components. Its result is a function of the set of ids and the set of edges. */
  method ConnectedComponents(ids: seq<string>, edges: Edges) returns (components: seq<seq<string>>)
    requires TwoEnded(edges.Keys)
    ensures components == Components(Elements(ids), edges.Keys)
  {
    var V := Elements(ids);
    ghost var E := edges.Keys;
    var adjacency := BuildAdjacency(V, edges);
    var sorted := Sort(ids);
    components := [];
    var visited: set<string> := {};
    assert V - visited == V;
    for i := 0 to |sorted|
      invariant visited <= V && Closed(V, E, visited) && Progress(V, E, visited, components)
      invariant Scanned(sorted, i, visited)
    {
      var start := sorted[i];
      ghost var before := visited;
      if start !in visited {
        NextStartIsLeast(ids, i, visited);
        visited, components := AddClass(V, E, adjacency, start, visited, components);
      }
      ScannedGrows(sorted, i, before, visited);
    }
    ScanCoversAll(ids, visited);
  }

  ghost predicate Scanned(sorted: seq<string>, n: nat, visited: set<string>) {
    n <= |sorted| && forall k :: 0 <= k < n ==> sorted[k] in visited
  }

  lemma ScannedGrows(sorted: seq<string>, i: nat, visited: set<string>, visited': set<string>)
    requires i < |sorted| && Scanned(sorted, i, visited) && visited <= visited' && sorted[i] in visited'
    ensures Scanned(sorted, i + 1, visited')
  {
  }

  ghost predicate Progress(V: set<string>, E: set<Pair>, visited: set<string>, components: seq<seq<string>>) {
    components + Classes(V, E, V - visited) == Components(V, E)
  }

  lemma NextClass(V: set<string>, E: set<Pair>, visited: set<string>, start: string, components: seq<seq<string>>)
    requires visited <= V && Closed(V, E, visited) && IsLeast(start, V - visited) && Progress(V, E, visited, components)
    ensures Progress(V, E, visited + Class(V, E, start), components + [SortedOf(Class(V, E, start))])
    ensures Closed(V, E, visited + Class(V, E, start)) && start in Class(V, E, start)
  {
    var c := Class(V, E, start);
    var later := Classes(V, E, V - (visited + c));
    LeastUnique(start, Least(V - visited), V - visited);
    assert V - visited - c == V - (visited + c);
    ClassClosed(V, E, start);
    ReachesItself(V, E, start);
    assert Classes(V, E, V - visited) == [SortedOf(c)] + later;
    Regroup(components, [SortedOf(c)], later);
  }

  lemma SortKeepsElements(xs: seq<string>)
    ensures forall x :: x in Sort(xs) <==> x in xs
  {
    SortSorts(xs);
    forall x ensures x in Sort(xs) <==> x in xs {
      assert x in Sort(xs) <==> x in multiset(Sort(xs));
      assert x in xs <==> x in multiset(xs);
    }
  }

  /** The first unvisited id of the ascending scan is the least one left. */
  lemma NextStartIsLeast(ids: seq<string>, i: nat, visited: set<string>)
    requires i < |Sort(ids)| && Sort(ids)[i] !in visited
    requires forall k :: 0 <= k < i ==> Sort(ids)[k] in visited
    ensures IsLeast(Sort(ids)[i], Elements(ids) - visited)
  {
    SortKeepsElements(ids);
    SortSorts(ids);
    var sorted := Sort(ids);
    assert sorted[i] in sorted;
    forall y | y in Elements(ids) - visited && y != sorted[i] ensures Less(sorted[i], y) {
      assert y in sorted;
      var k :| 0 <= k < |sorted| && sorted[k] == y;
      LessTotal(sorted[i], y);
    }
  }

  lemma ScanCoversAll(ids: seq<string>, visited: set<string>)
    requires forall k :: 0 <= k < |Sort(ids)| ==> Sort(ids)[k] in visited
    ensures Elements(ids) - visited == {}
  {
    SortKeepsElements(ids);
    forall x | x in Elements(ids) ensures x in visited {
      assert x in Sort(ids);
    }
  }
}
