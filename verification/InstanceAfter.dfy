/**
 What forward leaves in the instance. A step that only copies hands on the instance's own
 dictionary, so that later writes below its canonical path reach the instance too, until a
 write at or above that path puts something else there.
 */
module InstanceAfter {
  import opened Wrappers
  import opened Documents
  import opened Objects
  import opened Transforms
  import opened Interpreter
  import opened RoundTrip
  import opened SharedPaths
  import opened Aliasing

  predicate Copying(chain: seq<Call>) { forall i :: 0 <= i < |chain| ==> chain[i].name == "identity" }

  /** The step hands on the instance's own object. */
  predicate Shares(lib: Library, s: Step, x: Value) {
    && Mapped(s) && s.regionPath.Some? && s.canonicalPath.Some? && Copying(s.chain)
    && RunForward(lib, s.chain, ReadAt(x, s.regionPath)).Ok?
  }

  function Region(s: Step): Path
    requires s.regionPath.Some?
  {
    Parts(s.regionPath.value)
  }

  function Given0(x: Value): Object { Mark(x, 0, Given, []) }

  // ----------------------------------------------------- where a dictionary can stand

  /** Where in the canonical document a dictionary may stand after these steps: the instance's
      own below the path its region was copied to, a new one where it was created. */
  ghost predicate Home(lib: Library, steps: seq<Step>, x: Value, e: Id, p: Path) {
    match e.source
    case Root => e.run == 1 && p == []
    case Created(j) => e.run == 1 && j < |steps| && p == e.path
    case Made(j) => e.run == 1 && j < |steps| && steps[j].canonicalPath.Some? && p == Target(steps[j]) + e.path
    case Given => e.run == 0 && exists j :: HomeOf(lib, steps, x, e.path, p, j)
  }

  ghost predicate HomeOf(lib: Library, steps: seq<Step>, x: Value, q: Path, p: Path, j: int) {
    && 0 <= j < |steps| && Shares(lib, steps[j], x) && Region(steps[j]) <= q
    && p == Target(steps[j]) + q[|Region(steps[j])|..]
  }

  lemma RegionsApart(steps: seq<Step>, i: nat, j: nat)
    requires RegionFree(steps) && i < |steps| && j < |steps| && i != j
    requires Mapped(steps[i]) && Mapped(steps[j]) && steps[i].regionPath.Some? && steps[j].regionPath.Some?
    ensures Incomparable(Region(steps[i]), Region(steps[j]))
  {
    assert Separate(steps[if i < j then i else j].regionPath, steps[if i < j then j else i].regionPath);
  }

  /** Two regions above one path are the same region. */
  lemma OneRegionAbove(steps: seq<Step>, i: nat, j: nat, q: Path)
    requires RegionFree(steps) && i < |steps| && j < |steps|
    requires Mapped(steps[i]) && Mapped(steps[j]) && steps[i].regionPath.Some? && steps[j].regionPath.Some?
    requires Region(steps[i]) <= q && Region(steps[j]) <= q
    ensures i == j
  {
    if i != j { RegionsApart(steps, i, j); }
  }

  lemma HomeUnique(lib: Library, steps: seq<Step>, x: Value, e: Id, p: Path, q: Path)
    requires RegionFree(steps) && Home(lib, steps, x, e, p) && Home(lib, steps, x, e, q)
    ensures p == q
  {
    if e.source.Given? {
      var i :| HomeOf(lib, steps, x, e.path, p, i);
      var j :| HomeOf(lib, steps, x, e.path, q, j);
      OneRegionAbove(steps, i, j, e.path);
    }
  }

  lemma HomeMore(lib: Library, steps: seq<Step>, x: Value, e: Id, p: Path)
    requires steps != [] && Home(lib, steps[..|steps| - 1], x, e, p)
    ensures Home(lib, steps, x, e, p)
  {
    var front := steps[..|steps| - 1];
    if e.source.Given? {
      var j :| HomeOf(lib, front, x, e.path, p, j);
      assert HomeOf(lib, steps, x, e.path, p, j);
    }
  }

  // ------------------------------------------------------------- invariants of the run

  /** Every dictionary of the canonical document is at home. */
  ghost predicate Placed(lib: Library, steps: seq<Step>, x: Value, o: Object) {
    forall p, e :: Stands(o, p, e) ==> Home(lib, steps, x, e, p)
  }

  /** The path meets no region these steps read. */
  ghost predicate Clean(steps: seq<Step>, r: Path) {
    forall j :: 0 <= j < |steps| && Mapped(steps[j]) && steps[j].regionPath.Some? ==> Incomparable(Region(steps[j]), r)
  }

  /** No region these steps read lies strictly above the path. */
  ghost predicate Reachable(steps: seq<Step>, r: Path) {
    forall j :: 0 <= j < |steps| && Mapped(steps[j]) && steps[j].regionPath.Some? ==> !(Region(steps[j]) < r)
  }

  ghost predicate Spared(steps: seq<Step>, x: Value, o: Object) {
    forall r :: Clean(steps, r) ==> At(o, r) == At(Given0(x), r)
  }

  ghost predicate Walked(steps: seq<Step>, o: Object) {
    forall r, n, e :: Reachable(steps, r) && 0 <= n < |r| && Stands(o, r[..n], e) ==> e == Id(0, Given, r[..n])
  }

  ghost predicate Situated(lib: Library, steps: seq<Step>, x: Value, world: World) {
    && Placed(lib, steps, x, world.canonical) && Spared(steps, x, world.instance) && Walked(steps, world.instance)
    && world.back == Leaf(Null)
  }

  lemma GivenStands(x: Value, p: Path, e: Id)
    requires Stands(Given0(x), p, e)
    ensures e == Id(0, Given, p)
  {
    MarkStands(x, 0, Given, [], p, e);
    assert [] + p == p;
  }

  lemma StartSituated(lib: Library, x: Value)
    ensures Situated(lib, [], x, Departing(Given0(x)))
  {
    var o := NewDocument(There);
    forall p, e | Stands(o, p, e) ensures Home(lib, [], x, e, p) { assert At(o, p).Some? ==> p == []; }
    forall r: Path, n, e | 0 <= n < |r| && Stands(Given0(x), r[..n], e) ensures e == Id(0, Given, r[..n]) {
      GivenStands(x, r[..n], e);
    }
  }

  /** Dictionaries of the instance at a path it was read at keep their identity. */
  lemma SubStands(x: Value, r: Path, q: Path, e: Id)
    requires At(Given0(x), r).Some? && Stands(At(Given0(x), r).value, q, e)
    ensures e == Id(0, Given, r + q)
  {
    AtBelow(Given0(x), r, q);
    GivenStands(x, r + q, e);
  }

  lemma {:induction false} HandOnMade(lib: Library, chain: seq<Call>, o: Object, step: nat, p: Path, e: Id)
    requires RunForward(lib, chain, Erase(o)).Ok? && !Copying(chain) && Stands(HandOn(lib, chain, o, step), p, e)
    ensures e == Id(1, Made(step), p)
    decreases |chain|
  {
    var v := Forward(lib, chain[0], Erase(o)).value;
    EraseMark(v, 1, Made(step), []);
    if chain[0].name == "identity" {
      HandOnMade(lib, chain[1..], o, step, p, e);
    } else {
      HandOnStands(lib, chain[1..], Mark(v, 1, Made(step), []), step, p, e);
      if Stands(Mark(v, 1, Made(step), []), p, e) { MarkStands(v, 1, Made(step), [], p, e); }
    }
  }

  lemma {:induction false} CopyIsSame(lib: Library, chain: seq<Call>, o: Object, step: nat)
    requires RunForward(lib, chain, Erase(o)).Ok? && Copying(chain)
    ensures HandOn(lib, chain, o, step) == o && RunForward(lib, chain, Erase(o)) == Ok(Erase(o))
    decreases |chain|
  {
    if chain != [] {
      assert Forward(lib, chain[0], Erase(o)) == Ok(Erase(o));
      CopyIsSame(lib, chain[1..], o, step);
    }
  }

  // -------------------------------------------------------------- one step further

  /** All steps but the last have brought the run here, and the last one is a mapped one. */
  ghost predicate Stage(lib: Library, steps: seq<Step>, x: Value, world: World) {
    && steps != [] && RegionFree(steps) && Mapped(steps[|steps| - 1])
    && Situated(lib, steps[..|steps| - 1], x, world)
  }

  lemma CleanForLast(steps: seq<Step>)
    requires steps != [] && RegionFree(steps) && Mapped(steps[|steps| - 1]) && steps[|steps| - 1].regionPath.Some?
    ensures Clean(steps[..|steps| - 1], Region(steps[|steps| - 1]))
  {
    var n := |steps| - 1;
    forall j | 0 <= j < n && Mapped(steps[j]) && steps[j].regionPath.Some?
      ensures Incomparable(Region(steps[j]), Region(steps[n]))
    {
      RegionsApart(steps, j, n);
    }
  }

  /** The last step still reads what the instance held at first. */
  lemma ReadsOriginal(lib: Library, steps: seq<Step>, x: Value, world: World)
    requires Stage(lib, steps, x, world)
    ensures var path := steps[|steps| - 1].regionPath;
            && ReadObject(world.instance, path) == ReadObject(Given0(x), path)
            && Erase(ReadObject(world.instance, path)) == ReadAt(x, path)
  {
    var path := steps[|steps| - 1].regionPath;
    if path.Some? {
      CleanForLast(steps);
      assert At(world.instance, Parts(path.value)) == At(Given0(x), Parts(path.value));
    }
    ReadErases(Given0(x), path);
    EraseMark(x, 0, Given, []);
  }

  ghost predicate Homeless(lib: Library, steps: seq<Step>, x: Value, e: Id) { forall q :: !Home(lib, steps, x, e, q) }

  /** The objects w consists of are new to the canonical document, and at home at the target. */
  ghost predicate Fresh(lib: Library, steps: seq<Step>, x: Value, w: Object) {
    && steps != []
    && forall p, e :: Stands(w, p, e) ==>
         && Homeless(lib, steps[..|steps| - 1], x, e)
         && (steps[|steps| - 1].canonicalPath.Some? ==> Home(lib, steps, x, e, Target(steps[|steps| - 1]) + p))
  }

  lemma OwnIsFresh(lib: Library, steps: seq<Step>, x: Value, p: Path)
    requires steps != [] && RegionFree(steps) && Mapped(steps[|steps| - 1]) && steps[|steps| - 1].regionPath.Some?
    ensures var n, e := |steps| - 1, Id(0, Given, Region(steps[|steps| - 1]) + p);
            && Homeless(lib, steps[..n], x, e)
            && (Shares(lib, steps[n], x) ==> Home(lib, steps, x, e, Target(steps[n]) + p))
  {
    var n := |steps| - 1;
    var path := Region(steps[n]) + p;
    var e := Id(0, Given, path);
    forall q, j | HomeOf(lib, steps[..n], x, path, q, j) ensures false { OneRegionAbove(steps, j, n, path); }
    if Shares(lib, steps[n], x) {
      assert path[|Region(steps[n])|..] == p;
      assert HomeOf(lib, steps, x, path, Target(steps[n]) + p, n);
    }
  }

  lemma CarriedIsFresh(lib: Library, steps: seq<Step>, x: Value, world: World)
    requires Stage(lib, steps, x, world)
    ensures Fresh(lib, steps, x, Carried(There, lib, steps[|steps| - 1], world, |steps| - 1))
  {
    var n := |steps| - 1;
    var s, o := steps[n], ReadObject(world.instance, steps[n].regionPath);
    var w := Carried(There, lib, s, world, n);
    ReadsOriginal(lib, steps, x, world);
    forall p, e | Stands(w, p, e)
      ensures Homeless(lib, steps[..n], x, e)
      ensures s.canonicalPath.Some? ==> Home(lib, steps, x, e, Target(s) + p)
    {
      if Copying(s.chain) {
        CopyIsSame(lib, s.chain, o, n);
        SubStands(x, Region(s), p, e);
        OwnIsFresh(lib, steps, x, p);
      } else {
        HandOnMade(lib, s.chain, o, n, p, e);
      }
    }
  }

  lemma SpotAtHome(lib: Library, steps: seq<Step>, x: Value, o: Object, t: Path)
    requires RegionFree(steps) && Placed(lib, steps, x, o) && |t| >= 1 && Deepest(o, t).Some?
    ensures var spot := Deepest(o, t).value;
            && Alone(o, t) && Home(lib, steps, x, spot.id, t[..spot.depth]) && !NewAt(spot.id, There, |steps|)
  {
    var spot := Deepest(o, t).value;
    DeepestStands(o, t);
    forall p | Stands(o, p, spot.id)
      ensures p == t[..spot.depth]
    {
      HomeUnique(lib, steps, x, spot.id, p, t[..spot.depth]);
    }
  }

  lemma FrontFree(steps: seq<Step>)
    requires steps != [] && RegionFree(steps)
    ensures RegionFree(steps[..|steps| - 1])
  {
  }

  lemma FreshIsLonely(lib: Library, steps: seq<Step>, x: Value, world: World, w: Object)
    requires Stage(lib, steps, x, world) && Fresh(lib, steps, x, w)
    ensures LonelyTarget(world, There, steps[|steps| - 1].canonicalPath, w, |steps| - 1)
  {
    var n := |steps| - 1;
    var target := steps[n].canonicalPath;
    if target.Some? && Deepest(world.canonical, Parts(target.value)).Some? {
      FrontFree(steps);
      SpotAtHome(lib, steps[..n], x, world.canonical, Parts(target.value));
    }
  }

  /** The instance is not walked through a dictionary of the canonical document. */
  lemma NotOnTheWay(lib: Library, steps: seq<Step>, x: Value, o: Object, id: Id, s: Path, key: string, r: Path)
    requires Walked(steps, o) && Reachable(steps, r) && Home(lib, steps, x, id, s)
    ensures Beside(o, id, key, r)
  {
    forall j | HomeOf(lib, steps, x, id.path, s, j) ensures !(id.path < r) { assert !(Region(steps[j]) < r); }
    forall n | 0 <= n < |r| ensures !Stands(o, r[..n], id) { assert r[..n] < r; }
  }

  lemma AssignKeepsIds(o: Object, id: Id, key: string, w: Object, q: Path, e: Id)
    requires Beside(o, id, key, q)
    ensures Stands(Assign(o, id, key, w), q, e) <==> Stands(o, q, e)
  {
    AssignBeside(o, id, key, w, q);
  }

  /** A subtree of the instance as it was holds none of the canonical document's dictionaries,
      unless a step that shares its region has put them there. */
  lemma SubAbsent(lib: Library, steps: seq<Step>, x: Value, r: Path, id: Id, s: Path)
    requires Home(lib, steps, x, id, s) && At(Given0(x), r).Some?
    requires forall j :: 0 <= j < |steps| && Shares(lib, steps[j], x) ==> Incomparable(Region(steps[j]), r)
    ensures Absent(At(Given0(x), r).value, id)
  {
    forall q ensures !Stands(At(Given0(x), r).value, q, id) {
      forall j | HomeOf(lib, steps, x, id.path, s, j) ensures id.path != r + q {
        assert Incomparable(Region(steps[j]), r);
      }
      if Stands(At(Given0(x), r).value, q, id) { SubStands(x, r, q, id); }
    }
  }

  lemma SituatedMore(lib: Library, steps: seq<Step>, x: Value, world: World)
    requires steps != [] && Situated(lib, steps[..|steps| - 1], x, world)
    ensures Situated(lib, steps, x, world)
  {
    var front := steps[..|steps| - 1];
    forall p, e | Stands(world.canonical, p, e) ensures Home(lib, steps, x, e, p) { HomeMore(lib, steps, x, e, p); }
    forall r | Clean(steps, r) ensures Clean(front, r) {}
    forall r | Reachable(steps, r) ensures Reachable(front, r) {}
  }

  /** The write of one step: the dictionary it changes, and what goes into it. */
  ghost predicate Writing(lib: Library, steps: seq<Step>, x: Value, world: World, w: Object, spot: Spot) {
    && Stage(lib, steps, x, world) && Fresh(lib, steps, x, w) && steps[|steps| - 1].canonicalPath.Some?
    && Deepest(world.canonical, Target(steps[|steps| - 1])) == Some(spot)
  }

  function PutOf(steps: seq<Step>, w: Object, spot: Spot): Object
    requires steps != [] && steps[|steps| - 1].canonicalPath.Some? && spot.depth < |Target(steps[|steps| - 1])|
  {
    var t := Target(steps[|steps| - 1]);
    Nest(t[spot.depth + 1..], w, 1, |steps| - 1, t[..spot.depth + 1])
  }

  function KeyOf(steps: seq<Step>, spot: Spot): string
    requires steps != [] && steps[|steps| - 1].canonicalPath.Some? && spot.depth < |Target(steps[|steps| - 1])|
  {
    Target(steps[|steps| - 1])[spot.depth]
  }

  lemma WriteFacts(lib: Library, steps: seq<Step>, x: Value, world: World, w: Object, spot: Spot)
    requires Writing(lib, steps, x, world, w, spot)
    ensures var n, t := |steps| - 1, Target(steps[|steps| - 1]);
            && Alone(world.canonical, t) && Home(lib, steps[..n], x, spot.id, t[..spot.depth])
  {
    FrontFree(steps);
    SpotAtHome(lib, steps[..|steps| - 1], x, world.canonical, Target(steps[|steps| - 1]));
  }

  lemma HomeAfterWrite(lib: Library, steps: seq<Step>, x: Value, o: Object, w: Object, p: Path, e: Id)
    requires steps != [] && steps[|steps| - 1].canonicalPath.Some?
    requires Placed(lib, steps[..|steps| - 1], x, o) && Fresh(lib, steps, x, w)
    requires var t := Target(steps[|steps| - 1]);
             || Stands(o, p, e)
             || (t <= p && Stands(w, p[|t|..], e))
             || (p < t && e == Id(1, Created(|steps| - 1), p))
    ensures Home(lib, steps, x, e, p)
  {
    var t := Target(steps[|steps| - 1]);
    if Stands(o, p, e) {
      HomeMore(lib, steps, x, e, p);
    } else if t <= p {
      assert t + p[|t|..] == p;
    }
  }

  lemma WritePlaced(lib: Library, steps: seq<Step>, x: Value, world: World, w: Object, spot: Spot)
    requires Writing(lib, steps, x, world, w, spot)
    ensures Placed(lib, steps, x, Assign(world.canonical, spot.id, KeyOf(steps, spot), PutOf(steps, w, spot)))
  {
    var o' := Assign(world.canonical, spot.id, KeyOf(steps, spot), PutOf(steps, w, spot));
    WriteFacts(lib, steps, x, world, w, spot);
    forall p, e | Stands(o', p, e) ensures Home(lib, steps, x, e, p) {
      PutStands(world.canonical, Target(steps[|steps| - 1]), w, 1, |steps| - 1, p, e);
      HomeAfterWrite(lib, steps, x, world.canonical, w, p, e);
    }
  }

  lemma WriteSparesAt(lib: Library, steps: seq<Step>, x: Value, world: World, w: Object, spot: Spot, r: Path)
    requires Writing(lib, steps, x, world, w, spot) && Clean(steps[..|steps| - 1], r)
    ensures At(Assign(world.instance, spot.id, KeyOf(steps, spot), PutOf(steps, w, spot)), r) == At(Given0(x), r)
  {
    var n, s := |steps| - 1, Target(steps[|steps| - 1])[..spot.depth];
    var front, key, put := steps[..n], KeyOf(steps, spot), PutOf(steps, w, spot);
    WriteFacts(lib, steps, x, world, w, spot);
    assert Reachable(front, r);
    NotOnTheWay(lib, front, x, world.instance, spot.id, s, key, r);
    AssignBeside(world.instance, spot.id, key, put, r);
    if At(Given0(x), r).Some? {
      SubAbsent(lib, front, x, r, spot.id, s);
      AssignAbsent(At(Given0(x), r).value, spot.id, key, put);
    }
  }

  lemma WriteSpared(lib: Library, steps: seq<Step>, x: Value, world: World, w: Object, spot: Spot)
    requires Writing(lib, steps, x, world, w, spot)
    ensures Spared(steps, x, Assign(world.instance, spot.id, KeyOf(steps, spot), PutOf(steps, w, spot)))
  {
    forall r | Clean(steps, r)
      ensures At(Assign(world.instance, spot.id, KeyOf(steps, spot), PutOf(steps, w, spot)), r) == At(Given0(x), r)
    {
      assert Clean(steps[..|steps| - 1], r);
      WriteSparesAt(lib, steps, x, world, w, spot, r);
    }
  }

  lemma WriteWalked(lib: Library, steps: seq<Step>, x: Value, world: World, w: Object, spot: Spot)
    requires Writing(lib, steps, x, world, w, spot)
    ensures Walked(steps, Assign(world.instance, spot.id, KeyOf(steps, spot), PutOf(steps, w, spot)))
  {
    var n, s := |steps| - 1, Target(steps[|steps| - 1])[..spot.depth];
    var front, key, put := steps[..n], KeyOf(steps, spot), PutOf(steps, w, spot);
    WriteFacts(lib, steps, x, world, w, spot);
    forall r: Path, m, e | Reachable(steps, r) && 0 <= m < |r| &&
        Stands(Assign(world.instance, spot.id, key, put), r[..m], e)
      ensures e == Id(0, Given, r[..m])
    {
      assert Reachable(front, r);
      forall j | 0 <= j < |front| && Mapped(front[j]) && front[j].regionPath.Some?
        ensures !(Region(front[j]) < r[..m])
      {
        assert !(Region(front[j]) < r);
      }
      NotOnTheWay(lib, front, x, world.instance, spot.id, s, key, r[..m]);
      AssignKeepsIds(world.instance, spot.id, key, put, r[..m], e);
    }
  }

  lemma StoreSituated(lib: Library, steps: seq<Step>, x: Value, world: World, w: Object)
    requires Stage(lib, steps, x, world) && Fresh(lib, steps, x, w)
    ensures Situated(lib, steps, x, Store(world, There, steps[|steps| - 1].canonicalPath, w, |steps| - 1).world)
  {
    var n := |steps| - 1;
    var world' := Store(world, There, steps[n].canonicalPath, w, n).world;
    if world' == world {
      SituatedMore(lib, steps, x, world);
    } else {
      var spot := Deepest(world.canonical, Target(steps[n])).value;
      WritePlaced(lib, steps, x, world, w, spot);
      WriteSpared(lib, steps, x, world, w, spot);
      WriteWalked(lib, steps, x, world, w, spot);
    }
  }

  lemma NullIsFresh(lib: Library, steps: seq<Step>, x: Value)
    requires steps != []
    ensures Fresh(lib, steps, x, Leaf(Null))
  {
    forall p, e ensures !Stands(Leaf(Null), p, e) { assert At(Leaf(Null), p).Some? ==> p == []; }
  }

  lemma MoveSituated(lib: Library, steps: seq<Step>, x: Value, world: World)
    requires Stage(lib, steps, x, world)
    ensures Situated(lib, steps, x, Move(There, lib, steps[|steps| - 1], world, |steps| - 1).world)
  {
    var n := |steps| - 1;
    CarriedIsFresh(lib, steps, x, world);
    NullIsFresh(lib, steps, x);
    MoveStores(There, lib, steps[n], world, n);
    StoreSituated(lib, steps, x, world, Carried(There, lib, steps[n], world, n));
    StoreSituated(lib, steps, x, world, Leaf(Null));
    SituatedMore(lib, steps, x, world);
  }

  /** What a forward run over separate regions keeps: it is the run over values, and every
      dictionary is at home. */
  ghost predicate ForwardAgrees(lib: Library, steps: seq<Step>, x: Value, t: Travel, r: Run) {
    && Agrees(t.halt, r.ending) && t.escalated == r.escalated && Situated(lib, steps, x, t.world)
    && (r.ending.Done? ==> r.ending.out == Erase(t.world.canonical))
  }

  lemma MoveAgrees(lib: Library, steps: seq<Step>, x: Value, world: World)
    requires Stage(lib, steps, x, world)
    ensures var s := steps[|steps| - 1];
            var leg := Move(There, lib, s, world, |steps| - 1);
            var e := Perform(ForwardAction(lib, x, s), Erase(world.canonical));
            && Agrees(leg.halt, e.ending) && leg.escalates == e.escalates
            && (e.ending.Done? ==> e.ending.out == Erase(leg.world.canonical))
  {
    var n := |steps| - 1;
    CarriedIsFresh(lib, steps, x, world);
    FreshIsLonely(lib, steps, x, world, Carried(There, lib, steps[n], world, n));
    MoveErases(There, lib, steps[n], world, n);
    ReadsOriginal(lib, steps, x, world);
    ReadErases(world.instance, steps[n].regionPath);
  }

  lemma ForwardTurn(lib: Library, steps: seq<Step>, x: Value, t: Travel, r: Run)
    requires steps != [] && RegionFree(steps) && ForwardAgrees(lib, steps[..|steps| - 1], x, t, r)
    ensures var last := steps[|steps| - 1];
            ForwardAgrees(lib, steps, x, Further(There, lib, t, last, |steps| - 1),
                          if !r.ending.Done? || !Mapped(last) then r
                          else
                            var e := Perform(ForwardAction(lib, x, last), r.ending.out);
                            Run(e.ending, r.escalated + if e.escalates then [last] else []))
  {
    SituatedMore(lib, steps, x, t.world);
    if r.ending.Done? && Mapped(steps[|steps| - 1]) {
      MoveAgrees(lib, steps, x, t.world);
      MoveSituated(lib, steps, x, t.world);
    }
  }

  function Departure(x: Value): World { Departing(Given0(x)) }

  /** Where no region path is at, above or below another, forward over the program's objects is
      forward over values, whatever the canonical paths. */
  lemma {:induction false} ForwardIsValues(lib: Library, steps: seq<Step>, x: Value)
    requires RegionFree(steps)
    ensures ForwardAgrees(lib, steps, x, Go(There, lib, steps, Departure(x)), ForwardRun(lib, steps, x))
    decreases |steps|
  {
    if steps == [] {
      StartSituated(lib, x);
      EmptyDocument(There);
    } else {
      var front := steps[..|steps| - 1];
      FrontFree(steps);
      ForwardIsValues(lib, front, x);
      ForwardTurn(lib, steps, x, Go(There, lib, front, Departure(x)), ForwardRun(lib, front, x));
      RunLast(There, lib, x, steps);
    }
  }

  // ------------------------------------------------------- what becomes of one region

  /** A later step writes at or above step i's canonical path. */
  predicate Overwrites(lib: Library, steps: seq<Step>, x: Value, i: nat, m: int) {
    && i < m < |steps| && Mapped(steps[m]) && steps[m].canonicalPath.Some?
    && Writes(ForwardAction(lib, x, steps[m])).Some?
    && steps[i].canonicalPath.Some? && Target(steps[m]) <= Target(steps[i])
  }

  predicate Overwritten(lib: Library, steps: seq<Step>, x: Value, i: nat) {
    exists m :: i < m < |steps| && Overwrites(lib, steps, x, i, m)
  }

  /** What step i's region of the instance holds after forward: what it held at first, unless the
      step shares it; then what its canonical path holds until a later step covers that. */
  function Kept(lib: Library, steps: seq<Step>, x: Value, i: nat): Value
    requires i < |steps|
  {
    if !Shares(lib, steps[i], x) then ReadAt(x, steps[i].regionPath)
    else if Overwritten(lib, steps, x, i) then Kept(lib, steps[..|steps| - 1], x, i)
    else Held(lib, steps, x, Target(steps[i])).GetOr(Null)
  }

  /** A dictionary of d stands no longer where it stood in the canonical document. */
  ghost predicate Detached(lib: Library, steps: seq<Step>, x: Value, o: Object, q: Path, d: Object) {
    forall r, e :: Stands(d, r, e) ==> Home(lib, steps, x, e, q + r) && !Stands(o, q + r, e)
  }

  ghost predicate Tracked(lib: Library, steps: seq<Step>, x: Value, i: nat, world: World)
    requires i < |steps|
  {
    var d := ReadObject(world.instance, steps[i].regionPath);
    if !Shares(lib, steps[i], x) then d == ReadObject(Given0(x), steps[i].regionPath)
    else if !Overwritten(lib, steps, x, i) then At(world.canonical, Target(steps[i])) == Some(d)
    else Erase(d) == Kept(lib, steps, x, i) && Detached(lib, steps, x, world.canonical, Target(steps[i]), d)
  }

  /** The write of a completed step. */
  lemma MoveWrites(lib: Library, steps: seq<Step>, x: Value, world: World) returns (w: Object)
    requires Stage(lib, steps, x, world) && steps[|steps| - 1].canonicalPath.Some?
    requires Writes(ForwardAction(lib, x, steps[|steps| - 1])).Some?
    requires Move(There, lib, steps[|steps| - 1], world, |steps| - 1).halt == Completed
    ensures Deepest(world.canonical, Target(steps[|steps| - 1])).Some?
    ensures var spot := Deepest(world.canonical, Target(steps[|steps| - 1])).value;
            && Writing(lib, steps, x, world, w, spot)
            && Move(There, lib, steps[|steps| - 1], world, |steps| - 1).world
               == AssignAll(world, spot.id, KeyOf(steps, spot), PutOf(steps, w, spot))
    ensures ForwardAction(lib, x, steps[|steps| - 1]).outcome.Ok? ==>
              w == Carried(There, lib, steps[|steps| - 1], world, |steps| - 1)
  {
    var n := |steps| - 1;
    ReadsOriginal(lib, steps, x, world);
    CarriedIsFresh(lib, steps, x, world);
    NullIsFresh(lib, steps, x);
    w := if ForwardAction(lib, x, steps[n]).outcome.Ok? then Carried(There, lib, steps[n], world, n) else Leaf(Null);
  }

  lemma MoveIdles(lib: Library, steps: seq<Step>, x: Value, world: World)
    requires Stage(lib, steps, x, world)
    requires steps[|steps| - 1].canonicalPath.None? || Writes(ForwardAction(lib, x, steps[|steps| - 1])).None?
    ensures Move(There, lib, steps[|steps| - 1], world, |steps| - 1).world == world
  {
    ReadsOriginal(lib, steps, x, world);
  }

  lemma ReadAssigned(lib: Library, steps: seq<Step>, x: Value, o: Object, id: Id, s: Path, key: string, w: Object,
        read: Step)
    requires read.regionPath.Some? && Walked(steps, o) && Reachable(steps, Region(read)) && Home(lib, steps, x, id, s)
    ensures ReadObject(Assign(o, id, key, w), read.regionPath) == Assign(ReadObject(o, read.regionPath), id, key, w)
  {
    NotOnTheWay(lib, steps, x, o, id, s, key, Region(read));
    AssignBeside(o, id, key, w, Region(read));
  }

  lemma ReachableRegion(steps: seq<Step>, i: nat)
    requires i < |steps| - 1 && RegionFree(steps) && Mapped(steps[i]) && steps[i].regionPath.Some?
    ensures Reachable(steps[..|steps| - 1], Region(steps[i]))
  {
    var front := steps[..|steps| - 1];
    forall j | 0 <= j < |front| && Mapped(front[j]) && front[j].regionPath.Some?
      ensures !(Region(front[j]) < Region(steps[i]))
    {
      if j != i { RegionsApart(steps, j, i); }
    }
  }

  /** The write of a later step reaches step i's region exactly through its dictionary. */
  lemma RegionAssigned(lib: Library, steps: seq<Step>, x: Value, i: nat, o: Object, id: Id, s: Path, key: string,
        w: Object)
    requires RegionFree(steps) && i < |steps| - 1 && Mapped(steps[i]) && steps[i].regionPath.Some?
    requires Walked(steps[..|steps| - 1], o) && Home(lib, steps[..|steps| - 1], x, id, s)
    ensures ReadObject(Assign(o, id, key, w), steps[i].regionPath)
            == Assign(ReadObject(o, steps[i].regionPath), id, key, w)
  {
    ReachableRegion(steps, i);
    ReadAssigned(lib, steps[..|steps| - 1], x, o, id, s, key, w, steps[i]);
  }

  /** Not shared: nothing the run writes to is there. */
  lemma UnsharedKept(lib: Library, steps: seq<Step>, x: Value, i: nat, world: World, w: Object, spot: Spot)
    requires Writing(lib, steps, x, world, w, spot) && i < |steps| - 1 && Mapped(steps[i]) && steps[i].regionPath.Some?
    requires !Shares(lib, steps[i], x) &&
             ReadObject(world.instance, steps[i].regionPath) == ReadObject(Given0(x), steps[i].regionPath)
    ensures var o := Assign(world.instance, spot.id, KeyOf(steps, spot), PutOf(steps, w, spot));
            ReadObject(o, steps[i].regionPath) == ReadObject(Given0(x), steps[i].regionPath)
  {
    var n, s, d := |steps| - 1, Target(steps[|steps| - 1])[..spot.depth], At(Given0(x), Region(steps[i]));
    WriteFacts(lib, steps, x, world, w, spot);
    RegionAssigned(lib, steps, x, i, world.instance, spot.id, s, KeyOf(steps, spot), PutOf(steps, w, spot));
    if d.Some? {
      UnsharedApart(lib, steps, x, i);
      SubAbsent(lib, steps[..n], x, Region(steps[i]), spot.id, s);
      AssignAbsent(d.value, spot.id, KeyOf(steps, spot), PutOf(steps, w, spot));
    }
  }

  lemma UnsharedApart(lib: Library, steps: seq<Step>, x: Value, i: nat)
    requires RegionFree(steps) && i < |steps| - 1 && Mapped(steps[i]) && steps[i].regionPath.Some? &&
             !Shares(lib, steps[i], x)
    ensures var front := steps[..|steps| - 1];
            forall j :: 0 <= j < |front| && Shares(lib, front[j], x) ==>
                Incomparable(Region(front[j]), Region(steps[i]))
  {
    var front := steps[..|steps| - 1];
    forall j | 0 <= j < |front| && Shares(lib, front[j], x) ensures Incomparable(Region(front[j]), Region(steps[i])) {
      RegionsApart(steps, j, i);
    }
  }

  /** A dictionary at home before the write, and gone or overwritten there, is not put back. */
  lemma NotBack(lib: Library, steps: seq<Step>, x: Value, world: World, w: Object, spot: Spot, p: Path, e: Id)
    requires Writing(lib, steps, x, world, w, spot) && Home(lib, steps[..|steps| - 1], x, e, p)
    requires !Stands(world.canonical, p, e) || Target(steps[|steps| - 1]) <= p
    ensures !Stands(Assign(world.canonical, spot.id, KeyOf(steps, spot), PutOf(steps, w, spot)), p, e)
  {
    WriteFacts(lib, steps, x, world, w, spot);
    if Stands(Assign(world.canonical, spot.id, KeyOf(steps, spot), PutOf(steps, w, spot)), p, e) {
      PutStands(world.canonical, Target(steps[|steps| - 1]), w, 1, |steps| - 1, p, e);
    }
  }

  lemma StaysDetached(lib: Library, steps: seq<Step>, x: Value, world: World, w: Object, spot: Spot, q: Path, d: Object)
    requires Writing(lib, steps, x, world, w, spot)
    requires forall r, e :: Stands(d, r, e) ==>
               && Home(lib, steps[..|steps| - 1], x, e, q + r)
               && (!Stands(world.canonical, q + r, e) || Target(steps[|steps| - 1]) <= q + r)
    ensures Detached(lib, steps, x, Assign(world.canonical, spot.id, KeyOf(steps, spot), PutOf(steps, w, spot)), q, d)
  {
    var o' := Assign(world.canonical, spot.id, KeyOf(steps, spot), PutOf(steps, w, spot));
    forall r, e | Stands(d, r, e) ensures Home(lib, steps, x, e, q + r) && !Stands(o', q + r, e) {
      HomeMore(lib, steps, x, e, q + r);
      NotBack(lib, steps, x, world, w, spot, q + r, e);
    }
  }

  /** Detached: nothing the run still writes to is in there, nor will be. */
  lemma DetachedKept(lib: Library, steps: seq<Step>, x: Value, world: World, w: Object, spot: Spot, q: Path, d: Object)
    requires Writing(lib, steps, x, world, w, spot) && Detached(lib, steps[..|steps| - 1], x, world.canonical, q, d)
    ensures Assign(d, spot.id, KeyOf(steps, spot), PutOf(steps, w, spot)) == d
    ensures Detached(lib, steps, x, Assign(world.canonical, spot.id, KeyOf(steps, spot), PutOf(steps, w, spot)), q, d)
  {
    DetachedAbsent(lib, steps, x, world, w, spot, q, d);
    AssignAbsent(d, spot.id, KeyOf(steps, spot), PutOf(steps, w, spot));
    StaysDetached(lib, steps, x, world, w, spot, q, d);
  }

  lemma DetachedAbsent(lib: Library, steps: seq<Step>, x: Value, world: World, w: Object, spot: Spot, q: Path,
        d: Object)
    requires Writing(lib, steps, x, world, w, spot) && Detached(lib, steps[..|steps| - 1], x, world.canonical, q, d)
    ensures Absent(d, spot.id)
  {
    var front, s := steps[..|steps| - 1], Target(steps[|steps| - 1])[..spot.depth];
    WriteFacts(lib, steps, x, world, w, spot);
    DeepestStands(world.canonical, Target(steps[|steps| - 1]));
    FrontFree(steps);
    forall r ensures !Stands(d, r, spot.id) {
      if Stands(d, r, spot.id) { HomeUnique(lib, front, x, spot.id, q + r, s); }
    }
  }

  lemma OverwrittenAbsent(o: Object, id: Id, s: Path, q: Path, d: Object)
    requires OnlyAt(o, id, s) && At(o, q) == Some(d) && |s| < |q|
    ensures Absent(d, id)
  {
    forall r ensures !Stands(d, r, id) {
      AtBelow(o, q, r);
      assert Stands(d, r, id) ==> Stands(o, q + r, id);
    }
  }

  lemma HomesBelow(lib: Library, steps: seq<Step>, x: Value, o: Object, q: Path, d: Object)
    requires Placed(lib, steps, x, o) && At(o, q) == Some(d)
    ensures forall r, e :: Stands(d, r, e) ==> Home(lib, steps, x, e, q + r)
  {
    forall r, e | Stands(d, r, e) ensures Home(lib, steps, x, e, q + r) {
      AtBelow(o, q, r);
      assert Stands(o, q + r, e);
    }
  }

  /** Covered by this very write: it is detached as it is. */
  lemma DetachedNow(lib: Library, steps: seq<Step>, x: Value, world: World, w: Object, spot: Spot, q: Path, d: Object)
    requires Writing(lib, steps, x, world, w, spot) && At(world.canonical, q) == Some(d) &&
             Target(steps[|steps| - 1]) <= q
    ensures Assign(d, spot.id, KeyOf(steps, spot), PutOf(steps, w, spot)) == d
    ensures Detached(lib, steps, x, Assign(world.canonical, spot.id, KeyOf(steps, spot), PutOf(steps, w, spot)), q, d)
  {
    var t := Target(steps[|steps| - 1]);
    WriteFacts(lib, steps, x, world, w, spot);
    OverwrittenAbsent(world.canonical, spot.id, t[..spot.depth], q, d);
    AssignAbsent(d, spot.id, KeyOf(steps, spot), PutOf(steps, w, spot));
    HomesBelow(lib, steps[..|steps| - 1], x, world.canonical, q, d);
    assert forall r :: t <= q + r;
    StaysDetached(lib, steps, x, world, w, spot, q, d);
  }

  /** Not covered: what stands at q stays the same object as what the instance shares. */
  lemma AttachedKept(lib: Library, steps: seq<Step>, x: Value, world: World, w: Object, spot: Spot, q: Path, d: Object)
    requires Writing(lib, steps, x, world, w, spot) && At(world.canonical, q) == Some(d) &&
             !(Target(steps[|steps| - 1]) <= q)
    ensures var key, put := KeyOf(steps, spot), PutOf(steps, w, spot);
            At(Assign(world.canonical, spot.id, key, put), q) == Some(Assign(d, spot.id, key, put))
  {
    WriteFacts(lib, steps, x, world, w, spot);
    AssignOff(world.canonical, Target(steps[|steps| - 1]), PutOf(steps, w, spot), q);
  }

  // ------------------------------------------------------------- over the whole run

  lemma OverwrittenMore(lib: Library, steps: seq<Step>, x: Value, i: nat)
    requires steps != [] && i < |steps| - 1
    ensures Overwritten(lib, steps, x, i) <==>
            Overwritten(lib, steps[..|steps| - 1], x, i) || Overwrites(lib, steps, x, i, |steps| - 1)
  {
    forall m | i < m < |steps| - 1
      ensures Overwrites(lib, steps, x, i, m) <==> Overwrites(lib, steps[..|steps| - 1], x, i, m)
    {
      OverwritesInFront(lib, steps, x, i, m);
    }
    var front := steps[..|steps| - 1];
    if m :| i < m < |steps| && Overwrites(lib, steps, x, i, m) {
      assert m < |steps| - 1 ==> Overwrites(lib, front, x, i, m);
    }
    if m :| i < m < |front| && Overwrites(lib, front, x, i, m) { assert Overwrites(lib, steps, x, i, m); }
  }

  lemma OverwritesInFront(lib: Library, steps: seq<Step>, x: Value, i: nat, m: nat)
    requires i < m < |steps| - 1
    ensures Overwrites(lib, steps, x, i, m) <==> Overwrites(lib, steps[..|steps| - 1], x, i, m)
  {
    assert steps[..|steps| - 1][m] == steps[m] && steps[..|steps| - 1][i] == steps[i];
  }

  lemma TrackWrite(lib: Library, steps: seq<Step>, x: Value, i: nat, world: World, w: Object, spot: Spot)
    requires Writing(lib, steps, x, world, w, spot) && i < |steps| - 1 && Mapped(steps[i]) && steps[i].regionPath.Some?
    requires Writes(ForwardAction(lib, x, steps[|steps| - 1])).Some?
    requires Tracked(lib, steps[..|steps| - 1], x, i, world)
    requires Shares(lib, steps[i], x) && !Overwritten(lib, steps[..|steps| - 1], x, i) ==>
               Held(lib, steps[..|steps| - 1], x, Target(steps[i])) ==
                   Some(Erase(ReadObject(world.instance, steps[i].regionPath)))
    ensures Tracked(lib, steps, x, i, AssignAll(world, spot.id, KeyOf(steps, spot), PutOf(steps, w, spot)))
  {
    var front, d := steps[..|steps| - 1], ReadObject(world.instance, steps[i].regionPath);
    OverwrittenMore(lib, steps, x, i);
    if !Shares(lib, steps[i], x) {
      UnsharedKept(lib, steps, x, i, world, w, spot);
    } else {
      var s := Target(steps[|steps| - 1])[..spot.depth];
      WriteFacts(lib, steps, x, world, w, spot);
      RegionAssigned(lib, steps, x, i, world.instance, spot.id, s, KeyOf(steps, spot), PutOf(steps, w, spot));
      if Overwritten(lib, front, x, i) {
        DetachedKept(lib, steps, x, world, w, spot, Target(steps[i]), d);
      } else if Target(steps[|steps| - 1]) <= Target(steps[i]) {
        DetachedNow(lib, steps, x, world, w, spot, Target(steps[i]), d);
      } else {
        AttachedKept(lib, steps, x, world, w, spot, Target(steps[i]), d);
      }
    }
  }

  /** A step that does not write leaves everything as it was. */
  lemma TrackIdle(lib: Library, steps: seq<Step>, x: Value, i: nat, world: World)
    requires steps != [] && i < |steps| - 1 && Tracked(lib, steps[..|steps| - 1], x, i, world)
    requires var s := steps[|steps| - 1];
             !Mapped(s) || s.canonicalPath.None? || Writes(ForwardAction(lib, x, s)).None?
    ensures Tracked(lib, steps, x, i, world)
  {
    var front := steps[..|steps| - 1];
    OverwrittenMore(lib, steps, x, i);
    if Shares(lib, steps[i], x) && Overwritten(lib, front, x, i) {
      var d := ReadObject(world.instance, steps[i].regionPath);
      forall r, e | Stands(d, r, e) ensures Home(lib, steps, x, e, Target(steps[i]) + r) {
        HomeMore(lib, steps, x, e, Target(steps[i]) + r);
      }
    }
  }

  /** A step's own turn. */
  lemma TrackOwn(lib: Library, steps: seq<Step>, x: Value, world: World)
    requires Stage(lib, steps, x, world) && steps[|steps| - 1].regionPath.Some?
    requires Move(There, lib, steps[|steps| - 1], world, |steps| - 1).halt == Completed
    ensures Tracked(lib, steps, x, |steps| - 1, Move(There, lib, steps[|steps| - 1], world, |steps| - 1).world)
  {
    var n, s := |steps| - 1, steps[|steps| - 1];
    ReadsOriginal(lib, steps, x, world);
    CleanForLast(steps);
    if s.canonicalPath.Some? && Writes(ForwardAction(lib, x, s)).Some? {
      var w := MoveWrites(lib, steps, x, world);
      var spot := Deepest(world.canonical, Target(s)).value;
      WriteFacts(lib, steps, x, world, w, spot);
      WriteSparesAt(lib, steps, x, world, w, spot, Region(s));
      PutAt(world.canonical, Target(s), w, 1, n);
      if Shares(lib, s, x) { CopyIsSame(lib, s.chain, ReadObject(world.instance, s.regionPath), n); }
    } else {
      MoveIdles(lib, steps, x, world);
    }
  }

  /** Over prefix-free canonical paths, whatever the regions, forward over objects is forward over
      values too, and leaves the instance as it was. */
  lemma CanonicalFreeForward(lib: Library, steps: seq<Step>, x: Value)
    requires CanonicalFree(steps)
    ensures var t, r := Go(There, lib, steps, Departure(x)), ForwardRun(lib, steps, x);
            && Agrees(t.halt, r.ending) && t.escalated == r.escalated
            && (r.ending.Done? ==> r.ending.out == Erase(t.world.canonical))
            && Erase(t.world.instance) == x
  {
    forall p, e | Stands(Given0(x), p, e) ensures e.run < 1 { GivenStands(x, p, e); }
    EraseMark(x, 0, Given, []);
    FreeRunIsValues(There, lib, steps, Departure(x));
  }

  /** What the canonical document holds at q, in the fold over values. */
  lemma CanonicalHolds(lib: Library, steps: seq<Step>, x: Value, q: Path)
    requires RegionFree(steps) && Go(There, lib, steps, Departure(x)).halt == Completed
    ensures Find(Erase(Go(There, lib, steps, Departure(x)).world.canonical), q) == Held(lib, steps, x, q)
  {
    ForwardIsValues(lib, steps, x);
    RunHolds(lib, steps, x, q);
  }

  /** Forward raises something other than MappingRejected exactly at a step whose chain does, or
      whose path runs through what an earlier step left there. */
  lemma ForwardRaisesIff(lib: Library, steps: seq<Step>, x: Value)
    requires RegionFree(steps)
    ensures Go(There, lib, steps, Departure(x)).halt == Raised <==> exists k: nat :: BreaksAt(lib, steps, x, k)
  {
    ForwardIsValues(lib, steps, x);
    RunBreaksIff(lib, steps, x);
  }

  lemma FreePrefix(steps: seq<Step>, k: nat)
    requires RegionFree(steps) && k <= |steps|
    ensures RegionFree(steps[..k])
  {
  }

  /** A write below a path whose step delivered u raises exactly when u is not a dictionary open
      at that place, and then the run ends there. */
  lemma ForwardBelowRaises(lib: Library, steps: seq<Step>, x: Value, i: nat, u: Value, j: nat, w: Value, r: Path)
    requires RegionFree(steps) && OneBelow(lib, steps, x, i, u, j, w, r)
    requires Go(There, lib, steps[..j], Departure(x)).halt == Completed
    ensures Go(There, lib, steps[..j + 1], Departure(x)).halt == Raised <==> !Open(u, r)
    ensures !Open(u, r) ==> Go(There, lib, steps, Departure(x)).halt == Raised
  {
    FreePrefix(steps, j);
    FreePrefix(steps, j + 1);
    ForwardIsValues(lib, steps[..j], x);
    BelowBreaks(lib, steps, x, i, u, j, w, r);
    ForwardIsValues(lib, steps[..j + 1], x);
    ForwardIsValues(lib, steps, x);
  }

  lemma SharedHeld(lib: Library, steps: seq<Step>, x: Value, i: nat)
    requires RegionFree(steps) && Go(There, lib, steps, Departure(x)).halt == Completed
    requires i < |steps| && Tracked(lib, steps, x, i, Go(There, lib, steps, Departure(x)).world)
    ensures Shares(lib, steps[i], x) && !Overwritten(lib, steps, x, i) ==>
              Held(lib, steps, x, Target(steps[i]))
              == Some(Erase(ReadObject(Go(There, lib, steps, Departure(x)).world.instance, steps[i].regionPath)))
  {
    if Shares(lib, steps[i], x) && !Overwritten(lib, steps, x, i) {
      CanonicalHolds(lib, steps, x, Target(steps[i]));
      EraseAt(Go(There, lib, steps, Departure(x)).world.canonical, Target(steps[i]));
    }
  }

  lemma {:induction false} RegionTracked(lib: Library, steps: seq<Step>, x: Value, i: nat)
    requires RegionFree(steps) && i < |steps| && Mapped(steps[i]) && steps[i].regionPath.Some?
    requires Go(There, lib, steps, Departure(x)).halt == Completed
    ensures Tracked(lib, steps, x, i, Go(There, lib, steps, Departure(x)).world)
    decreases |steps|
  {
    var n, front := |steps| - 1, steps[..|steps| - 1];
    var t, s := Go(There, lib, front, Departure(x)), steps[n];
    FrontFree(steps);
    ForwardIsValues(lib, front, x);
    if i == n {
      TrackOwn(lib, steps, x, t.world);
    } else {
      RegionTracked(lib, front, x, i);
      if Mapped(s) && s.canonicalPath.Some? && Writes(ForwardAction(lib, x, s)).Some? {
        var w := MoveWrites(lib, steps, x, t.world);
        SharedHeld(lib, front, x, i);
        TrackWrite(lib, steps, x, i, t.world, w, Deepest(t.world.canonical, Target(s)).value);
      } else {
        if Mapped(s) { MoveIdles(lib, steps, x, t.world); }
        TrackIdle(lib, steps, x, i, t.world);
      }
    }
  }

  lemma KeptNext(lib: Library, steps: seq<Step>, x: Value, i: nat)
    requires i < |steps| && Shares(lib, steps[i], x) && Overwritten(lib, steps, x, i)
    ensures i < |steps| - 1 && Kept(lib, steps, x, i) == Kept(lib, steps[..|steps| - 1], x, i)
  {
  }

  /** What a completed forward run over separate regions leaves in the instance, where each
      mapped step reads it. */
  lemma InstanceHolds(lib: Library, steps: seq<Step>, x: Value, i: nat)
    requires RegionFree(steps) && i < |steps| && Mapped(steps[i]) && steps[i].regionPath.Some?
    requires Go(There, lib, steps, Departure(x)).halt == Completed
    ensures ReadAt(Erase(Go(There, lib, steps, Departure(x)).world.instance), steps[i].regionPath) ==
            Kept(lib, steps, x, i)
  {
    var path, instance := steps[i].regionPath, Go(There, lib, steps, Departure(x)).world.instance;
    RegionTracked(lib, steps, x, i);
    SharedHeld(lib, steps, x, i);
    ReadErases(instance, path);
    ReadErases(Given0(x), path);
    EraseMark(x, 0, Given, []);
  }

  // --------------------------------------------------------------------- and back

  /** Assigning older objects makes nothing newer. */
  lemma {:induction false} AssignOlder(o: Object, id: Id, key: string, w: Object, run: nat, p: Path, e: Id)
    requires Older(o, run) && Older(w, run) && Stands(Assign(o, id, key, w), p, e)
    ensures e.run < run
    decreases |p|
  {
    if p == [] {
      assert Stands(o, [], e);
    } else if o.id == id && p[0] == key {
      assert Stands(w, p[1..], e);
    } else {
      var child := o.fields[p[0]];
      forall q, d | Stands(child, q, d) ensures d.run < run {
        StandsBelow(o, p[0], q, d);
        assert Stands(o, [p[0]] + q, d);
      }
      AssignOlder(child, id, key, w, run, p[1..], e);
    }
  }

  ghost predicate AllOlder(world: World, run: nat) { Older(world.instance, run) && Older(world.canonical, run) }

  lemma StoreOlder(world: World, target: Option<string>, w: Object, step: nat)
    requires AllOlder(world, 2) && Older(w, 2)
    ensures AllOlder(Store(world, There, target, w, step).world, 2)
  {
    if target.Some? && WritePath(world, There, Parts(target.value), w, step).Wrote? {
      var t := Parts(target.value);
      var spot := Deepest(world.canonical, t).value;
      var put := Nest(t[spot.depth + 1..], w, 1, step, t[..spot.depth + 1]);
      forall p, e | Stands(put, p, e) ensures e.run < 2 {
        NestStands(t[spot.depth + 1..], w, 1, step, t[..spot.depth + 1], p, e);
      }
      forall p, e | Stands(Assign(world.instance, spot.id, t[spot.depth], put), p, e) ensures e.run < 2 {
        AssignOlder(world.instance, spot.id, t[spot.depth], put, 2, p, e);
      }
      forall p, e | Stands(Assign(world.canonical, spot.id, t[spot.depth], put), p, e) ensures e.run < 2 {
        AssignOlder(world.canonical, spot.id, t[spot.depth], put, 2, p, e);
      }
    }
  }

  lemma CarriedOlder(lib: Library, s: Step, world: World, step: nat)
    requires AllOlder(world, 2)
    ensures Older(Carried(There, lib, s, world, step), 2) && Older(Leaf(Null), 2)
  {
    var o, w := ReadObject(world.instance, s.regionPath), Carried(There, lib, s, world, step);
    forall p, e | Stands(w, p, e) ensures e.run < 2 {
      HandOnStands(lib, s.chain, o, step, p, e);
      if Stands(o, p, e) { StandsInDocument(world.instance, s.regionPath, p, e); }
    }
    forall p, e ensures !Stands(Leaf(Null), p, e) { assert At(Leaf(Null), p).Some? ==> p == []; }
  }

  lemma {:induction false} ForwardOlder(lib: Library, steps: seq<Step>, x: Value)
    ensures AllOlder(Go(There, lib, steps, Departure(x)).world, 2)
    decreases |steps|
  {
    if steps == [] {
      forall p, e | Stands(Given0(x), p, e) ensures e.run < 2 { GivenStands(x, p, e); }
      EmptyDocument(There);
      forall p, e | Stands(NewDocument(There), p, e) ensures e.run < 2 { assert InOrder(There, [], p, e); }
    } else {
      var n := |steps| - 1;
      var world := Go(There, lib, steps[..n], Departure(x)).world;
      ForwardOlder(lib, steps[..n], x);
      CarriedOlder(lib, steps[n], world, n);
      MoveStores(There, lib, steps[n], world, n);
      StoreOlder(world, steps[n].canonicalPath, Carried(There, lib, steps[n], world, n), n);
      StoreOlder(world, steps[n].canonicalPath, Leaf(Null), n);
    }
  }
}
