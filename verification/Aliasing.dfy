/**
 Runs over objects against runs over values: when the shared dictionaries of the program can be
 forgotten, and what a forward run leaves in the instance when they cannot.
 */
module Aliasing {
  import opened Wrappers
  import opened Documents
  import opened Objects
  import opened Transforms
  import opened Interpreter
  import opened RoundTrip

  ghost predicate Agrees(halt: Halt, ending: Ending) {
    match ending
    case Done(_) => halt == Completed
    case Rejected(target) => halt == Refused(target)
    case Broke => halt == Raised
  }

  // ------------------------------------------------------------- one step of a run

  /** The dictionary a write to t assigns to stands once in o, and not in what is written. */
  ghost predicate Lonely(o: Object, t: Path, w: Object, way: Way, step: nat)
    requires |t| >= 1
  {
    Deepest(o, t).Some? ==>
      var spot := Deepest(o, t).value;
      OnlyAt(o, spot.id, t[..spot.depth]) && Absent(w, spot.id) && !NewAt(spot.id, way, step)
  }

  predicate NewAt(id: Id, way: Way, step: nat) { id.run == RunNumber(way) && id.source == Created(step) }

  ghost predicate LonelyTarget(world: World, way: Way, target: Option<string>, w: Object, step: nat) {
    target.Some? ==> Lonely(Built(way, world), Parts(target.value), w, way, step)
  }

  lemma NestLacks(rest: Path, w: Object, way: Way, step: nat, at: Path, id: Id)
    requires Absent(w, id) && !NewAt(id, way, step)
    ensures !Has(Nest(rest, w, RunNumber(way), step, at), id)
  {
    var put := Nest(rest, w, RunNumber(way), step, at);
    HasIffStands(put, id);
    if p :| Stands(put, p, id) { NestStands(rest, w, RunNumber(way), step, at, p, id); }
  }

  lemma WritePathErases(world: World, way: Way, t: Path, w: Object, step: nat)
    requires |t| >= 1 && Lonely(Built(way, world), t, w, way, step)
    ensures var put, written := WritePath(world, way, t, w, step), Write(Erase(Built(way, world)), t, Erase(w));
            if written.None? then put.Blocked?
            else put.Wrote? && Erase(Built(way, put.world)) == written.value
  {
    var o := Built(way, world);
    DeepestIffOpen(o, t);
    WriteSucceedsIffOpen(Erase(o), t, Erase(w));
    if Deepest(o, t).Some? {
      var spot := Deepest(o, t).value;
      NestLacks(t[spot.depth + 1..], w, way, step, t[..spot.depth + 1], spot.id);
      PutErases(o, t, w, RunNumber(way), step, t[..spot.depth + 1]);
    }
  }

  lemma StoreErases(world: World, way: Way, target: Option<string>, w: Object, step: nat, v: Value)
    requires LonelyTarget(world, way, target, w, step) && Erase(w) == v
    ensures var leg, written := Store(world, way, target, w, step), WriteAt(Erase(Built(way, world)), target, v);
            if written.None? then leg.halt == Raised
            else leg.halt == Completed && Erase(Built(way, leg.world)) == written.value
  {
    if target.Some? { WritePathErases(world, way, Parts(target.value), w, step); }
  }

  lemma NullIsLonely(world: World, way: Way, target: Option<string>, w: Object, step: nat)
    requires LonelyTarget(world, way, target, w, step)
    ensures LonelyTarget(world, way, target, Leaf(Null), step)
  {
  }

  lemma LandErases(a: Action, w: Object, world: World, way: Way, step: nat)
    requires LonelyTarget(world, way, a.target, w, step) && (a.outcome.Ok? ==> Erase(w) == a.outcome.value)
    ensures var leg, e := Land(a, w, world, way, step), Perform(a, Erase(Built(way, world)));
            && Agrees(leg.halt, e.ending) && leg.escalates == e.escalates
            && (e.ending.Done? ==> e.ending.out == Erase(Built(way, leg.world)))
  {
    NullIsLonely(world, way, a.target, w, step);
    StoreErases(world, way, a.target, Leaf(Null), step, Null);
    if a.outcome.Ok? { StoreErases(world, way, a.target, w, step, a.outcome.value); }
  }

  /** The object the step's chain hands on. */
  function Carried(way: Way, lib: Library, s: Step, world: World, step: nat): Object {
    Handed(way, lib, s.chain, ReadObject(ReadFrom(way, world), Origin(way, s)), step)
  }

  /** Where its dictionary stands alone, a step over objects does what it does over values. */
  lemma MoveErases(way: Way, lib: Library, s: Step, world: World, step: nat)
    requires LonelyTarget(world, way, Destination(way, s), Carried(way, lib, s, world, step), step)
    ensures var leg := Move(way, lib, s, world, step);
            var e := Perform(ActionOf(way, lib, Erase(ReadFrom(way, world)), s), Erase(Built(way, world)));
            && Agrees(leg.halt, e.ending) && leg.escalates == e.escalates
            && (e.ending.Done? ==> e.ending.out == Erase(Built(way, leg.world)))
  {
    ReadErases(ReadFrom(way, world), Origin(way, s));
    LandErases(ActionOf(way, lib, Erase(ReadFrom(way, world)), s), Carried(way, lib, s, world, step), world, way, step);
  }

  // ------------------------------------------------- runs whose targets are separate

  /** No target of a step the run takes is at, above or below another's. */
  ghost predicate TargetsFree(way: Way, steps: seq<Step>) {
    forall i, j :: 0 <= i < j < |steps| && Takes(way, steps[i]) && Takes(way, steps[j]) ==>
      Separate(Destination(way, steps[i]), Destination(way, steps[j]))
  }

  /** Dictionaries of earlier runs, or of the instance. */
  ghost predicate Older(o: Object, run: nat) { forall p, e :: Stands(o, p, e) ==> e.run < run }

  /** The start of a run: an empty document beside older ones. */
  ghost predicate Ready(way: Way, world: World) {
    && Built(way, world) == NewDocument(way) && Older(world.instance, RunNumber(way))
    && if way.There? then world.back == Leaf(Null) else Older(world.canonical, RunNumber(way))
  }

  predicate Opened(e: Id, way: Way) { e.run == RunNumber(way) && (e.source.Root? || e.source.Created?) }

  ghost predicate UnderTarget(way: Way, steps: seq<Step>, p: Path) {
    exists j :: 0 <= j < |steps| && Takes(way, steps[j]) && Destination(way, steps[j]).Some?
                && Parts(Destination(way, steps[j]).value) <= p
  }

  /** The dictionaries a run opened stand where their identity says, all others below a target. */
  ghost predicate Orderly(way: Way, steps: seq<Step>, o: Object) {
    forall p, e :: Stands(o, p, e) ==> InOrder(way, steps, p, e)
  }

  ghost predicate InOrder(way: Way, steps: seq<Step>, p: Path, e: Id) {
    if Opened(e, way) then e.path == p && (e.source.Created? ==> e.source.step < |steps|)
    else UnderTarget(way, steps, p)
  }

  /** A run has left the other documents alone. */
  ghost predicate OthersKept(way: Way, start: World, world: World) {
    world.instance == start.instance && if way.There? then world.back == start.back
        else world.canonical == start.canonical
  }

  lemma {:induction false} HandOnStands(lib: Library, chain: seq<Call>, o: Object, step: nat, p: Path, e: Id)
    requires RunForward(lib, chain, Erase(o)).Ok? && Stands(HandOn(lib, chain, o, step), p, e)
    ensures Stands(o, p, e) || e == Id(1, Made(step), p)
    decreases |chain|
  {
    if chain != [] {
      var v := Forward(lib, chain[0], Erase(o)).value;
      EraseMark(v, 1, Made(step), []);
      var next := if chain[0].name == "identity" then o else Mark(v, 1, Made(step), []);
      HandOnStands(lib, chain[1..], next, step, p, e);
      if Stands(Mark(v, 1, Made(step), []), p, e) { MarkStands(v, 1, Made(step), [], p, e); }
    }
  }

  lemma {:induction false} HandBackStands(lib: Library, chain: seq<Call>, o: Object, step: nat, p: Path, e: Id)
    requires RunReverse(lib, chain, Erase(o)).Ok? && Stands(HandBack(lib, chain, o, step), p, e)
    ensures (exists q :: Stands(o, q, e)) || (e.run == 2 && e.source == Made(step))
    decreases |chain|
  {
    if chain != [] {
      var last := chain[|chain| - 1];
      var v := Reverse(lib, last, Erase(o)).value;
      EraseMark(v, 2, Made(step), []);
      var next := if last.name == "identity" || last.name == "normaliseCase" then o
                  else if last.name == "toIdentifier" then o.fields["value"]
                  else Mark(v, 2, Made(step), []);
      HandBackStands(lib, chain[..|chain| - 1], next, step, p, e);
      if q :| Stands(next, q, e) {
        if last.name == "toIdentifier" {
          StandsBelow(o, "value", q, e);
        } else if last.name != "identity" && last.name != "normaliseCase" {
          MarkStands(v, 2, Made(step), [], q, e);
        }
      }
    }
  }

  lemma StandsInDocument(o: Object, path: Option<string>, p: Path, e: Id)
    requires Stands(ReadObject(o, path), p, e)
    ensures path.Some? && Stands(o, Parts(path.value) + p, e)
  {
    if path.Some? { AtBelow(o, Parts(path.value), p); }
  }

  /** What a step carries consists of older dictionaries and of new ones the chain made. */
  lemma CarriedIds(way: Way, lib: Library, s: Step, world: World, step: nat, p: Path, e: Id)
    requires Older(ReadFrom(way, world), RunNumber(way)) && Stands(Carried(way, lib, s, world, step), p, e)
    ensures e.run < RunNumber(way) || (e.run == RunNumber(way) && e.source == Made(step))
  {
    var o := ReadObject(ReadFrom(way, world), Origin(way, s));
    if way.There? {
      HandOnStands(lib, s.chain, o, step, p, e);
      if Stands(o, p, e) { StandsInDocument(world.instance, s.regionPath, p, e); }
    } else {
      HandBackStands(lib, s.chain, o, step, p, e);
      if q :| Stands(o, q, e) { StandsInDocument(world.canonical, s.canonicalPath, q, e); }
    }
  }

  /** What a run over separate targets keeps: it is the run over values, and the other documents
      are untouched. */
  ghost predicate RunsAsValues(way: Way, steps: seq<Step>, start: World, t: Travel, r: Run) {
    && Agrees(t.halt, r.ending) && t.escalated == r.escalated
    && (r.ending.Done? ==> r.ending.out == Erase(Built(way, t.world)))
    && OthersKept(way, start, t.world) && Orderly(way, steps, Built(way, t.world))
  }

  lemma SpotIsOpened(way: Way, steps: seq<Step>, o: Object)
    requires steps != [] && TargetsFree(way, steps) && Takes(way, steps[|steps| - 1])
    requires Destination(way, steps[|steps| - 1]).Some? && Orderly(way, steps[..|steps| - 1], o)
    ensures var t := Parts(Destination(way, steps[|steps| - 1]).value);
            Deepest(o, t).Some? ==>
              var spot := Deepest(o, t).value;
              OnlyAt(o, spot.id, t[..spot.depth]) && Opened(spot.id, way) && !NewAt(spot.id, way, |steps| - 1)
  {
    var n := |steps| - 1;
    var t := Parts(Destination(way, steps[n]).value);
    if Deepest(o, t).Some? {
      var spot := Deepest(o, t).value;
      DeepestStands(o, t);
      NotUnderTarget(way, steps, t[..spot.depth]);
    }
  }

  lemma NotUnderTarget(way: Way, steps: seq<Step>, p: Path)
    requires steps != [] && TargetsFree(way, steps) && Takes(way, steps[|steps| - 1])
    requires Destination(way, steps[|steps| - 1]).Some? && p <= Parts(Destination(way, steps[|steps| - 1]).value)
    ensures !UnderTarget(way, steps[..|steps| - 1], p)
  {
    var n := |steps| - 1;
    forall j | 0 <= j < n && Takes(way, steps[j]) && Destination(way, steps[j]).Some?
      ensures !(Parts(Destination(way, steps[j]).value) <= p)
    {
      assert Separate(Destination(way, steps[j]), Destination(way, steps[n]));
    }
  }

  lemma StepIsLonely(way: Way, lib: Library, steps: seq<Step>, start: World, world: World)
    requires steps != [] && TargetsFree(way, steps) && Takes(way, steps[|steps| - 1]) && Ready(way, start)
    requires OthersKept(way, start, world) && Orderly(way, steps[..|steps| - 1], Built(way, world))
    ensures var n := |steps| - 1;
            LonelyTarget(world, way, Destination(way, steps[n]), Carried(way, lib, steps[n], world, n), n)
  {
    var n := |steps| - 1;
    var target, w := Destination(way, steps[n]), Carried(way, lib, steps[n], world, n);
    if target.Some? && Deepest(Built(way, world), Parts(target.value)).Some? {
      var spot := Deepest(Built(way, world), Parts(target.value)).value;
      SpotIsOpened(way, steps, Built(way, world));
      forall p ensures !Stands(w, p, spot.id) {
        if Stands(w, p, spot.id) { CarriedIds(way, lib, steps[n], world, n, p, spot.id); }
      }
    }
  }

  /** Writing through a dictionary the run itself opened leaves the other documents alone. */
  lemma StoreKeepsOthers(way: Way, steps: seq<Step>, start: World, world: World, w: Object)
    requires steps != [] && TargetsFree(way, steps) && Takes(way, steps[|steps| - 1]) && Ready(way, start)
    requires OthersKept(way, start, world) && Orderly(way, steps[..|steps| - 1], Built(way, world))
    ensures OthersKept(way, start, Store(world, way, Destination(way, steps[|steps| - 1]), w, |steps| - 1).world)
  {
    var target := Destination(way, steps[|steps| - 1]);
    if target.Some? && Deepest(Built(way, world), Parts(target.value)).Some? {
      var t := Parts(target.value);
      var spot := Deepest(Built(way, world), t).value;
      var put := Nest(t[spot.depth + 1..], w, RunNumber(way), |steps| - 1, t[..spot.depth + 1]);
      SpotIsOpened(way, steps, Built(way, world));
      AssignAbsent(world.instance, spot.id, t[spot.depth], put);
      if way.Back? { AssignAbsent(world.canonical, spot.id, t[spot.depth], put); }
    }
  }

  lemma PutInOrder(way: Way, steps: seq<Step>, o: Object, w: Object, p: Path, e: Id)
    requires steps != [] && TargetsFree(way, steps) && Takes(way, steps[|steps| - 1])
    requires Destination(way, steps[|steps| - 1]).Some? && Orderly(way, steps[..|steps| - 1], o)
    requires forall q, d :: Stands(w, q, d) ==> !Opened(d, way)
    requires var t := Parts(Destination(way, steps[|steps| - 1]).value);
             && Deepest(o, t).Some?
             && var spot := Deepest(o, t).value;
                var put := Nest(t[spot.depth + 1..], w, RunNumber(way), |steps| - 1, t[..spot.depth + 1]);
                Stands(Assign(o, spot.id, t[spot.depth], put), p, e)
    ensures InOrder(way, steps, p, e)
  {
    var n := |steps| - 1;
    var t := Parts(Destination(way, steps[n]).value);
    SpotIsOpened(way, steps, o);
    PutStands(o, t, w, RunNumber(way), n, p, e);
    if t <= p {
      assert Takes(way, steps[n]) && Parts(Destination(way, steps[n]).value) <= p;
    } else if Stands(o, p, e) && !Opened(e, way) {
      UnderMore(way, steps, p);
    }
  }

  lemma StoreKeepsOrder(way: Way, steps: seq<Step>, world: World, w: Object)
    requires steps != [] && TargetsFree(way, steps) && Takes(way, steps[|steps| - 1])
    requires Orderly(way, steps[..|steps| - 1], Built(way, world))
    requires forall p, e :: Stands(w, p, e) ==> !Opened(e, way)
    ensures Orderly(way, steps, Built(way,
            Store(world, way, Destination(way, steps[|steps| - 1]), w, |steps| - 1).world))
  {
    var n := |steps| - 1;
    var target, o := Destination(way, steps[n]), Built(way, world);
    var o' := Built(way, Store(world, way, target, w, n).world);
    if o' == o {
      OrderMore(way, steps, o);
    } else {
      forall p, e | Stands(o', p, e) ensures InOrder(way, steps, p, e) { PutInOrder(way, steps, o, w, p, e); }
    }
  }

  lemma UnderMore(way: Way, steps: seq<Step>, p: Path)
    requires steps != [] && UnderTarget(way, steps[..|steps| - 1], p)
    ensures UnderTarget(way, steps, p)
  {
    var front := steps[..|steps| - 1];
    var j :| 0 <= j < |front| && Takes(way, front[j]) && Destination(way, front[j]).Some?
             && Parts(Destination(way, front[j]).value) <= p;
    assert front[j] == steps[j];
  }

  lemma MoveStores(way: Way, lib: Library, s: Step, world: World, step: nat)
    ensures var world', target := Move(way, lib, s, world, step).world, Destination(way, s);
            || world' == world
            || world' == Store(world, way, target, Carried(way, lib, s, world, step), step).world
            || world' == Store(world, way, target, Leaf(Null), step).world
  {
  }

  lemma MoveKeeps(way: Way, lib: Library, steps: seq<Step>, start: World, world: World)
    requires steps != [] && TargetsFree(way, steps) && Takes(way, steps[|steps| - 1]) && Ready(way, start)
    requires OthersKept(way, start, world) && Orderly(way, steps[..|steps| - 1], Built(way, world))
    ensures var world' := Move(way, lib, steps[|steps| - 1], world, |steps| - 1).world;
            OthersKept(way, start, world') && Orderly(way, steps, Built(way, world'))
  {
    var n := |steps| - 1;
    var w := Carried(way, lib, steps[n], world, n);
    forall p, e | Stands(w, p, e) ensures !Opened(e, way) { CarriedIds(way, lib, steps[n], world, n, p, e); }
    MoveStores(way, lib, steps[n], world, n);
    StoreKeepsOthers(way, steps, start, world, w);
    StoreKeepsOthers(way, steps, start, world, Leaf(Null));
    StoreKeepsOrder(way, steps, world, w);
    StoreKeepsOrder(way, steps, world, Leaf(Null));
    OrderMore(way, steps, Built(way, world));
  }

  lemma OrderMore(way: Way, steps: seq<Step>, o: Object)
    requires steps != [] && Orderly(way, steps[..|steps| - 1], o)
    ensures Orderly(way, steps, o)
  {
    forall p, e | Stands(o, p, e) && !Opened(e, way) ensures UnderTarget(way, steps, p) { UnderMore(way, steps, p); }
  }

  /** Where no target is at, above or below another, a run over objects is the run over values,
      and changes none of the other documents. */
  lemma {:induction false} FreeRunIsValues(way: Way, lib: Library, steps: seq<Step>, start: World)
    requires TargetsFree(way, steps) && Ready(way, start)
    ensures RunsAsValues(way, steps, start, Go(way, lib, steps, start),
                         ValueRun(way, lib, Erase(ReadFrom(way, start)), steps))
    decreases |steps|
  {
    var given := Erase(ReadFrom(way, start));
    if steps == [] {
      assert ActionsOf(way, lib, given, []) == [];
      EmptyDocument(way);
    } else {
      var n, front := |steps| - 1, steps[..|steps| - 1];
      FreeRunIsValues(way, lib, front, start);
      FreeTurn(way, lib, steps, start, Go(way, lib, front, start), ValueRun(way, lib, given, front));
      RunLast(way, lib, given, steps);
    }
  }

  lemma EmptyDocument(way: Way)
    ensures Erase(NewDocument(way)) == EMPTY && Orderly(way, [], NewDocument(way))
  {
    var o := NewDocument(way);
    assert Erase(o).fields == map[];
    forall p, e | Stands(o, p, e) ensures p == [] && e == o.id { assert At(o, p).Some? ==> p == []; }
  }

  lemma FreeTurn(way: Way, lib: Library, steps: seq<Step>, start: World, t: Travel, r: Run)
    requires steps != [] && TargetsFree(way, steps) && Ready(way, start)
    requires RunsAsValues(way, steps[..|steps| - 1], start, t, r)
    ensures var last := steps[|steps| - 1];
            RunsAsValues(way, steps, start, Further(way, lib, t, last, |steps| - 1),
                         if !r.ending.Done? || !Takes(way, last) then r
                         else
                           var e := Perform(ActionOf(way, lib, Erase(ReadFrom(way, start)), last), r.ending.out);
                           Run(e.ending, r.escalated + if e.escalates then [last] else []))
  {
    var n := |steps| - 1;
    OrderMore(way, steps, Built(way, t.world));
    if r.ending.Done? && Takes(way, steps[n]) {
      StepIsLonely(way, lib, steps, start, t.world);
      MoveErases(way, lib, steps[n], t.world, n);
      MoveKeeps(way, lib, steps, start, t.world);
    }
  }
}
