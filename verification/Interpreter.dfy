/**
 mapping/interpreter.py: a compiled plan run forward and in reverse over nested
 documents, with the four on_failure branches.
 */
module Interpreter {
  import opened Wrappers
  import opened Documents
  import opened Objects
  import opened Sequences
  import opened Transforms

  datatype OnFailure = OnReject | OnEscalate | OnDefault | OnSkip

  datatype Step = Step(
    canonicalPath: Option<string>,
    regionPath: Option<string>,
    chain: seq<Call>,
    disposition: Option<string>,
    onFailure: OnFailure,
    weight: int,
    reversible: bool,
    lossKind: Option<string>,
    note: Option<string>)

  /** How a run ended: with a document, with MappingRejected, or with another exception. */
  datatype Ending = Done(out: Value) | Rejected(target: Option<string>) | Broke

  datatype Run = Run(ending: Ending, escalated: seq<Step>)

  /** What one step does once its chain has been run: where it writes, and what. */
  datatype Action = Action(step: Step, target: Option<string>, outcome: Outcome)

  predicate Mapped(s: Step) { s.disposition.None? }

  predicate Undoable(s: Step) { Mapped(s) && s.reversible }

  function ForwardAction(lib: Library, instance: Value, s: Step): Action {
    Action(s, s.canonicalPath, RunForward(lib, s.chain, ReadAt(instance, s.regionPath)))
  }

  function ReverseAction(lib: Library, canonical: Value, s: Step): Action {
    Action(s, s.regionPath, RunReverse(lib, s.chain, ReadAt(canonical, s.canonicalPath)))
  }

  function ForwardActions(lib: Library, instance: Value, steps: seq<Step>): seq<Action> {
    if steps == [] then []
    else (if Mapped(steps[0]) then [ForwardAction(lib, instance, steps[0])] else []) +
         ForwardActions(lib, instance, steps[1..])
  }

  function ReverseActions(lib: Library, canonical: Value, steps: seq<Step>): seq<Action> {
    if steps == [] then []
    else (if Undoable(steps[0]) then [ReverseAction(lib, canonical, steps[0])] else []) +
         ReverseActions(lib, canonical, steps[1..])
  }

  /** One action: the document afterwards (or how the run ends) and whether it escalated. */
  datatype Effect = Effect(ending: Ending, escalates: bool)

  function Perform(a: Action, out: Value): Effect {
    match a.outcome
    case Crashed => Effect(Broke, false)
    case Ok(v) => Effect(Written(WriteAt(out, a.target, v)), false)
    case Failed =>
      match a.step.onFailure
      case OnReject => Effect(Rejected(a.target), false)
      case OnEscalate => Effect(Done(out), true)
      case OnDefault => Effect(Written(WriteAt(out, a.target, Null)), false)
      case OnSkip => Effect(Done(out), false)
  }

  function Written(w: Option<Value>): Ending {
    match w
    case Some(out) => Done(out)
    case None => Broke
  }

  function PerformAll(actions: seq<Action>, out: Value): Run {
    if actions == [] then Run(Done(out), [])
    else
      var e := Perform(actions[0], out);
      var first := if e.escalates then [actions[0].step] else [];
      if e.ending.Done? then
        var rest := PerformAll(actions[1..], e.ending.out);
        Run(rest.ending, first + rest.escalated)
      else Run(e.ending, first)
  }

  function ForwardRun(lib: Library, steps: seq<Step>, instance: Value): Run {
    PerformAll(ForwardActions(lib, instance, steps), EMPTY)
  }

  function ReverseRun(lib: Library, steps: seq<Step>, canonical: Value): Run {
    PerformAll(ReverseActions(lib, canonical, steps), EMPTY)
  }

  // --------------------------------------------------------------- runs over objects

  predicate Takes(way: Way, s: Step) { if way.There? then Mapped(s) else Undoable(s) }

  function Origin(way: Way, s: Step): Option<string> { if way.There? then s.regionPath else s.canonicalPath }

  function Destination(way: Way, s: Step): Option<string> { if way.There? then s.canonicalPath else s.regionPath }

  function ChainResult(way: Way, lib: Library, chain: seq<Call>, v: Value): Outcome {
    if way.There? then RunForward(lib, chain, v) else RunReverse(lib, chain, v)
  }

  function ActionOf(way: Way, lib: Library, given: Value, s: Step): Action {
    Action(s, Destination(way, s), ChainResult(way, lib, s.chain, ReadAt(given, Origin(way, s))))
  }

  /** What a chain hands on: identity the very object it is given, any other transform a new one. */
  function HandOn(lib: Library, chain: seq<Call>, o: Object, step: nat): (w: Object)
    requires RunForward(lib, chain, Erase(o)).Ok?
    ensures Erase(w) == RunForward(lib, chain, Erase(o)).value
    decreases |chain|
  {
    if chain == [] then o
    else
      var v := Forward(lib, chain[0], Erase(o)).value;
      EraseMark(v, 1, Made(step), []);
      HandOn(lib, chain[1..], if chain[0].name == "identity" then o else Mark(v, 1, Made(step), []), step)
  }

  /** The reverse of identity and normaliseCase hands back the object itself, that of
      toIdentifier the object it holds, any other a new one. */
  function HandBack(lib: Library, chain: seq<Call>, o: Object, step: nat): (w: Object)
    requires RunReverse(lib, chain, Erase(o)).Ok?
    ensures Erase(w) == RunReverse(lib, chain, Erase(o)).value
    decreases |chain|
  {
    if chain == [] then o
    else
      var last := chain[|chain| - 1];
      var v := Reverse(lib, last, Erase(o)).value;
      EraseMark(v, 2, Made(step), []);
      var next := if last.name == "identity" || last.name == "normaliseCase" then o
                  else if last.name == "toIdentifier" then o.fields["value"]
                  else Mark(v, 2, Made(step), []);
      HandBack(lib, chain[..|chain| - 1], next, step)
  }

  function Handed(way: Way, lib: Library, chain: seq<Call>, o: Object, step: nat): (w: Object)
    ensures var r := ChainResult(way, lib, chain, Erase(o)); r.Ok? ==> Erase(w) == r.value
  {
    if !ChainResult(way, lib, chain, Erase(o)).Ok? then Leaf(Null)
    else if way.There? then HandOn(lib, chain, o, step)
    else HandBack(lib, chain, o, step)
  }

  /** How a run over objects ended: as over values, or with a dictionary inside itself. */
  datatype Halt = Completed | Refused(target: Option<string>) | Raised | Tangled

  datatype Leg = Leg(halt: Halt, world: World, escalates: bool)

  function Store(world: World, way: Way, target: Option<string>, w: Object, step: nat): (leg: Leg)
    ensures !leg.escalates
  {
    match target
    case None => Leg(Completed, world, false)
    case Some(path) =>
      match WritePath(world, way, Parts(path), w, step)
      case Wrote(world') => Leg(Completed, world', false)
      case Blocked => Leg(Raised, world, false)
      case Knotted => Leg(Tangled, world, false)
  }

  /** One action on the documents alive: w is the object the chain handed on, if it did. */
  function Land(a: Action, w: Object, world: World, way: Way, step: nat): Leg {
    match a.outcome
    case Crashed => Leg(Raised, world, false)
    case Ok(_) => Store(world, way, a.target, w, step)
    case Failed =>
      match a.step.onFailure
      case OnReject => Leg(Refused(a.target), world, false)
      case OnEscalate => Leg(Completed, world, true)
      case OnDefault => Store(world, way, a.target, Leaf(Null), step)
      case OnSkip => Leg(Completed, world, false)
  }

  /** One step of a run: read, run the chain, write or handle the failure. */
  function Move(way: Way, lib: Library, s: Step, world: World, step: nat): Leg {
    var o := ReadObject(ReadFrom(way, world), Origin(way, s));
    var a := Action(s, Destination(way, s), ChainResult(way, lib, s.chain, Erase(o)));
    Land(a, Handed(way, lib, s.chain, o, step), world, way, step)
  }

  datatype Travel = Travel(halt: Halt, world: World, escalated: seq<Step>)

  /** A run one step longer, while nothing has stopped it. */
  function Further(way: Way, lib: Library, t: Travel, s: Step, step: nat): Travel {
    if t.halt != Completed || !Takes(way, s) then t
    else
      var leg := Move(way, lib, s, t.world, step);
      Travel(leg.halt, leg.world, t.escalated + if leg.escalates then [s] else [])
  }

  function Go(way: Way, lib: Library, steps: seq<Step>, world: World): Travel {
    if steps == [] then Travel(Completed, world, [])
    else Further(way, lib, Go(way, lib, steps[..|steps| - 1], world), steps[|steps| - 1], |steps| - 1)
  }

  lemma {:induction false} GoStops(way: Way, lib: Library, steps: seq<Step>, world: World, k: nat)
    requires k <= |steps| && Go(way, lib, steps[..k], world).halt != Completed
    ensures Go(way, lib, steps, world) == Go(way, lib, steps[..k], world)
    decreases |steps|
  {
    if k == |steps| {
      assert steps[..k] == steps;
    } else {
      assert steps[..|steps| - 1][..k] == steps[..k];
      GoStops(way, lib, steps[..|steps| - 1], world, k);
    }
  }

  function NewDocument(way: Way): Object { Dict(Id(RunNumber(way), Root, []), map[]) }

  function Departing(instance: Object): World { World(instance, NewDocument(There), Leaf(Null)) }

  function Returning(instance: Object, canonical: Object): World { World(instance, canonical, NewDocument(Back)) }

  // ------------------------------------------------------------------- class Plan

  class Plan {
    const steps: seq<Step>
    const lib: Library
    var escalations: seq<Step>

    constructor (steps: seq<Step>, lib: Library)
      ensures this.steps == steps && this.lib == lib && escalations == []
    {
      this.steps, this.lib, escalations := steps, lib, [];
    }

    /** _handle, and the write on success: the try block of both loops. */
    method Attempt(a: Action, w: Object, world: World, way: Way, step: nat) returns (leg: Leg)
      modifies this`escalations
      ensures leg == Land(a, w, world, way, step)
      ensures escalations == old(escalations) + if leg.escalates then [a.step] else []
    {
      if a.outcome.Crashed? { return Leg(Raised, world, false); }
      if a.outcome.Ok? { return Store(world, way, a.target, w, step); }
      if a.step.onFailure.OnReject? { return Leg(Refused(a.target), world, false); }
      leg := Leg(Completed, world, false);
      if a.step.onFailure.OnEscalate? {
        escalations := escalations + [a.step];
        leg := Leg(Completed, world, true);
      } else if a.step.onFailure.OnDefault? {
        leg := Store(world, way, a.target, Leaf(Null), step);
      }
    }

    method RunChain(chain: seq<Call>, value: Value) returns (r: Outcome)
      ensures r == RunForward(lib, chain, value)
    {
      r := Ok(value);
      for i := 0 to |chain|
        invariant r.Ok? && RunForward(lib, chain[i..], r.value) == RunForward(lib, chain, value)
      {
        assert chain[i..][1..] == chain[i + 1..];
        r := Transforms.Forward(lib, chain[i], r.value);
        if !r.Ok? { return; }
      }
    }

    method UndoChain(chain: seq<Call>, value: Value) returns (r: Outcome)
      ensures r == RunReverse(lib, chain, value)
    {
      r := Ok(value);
      var i := |chain|;
      assert chain[..i] == chain;
      while i > 0
        invariant 0 <= i <= |chain| && r.Ok?
        invariant RunReverse(lib, chain[..i], r.value) == RunReverse(lib, chain, value)
      {
        i := i - 1;
        assert chain[..i + 1][..i] == chain[..i];
        r := Transforms.Reverse(lib, chain[i], r.value);
        if !r.Ok? { return; }
      }
    }

    /** One step: read, run the chain, write or handle the failure. */
    method Take(way: Way, s: Step, world: World, step: nat) returns (leg: Leg)
      modifies this`escalations
      ensures leg == Move(way, lib, s, world, step)
      ensures escalations == old(escalations) + if leg.escalates then [s] else []
    {
      var o := ReadPath(ReadFrom(way, world), Origin(way, s));
      var outcome: Outcome;
      if way.There? {
        outcome := RunChain(s.chain, Erase(o));
      } else {
        outcome := UndoChain(s.chain, Erase(o));
      }
      var w := Handed(way, lib, s.chain, o, step);
      leg := Attempt(Action(s, Destination(way, s), outcome), w, world, way, step);
    }

    /** One turn of either loop: the run so far, taken one step further. */
    method Turn(way: Way, i: nat, world: World, ghost start: World, ghost before: seq<Step>)
      returns (halt: Halt, world': World)
      requires i < |steps| && RunTo(way, i, start, Completed, world, before)
      modifies this`escalations
      ensures RunTo(way, i + 1, start, halt, world', before)
    {
      var s := steps[i];
      assert steps[..i + 1][..i] == steps[..i];
      if !Takes(way, s) { return Completed, world; }
      var leg := Take(way, s, world, i);
      return leg.halt, leg.world;
    }

    /** The first i steps have led here, and their escalations follow those before the run. */
    ghost predicate RunTo(way: Way, i: nat, start: World, halt: Halt, world: World, before: seq<Step>)
      reads this
    {
      && i <= |steps|
      && var t := Go(way, lib, steps[..i], start);
         halt == t.halt && world == t.world && escalations == before + t.escalated
    }

    lemma Stopped(way: Way, i: nat, start: World, halt: Halt, world: World, before: seq<Step>)
      requires RunTo(way, i, start, halt, world, before) && (halt != Completed || i == |steps|)
      ensures var t := Go(way, lib, steps, start);
              halt == t.halt && world == t.world && escalations == before + t.escalated
    {
      assert steps[..|steps|] == steps;
      if halt != Completed { GoStops(way, lib, steps, start, i); }
    }

    /** The canonical document, and the instance as the run leaves it. */
    method Forward(instance: Object) returns (halt: Halt, world: World)
      modifies this`escalations
      ensures var t := Go(There, lib, steps, Departing(instance));
              halt == t.halt && world == t.world && escalations == old(escalations) + t.escalated
    {
      world := Departing(instance);
      ghost var start := world;
      assert steps[..0] == [] && escalations + [] == escalations;
      for i := 0 to |steps|
        invariant RunTo(There, i, start, Completed, world, old(escalations))
      {
        halt, world := Turn(There, i, world, start, old(escalations));
        if halt != Completed {
          Stopped(There, i + 1, start, halt, world, old(escalations));
          return;
        }
      }
      halt := Completed;
      Stopped(There, |steps|, start, halt, world, old(escalations));
    }

    /** The document recovered, with the others as they are afterwards. */
    method Reverse(instance: Object, canonical: Object) returns (halt: Halt, world: World)
      modifies this`escalations
      ensures var t := Go(Back, lib, steps, Returning(instance, canonical));
              halt == t.halt && world == t.world && escalations == old(escalations) + t.escalated
    {
      world := Returning(instance, canonical);
      ghost var start := world;
      assert steps[..0] == [] && escalations + [] == escalations;
      for i := 0 to |steps|
        invariant RunTo(Back, i, start, Completed, world, old(escalations))
      {
        halt, world := Turn(Back, i, world, start, old(escalations));
        if halt != Completed {
          Stopped(Back, i + 1, start, halt, world, old(escalations));
          return;
        }
      }
      halt := Completed;
      Stopped(Back, |steps|, start, halt, world, old(escalations));
    }
  }

  // ------------------------------------------------------ a run, one step at a time

  function ActionsOf(way: Way, lib: Library, given: Value, steps: seq<Step>): seq<Action> {
    if way.There? then ForwardActions(lib, given, steps) else ReverseActions(lib, given, steps)
  }

  function ValueRun(way: Way, lib: Library, given: Value, steps: seq<Step>): Run {
    PerformAll(ActionsOf(way, lib, given, steps), EMPTY)
  }

  lemma {:induction false} ActionsOfLast(way: Way, lib: Library, given: Value, steps: seq<Step>)
    requires steps != []
    ensures var last := steps[|steps| - 1];
            ActionsOf(way, lib, given, steps) ==
            ActionsOf(way, lib, given, steps[..|steps| - 1]) +
            if Takes(way, last) then [ActionOf(way, lib, given, last)] else []
    decreases |steps|
  {
    var front, rest := steps[..|steps| - 1], steps[1..];
    if rest == [] {
      assert front == [];
    } else {
      ActionsOfLast(way, lib, given, rest);
      assert rest[..|rest| - 1] == front[1..] && rest[|rest| - 1] == steps[|steps| - 1];
      var first, last := if Takes(way, steps[0]) then [ActionOf(way, lib, given, steps[0])] else [],
                         if Takes(way, rest[|rest| - 1]) then [ActionOf(way, lib, given, rest[|rest| - 1])] else [];
      assert ActionsOf(way, lib, given, steps) == first + ActionsOf(way, lib, given, rest);
      assert ActionsOf(way, lib, given, front) == first + ActionsOf(way, lib, given, front[1..]);
      Regroup(first, ActionsOf(way, lib, given, front[1..]), last);
    }
  }

  lemma {:induction false} PerformLast(actions: seq<Action>, a: Action, out: Value)
    ensures var r := PerformAll(actions, out);
            PerformAll(actions + [a], out) ==
            if !r.ending.Done? then r
            else
              var e := Perform(a, r.ending.out);
              Run(e.ending, r.escalated + if e.escalates then [a.step] else [])
    decreases |actions|
  {
    if actions == [] {
      assert [] + [a] == [a] && [a][1..] == [];
    } else {
      assert (actions + [a])[1..] == actions[1..] + [a];
      var e := Perform(actions[0], out);
      if e.ending.Done? {
        PerformLast(actions[1..], a, e.ending.out);
        var r, first := PerformAll(actions[1..], e.ending.out), if e.escalates then [actions[0].step] else [];
        if r.ending.Done? {
          Regroup(first, r.escalated, if Perform(a, r.ending.out).escalates then [a.step] else []);
        }
      }
    }
  }

  /** A run is the run of all steps but the last, continued by the last. */
  lemma RunLast(way: Way, lib: Library, given: Value, steps: seq<Step>)
    requires steps != []
    ensures var r, last := ValueRun(way, lib, given, steps[..|steps| - 1]), steps[|steps| - 1];
            ValueRun(way, lib, given, steps) ==
            if !r.ending.Done? || !Takes(way, last) then r
            else
              var e := Perform(ActionOf(way, lib, given, last), r.ending.out);
              Run(e.ending, r.escalated + if e.escalates then [last] else [])
  {
    var front, last := ActionsOf(way, lib, given, steps[..|steps| - 1]), steps[|steps| - 1];
    ActionsOfLast(way, lib, given, steps);
    if Takes(way, last) {
      PerformLast(front, ActionOf(way, lib, given, last), EMPTY);
    } else {
      assert front + [] == front;
    }
  }

  // --------------------------------------------------------- step by step, from outside

  /** What a step's outcome makes of a run so far, by its failure policy, when it writes here. */
  ghost function Resumed(r: Run, s: Step, target: Option<string>, outcome: Outcome): Run
    requires r.ending.Done?
  {
    var out := r.ending.out;
    if outcome.Crashed? then Run(Broke, r.escalated)
    else if outcome.Ok? || s.onFailure == OnDefault then
      var after := WriteAt(out, target, if outcome.Ok? then outcome.value else Null);
      Run(if after.Some? then Done(after.value) else Broke, r.escalated)
    else if s.onFailure == OnReject then Run(Rejected(target), r.escalated)
    else if s.onFailure == OnEscalate then Run(Done(out), r.escalated + [s])
    else r
  }

  lemma ResumedIs(r: Run, a: Action)
    requires r.ending.Done?
    ensures var e := Perform(a, r.ending.out);
            Resumed(r, a.step, a.target, a.outcome) ==
            Run(e.ending, r.escalated + if e.escalates then [a.step] else [])
  {
    assert r.escalated + [] == r.escalated;
  }

  /** Forward takes every step without a disposition: from the instance's region path through the
      chain to the canonical path. */
  lemma ForwardStep(lib: Library, steps: seq<Step>, x: Value)
    requires steps != []
    ensures var r, s := ForwardRun(lib, steps[..|steps| - 1], x), steps[|steps| - 1];
            ForwardRun(lib, steps, x) ==
            if !r.ending.Done? || s.disposition.Some? then r
            else Resumed(r, s, s.canonicalPath, RunForward(lib, s.chain, ReadAt(x, s.regionPath)))
  {
    var r, s := ForwardRun(lib, steps[..|steps| - 1], x), steps[|steps| - 1];
    RunLast(There, lib, x, steps);
    if r.ending.Done? { ResumedIs(r, ForwardAction(lib, x, s)); }
  }

  /** Reverse takes the reversible ones of them, from the canonical path back to the region path. */
  lemma ReverseStep(lib: Library, steps: seq<Step>, y: Value)
    requires steps != []
    ensures var r, s := ReverseRun(lib, steps[..|steps| - 1], y), steps[|steps| - 1];
            ReverseRun(lib, steps, y) ==
            if !r.ending.Done? || s.disposition.Some? || !s.reversible then r
            else Resumed(r, s, s.regionPath, RunReverse(lib, s.chain, ReadAt(y, s.canonicalPath)))
  {
    var r, s := ReverseRun(lib, steps[..|steps| - 1], y), steps[|steps| - 1];
    RunLast(Back, lib, y, steps);
    if r.ending.Done? { ResumedIs(r, ReverseAction(lib, y, s)); }
  }

  // ------------------------------------------------- what a run leaves at each path

  ghost predicate Separate(a: Option<string>, b: Option<string>) {
    a.Some? && b.Some? ==> Incomparable(Parts(a.value), Parts(b.value))
  }

  /** No target path is equal to, above or below another. */
  ghost predicate PrefixFree(actions: seq<Action>) {
    forall i, j :: 0 <= i < j < |actions| ==> Separate(actions[i].target, actions[j].target)
  }

  ghost predicate TargetOpen(out: Value, target: Option<string>) {
    target.Some? ==> Open(out, Parts(target.value))
  }

  /** What the action leaves at its target when the path held `before`. */
  function Left(a: Action, before: Value): Value {
    match a.outcome
    case Ok(v) => v
    case _ => if a.step.onFailure.OnDefault? then Null else before
  }

  lemma PerformOpen(a: Action, out: Value)
    requires out.Obj? && TargetOpen(out, a.target)
    ensures Perform(a, out).ending.Broke? <==> a.outcome.Crashed?
    ensures Perform(a, out).ending.Done? ==> Perform(a, out).ending.out.Obj?
    ensures Perform(a, out).ending.Done? && a.target.Some? ==>
              ReadAt(Perform(a, out).ending.out, a.target) == Left(a, ReadAt(out, a.target))
  {
    if a.target.Some? {
      var p := Parts(a.target.value);
      forall v: Value ensures Write(out, p, v).Some? && Read(Write(out, p, v).value, p) == v {
        WriteSucceedsIffOpen(out, p, v);
        ReadAfterWrite(out, p, v);
      }
    }
  }

  lemma PerformFrame(a: Action, out: Value, other: Option<string>)
    requires out.Obj? && TargetOpen(out, a.target) && Separate(a.target, other)
    requires Perform(a, out).ending.Done?
    ensures ReadAt(Perform(a, out).ending.out, other) == ReadAt(out, other)
    ensures TargetOpen(out, other) ==> TargetOpen(Perform(a, out).ending.out, other)
  {
    if a.target.Some? && other.Some? {
      var p, q := Parts(a.target.value), Parts(other.value);
      forall v: Value | Write(out, p, v).Some?
        ensures Read(Write(out, p, v).value, q) == Read(out, q) && Open(Write(out, p, v).value, q) == Open(out, q)
      {
        WriteFrame(out, p, v, q);
      }
    }
  }

  /** Over prefix-free targets a run that ends normally leaves, at each target, what that
      one action left there; every other separate path reads as it did before. */
  lemma {:induction false} RunPointwise(actions: seq<Action>, out: Value)
    requires out.Obj? && PrefixFree(actions)
    requires forall i :: 0 <= i < |actions| ==> TargetOpen(out, actions[i].target)
    ensures PerformAll(actions, out).ending.Broke? ==> exists i :: 0 <= i < |actions| && actions[i].outcome.Crashed?
    ensures PerformAll(actions, out).ending.Done? ==>
              && (forall i :: 0 <= i < |actions| ==> !actions[i].outcome.Crashed?)
              && (forall i :: 0 <= i < |actions| && actions[i].target.Some? ==>
                    ReadAt(PerformAll(actions, out).ending.out, actions[i].target) ==
                        Left(actions[i], ReadAt(out, actions[i].target)))
    ensures PerformAll(actions, out).ending.Done? ==>
              forall q :: (forall i :: 0 <= i < |actions| ==> Separate(actions[i].target, q)) ==>
                ReadAt(PerformAll(actions, out).ending.out, q) == ReadAt(out, q)
    decreases |actions|
  {
    if actions != [] {
      var a, rest := actions[0], actions[1..];
      PerformOpen(a, out);
      var e := Perform(a, out);
      if e.ending.Done? {
        var out' := e.ending.out;
        assert forall i :: 0 <= i < |rest| ==> rest[i] == actions[i + 1];
        forall i | 0 <= i < |rest|
          ensures TargetOpen(out', rest[i].target) && ReadAt(out', rest[i].target) == ReadAt(out, rest[i].target)
        {
          PerformFrame(a, out, rest[i].target);
        }
        RunPointwise(rest, out');
        var final := PerformAll(rest, out').ending;
        if final.Done? {
          forall i | 0 <= i < |actions| && actions[i].target.Some?
            ensures ReadAt(final.out, actions[i].target) == Left(actions[i], ReadAt(out, actions[i].target))
          {
            if i == 0 {
              assert forall j :: 0 <= j < |rest| ==> Separate(rest[j].target, a.target);
            } else {
              assert rest[i - 1] == actions[i];
            }
          }
          forall q | forall i :: 0 <= i < |actions| ==> Separate(actions[i].target, q)
            ensures ReadAt(final.out, q) == ReadAt(out, q)
          {
            assert Separate(actions[0].target, q);
            PerformFrame(a, out, q);
          }
        }
      }
    }
  }

  /** Every escalated step is one whose chain failed and asked to escalate; and on a normal
      ending all of those are recorded. */
  lemma {:induction false} EscalationsExact(actions: seq<Action>, out: Value)
    ensures forall s :: s in PerformAll(actions, out).escalated ==>
              exists i :: 0 <= i < |actions| && actions[i].step == s && actions[i].outcome.Failed? &&
                  s.onFailure.OnEscalate?
    ensures PerformAll(actions, out).ending.Done? ==>
              forall i :: 0 <= i < |actions| && actions[i].outcome.Failed? && actions[i].step.onFailure.OnEscalate? ==>
                actions[i].step in PerformAll(actions, out).escalated
    ensures PerformAll(actions, out).ending.Done? ==>
              forall i :: 0 <= i < |actions| && actions[i].outcome.Failed? ==> !actions[i].step.onFailure.OnReject?
    decreases |actions|
  {
    if actions != [] {
      var e, rest := Perform(actions[0], out), actions[1..];
      assert forall i :: 0 <= i < |rest| ==> rest[i] == actions[i + 1];
      if e.ending.Done? {
        EscalationsExact(rest, e.ending.out);
      }
    }
  }

  /** Paths that nothing has been written to yet are open in the empty document. */
  lemma EmptyIsOpen(target: Option<string>)
    ensures TargetOpen(EMPTY, target) && ReadAt(EMPTY, target) == Null
  {
  }
}
