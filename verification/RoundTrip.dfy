/**
 mapping/roundtrip.py, and the theorems about a compiled plan run forward and back.
 */
module RoundTrip {
  import opened Wrappers
  import opened Documents
  import opened Objects
  import opened Transforms
  import opened Interpreter
  import opened Compiler
  import CompileRules

  /** No mapped step's canonical path equals, contains or lies under another's. */
  ghost predicate CanonicalFree(steps: seq<Step>) {
    forall i, j :: 0 <= i < j < |steps| && Mapped(steps[i]) && Mapped(steps[j]) ==>
      Separate(steps[i].canonicalPath, steps[j].canonicalPath)
  }

  ghost predicate RegionFree(steps: seq<Step>) {
    forall i, j :: 0 <= i < j < |steps| && Mapped(steps[i]) && Mapped(steps[j]) ==>
      Separate(steps[i].regionPath, steps[j].regionPath)
  }

  // ---------------------------------------------------------- actions and their steps

  lemma {:induction false} ForwardActionsOf(lib: Library, x: Value, steps: seq<Step>)
    ensures forall i :: 0 <= i < |steps| && Mapped(steps[i]) ==>
            ForwardAction(lib, x, steps[i]) in ForwardActions(lib, x, steps)
    ensures forall a :: a in ForwardActions(lib, x, steps) ==>
              exists i :: 0 <= i < |steps| && Mapped(steps[i]) && a == ForwardAction(lib, x, steps[i])
    decreases |steps|
  {
    if steps != [] {
      ForwardActionsOf(lib, x, steps[1..]);
      assert forall i :: 0 <= i < |steps[1..]| ==> steps[1..][i] == steps[i + 1];
    }
  }

  lemma {:induction false} ForwardTargetsFree(lib: Library, x: Value, steps: seq<Step>)
    requires CanonicalFree(steps)
    ensures PrefixFree(ForwardActions(lib, x, steps))
    decreases |steps|
  {
    if steps != [] {
      var rest := steps[1..];
      assert forall i :: 0 <= i < |rest| ==> rest[i] == steps[i + 1];
      ForwardTargetsFree(lib, x, rest);
      ForwardActionsOf(lib, x, rest);
      var later := ForwardActions(lib, x, rest);
      if Mapped(steps[0]) {
        forall j | 0 <= j < |later|
          ensures Separate(steps[0].canonicalPath, later[j].target)
        {
          assert later[j] in later;
        }
        PutFirst(ForwardAction(lib, x, steps[0]), later);
      }
    }
  }

  lemma PutFirst(a: Action, later: seq<Action>)
    requires PrefixFree(later) && forall j :: 0 <= j < |later| ==> Separate(a.target, later[j].target)
    ensures PrefixFree([a] + later)
  {
  }

  lemma {:induction false} ReverseActionsOf(lib: Library, y: Value, steps: seq<Step>)
    ensures forall i :: 0 <= i < |steps| && Undoable(steps[i]) ==>
            ReverseAction(lib, y, steps[i]) in ReverseActions(lib, y, steps)
    ensures forall a :: a in ReverseActions(lib, y, steps) ==>
              exists i :: 0 <= i < |steps| && Undoable(steps[i]) && a == ReverseAction(lib, y, steps[i])
    decreases |steps|
  {
    if steps != [] {
      ReverseActionsOf(lib, y, steps[1..]);
      assert forall i :: 0 <= i < |steps[1..]| ==> steps[1..][i] == steps[i + 1];
    }
  }

  lemma {:induction false} ReverseTargetsFree(lib: Library, y: Value, steps: seq<Step>)
    requires RegionFree(steps)
    ensures PrefixFree(ReverseActions(lib, y, steps))
    decreases |steps|
  {
    if steps != [] {
      var rest := steps[1..];
      assert forall i :: 0 <= i < |rest| ==> rest[i] == steps[i + 1];
      ReverseTargetsFree(lib, y, rest);
      ReverseActionsOf(lib, y, rest);
      var later := ReverseActions(lib, y, rest);
      if Undoable(steps[0]) {
        forall j | 0 <= j < |later| ensures Separate(steps[0].regionPath, later[j].target) { assert later[j] in later; }
        PutFirst(ReverseAction(lib, y, steps[0]), later);
      }
    }
  }

  /** What a completed forward run leaves at each mapped step's canonical path, whatever the
      order of the steps. */
  lemma ForwardPointwise(lib: Library, steps: seq<Step>, x: Value)
    requires CanonicalFree(steps)
    ensures ForwardRun(lib, steps, x).ending.Broke? ==>
              exists i :: 0 <= i < |steps| && Mapped(steps[i]) && ForwardAction(lib, x, steps[i]).outcome.Crashed?
    ensures ForwardRun(lib, steps, x).ending.Done? ==>
              forall i :: 0 <= i < |steps| && Mapped(steps[i]) ==>
                var a := ForwardAction(lib, x, steps[i]);
                && !a.outcome.Crashed?
                && (a.target.Some? ==> ReadAt(ForwardRun(lib, steps, x).ending.out, a.target) == Left(a, Null))
                && (a.outcome.Failed? && a.step.onFailure.OnEscalate? ==> a.step in ForwardRun(lib, steps, x).escalated)
                && (a.outcome.Failed? ==> !a.step.onFailure.OnReject?)
  {
    var actions := ForwardActions(lib, x, steps);
    ForwardActionsOf(lib, x, steps);
    ForwardTargetsFree(lib, x, steps);
    forall i | 0 <= i < |actions|
      ensures TargetOpen(EMPTY, actions[i].target) && ReadAt(EMPTY, actions[i].target) == Null
    {
      EmptyIsOpen(actions[i].target);
    }
    RunPointwise(actions, EMPTY);
    EscalationsExact(actions, EMPTY);
    var run := ForwardRun(lib, steps, x);
    if run.ending.Broke? {
      var i :| 0 <= i < |actions| && actions[i].outcome.Crashed?;
      assert actions[i] in actions;
    }
  }

  lemma ReversePointwise(lib: Library, steps: seq<Step>, y: Value)
    requires RegionFree(steps)
    ensures ReverseRun(lib, steps, y).ending.Broke? ==>
              exists i :: 0 <= i < |steps| && Undoable(steps[i]) && ReverseAction(lib, y, steps[i]).outcome.Crashed?
    ensures ReverseRun(lib, steps, y).ending.Done? ==>
              forall i :: 0 <= i < |steps| && Undoable(steps[i]) ==>
                var a := ReverseAction(lib, y, steps[i]);
                a.target.Some? ==> ReadAt(ReverseRun(lib, steps, y).ending.out, a.target) == Left(a, Null)
  {
    var actions := ReverseActions(lib, y, steps);
    ReverseActionsOf(lib, y, steps);
    ReverseTargetsFree(lib, y, steps);
    forall i | 0 <= i < |actions|
      ensures TargetOpen(EMPTY, actions[i].target) && ReadAt(EMPTY, actions[i].target) == Null
    {
      EmptyIsOpen(actions[i].target);
    }
    RunPointwise(actions, EMPTY);
    if ReverseRun(lib, steps, y).ending.Broke? {
      var i :| 0 <= i < |actions| && actions[i].outcome.Crashed?;
      assert actions[i] in actions;
    }
  }

  // ------------------------------------------------------------ weight-5 attributes

  /** Every mapping without a disposition names a canonical path, and none of these meets another. */
  ghost predicate SeparatePaths(entries: seq<Entry>) {
    && (forall i :: 0 <= i < |entries| && entries[i].disposition.None? ==> entries[i].canonical.Some?)
    && forall i, j :: 0 <= i < j < |entries| && entries[i].disposition.None? && entries[j].disposition.None? ==>
         Separate(entries[i].canonical, entries[j].canonical)
  }

  /** Over an accepted spec with such canonical paths a normal end of forward leaves every entry
      of weight 5 either written at its path or escalated; any other ending is MappingRejected or
      an exception out of some step's chain. */
  lemma CriticalStepNeverSilentlyLost(spec: Spec, ir: seq<Record>, types: Types, steps: seq<Step>, lib: Library,
        x: Value)
    requires DictTables(spec) && Compile(spec, ir, types) == Compiled(steps) && SeparatePaths(spec.mappings)
    ensures |steps| == |spec.mappings|
    ensures var run := ForwardRun(lib, steps, x);
            match run.ending
            case Rejected(_) => true
            case Broke =>
              exists i :: 0 <= i < |steps| && Mapped(steps[i]) && ForwardAction(lib, x, steps[i]).outcome.Crashed?
            case Done(out) =>
              forall i :: 0 <= i < |spec.mappings| ==>
                var e := spec.mappings[i];
                e.disposition.None? && e.weight.Some? && e.weight.value >= 5 ==>
                  var outcome := RunForward(lib, steps[i].chain, ReadAt(x, e.region));
                  if outcome.Ok? then ReadAt(out, e.canonical) == outcome.value else steps[i] in run.escalated
  {
    AcceptedPlanSound(spec, ir, types);
    CompileRules.StepsFollowEntries(spec, ir, types);
    ForwardPointwise(lib, steps, x);
  }

  // ------------------------------------------------------------------ the round trip

  /** The step maps one path to another through transforms that are each invertible at the
      value the instance gives them. */
  ghost predicate StepInvertible(lib: Library, s: Step, x: Value) {
    && s.canonicalPath.Some? && s.regionPath.Some?
    && ChainInvertible(lib, s.chain, ReadAt(x, s.regionPath))
  }

  /** region -> canonical -> region gives the value back at every invertible step. */
  lemma StepRoundTrips(lib: Library, steps: seq<Step>, x: Value, i: nat)
    requires CanonicalFree(steps) && RegionFree(steps)
    requires i < |steps| && Undoable(steps[i]) && TablesDistinct(steps[i].chain) && StepInvertible(lib, steps[i], x)
    requires ForwardRun(lib, steps, x).ending.Done?
    requires ReverseRun(lib, steps, ForwardRun(lib, steps, x).ending.out).ending.Done?
    ensures ReadAt(ReverseRun(lib, steps, ForwardRun(lib, steps, x).ending.out).ending.out, steps[i].regionPath) ==
            ReadAt(x, steps[i].regionPath)
  {
    var out := ForwardRun(lib, steps, x).ending.out;
    ForwardPointwise(lib, steps, x);
    ReversePointwise(lib, steps, out);
    ChainRoundTrips(lib, steps[i].chain, ReadAt(x, steps[i].regionPath));
    assert ForwardAction(lib, x, steps[i]).outcome.Ok?;
    assert ReverseAction(lib, out, steps[i]).outcome.Ok?;
  }

  /** The round-trip theorem for accepted bidirectional specs. */
  lemma AcceptedSpecRoundTrips(spec: Spec, ir: seq<Record>, types: Types, steps: seq<Step>, lib: Library, x: Value)
    requires DictTables(spec) && spec.bidirectional && Compile(spec, ir, types) == Compiled(steps)
    requires CanonicalFree(steps) && RegionFree(steps)
    ensures ForwardRun(lib, steps, x).ending.Done? ==>
              var back := ReverseRun(lib, steps, ForwardRun(lib, steps, x).ending.out);
              back.ending.Done? ==>
                forall i :: 0 <= i < |steps| && Mapped(steps[i]) && StepInvertible(lib, steps[i], x) ==>
                  ReadAt(back.ending.out, steps[i].regionPath) == ReadAt(x, steps[i].regionPath)
  {
    AcceptedPlanSound(spec, ir, types);
    if ForwardRun(lib, steps, x).ending.Done? &&
        ReverseRun(lib, steps, ForwardRun(lib, steps, x).ending.out).ending.Done? {
      forall i | 0 <= i < |steps| && Mapped(steps[i]) && StepInvertible(lib, steps[i], x)
        ensures ReadAt(ReverseRun(lib, steps, ForwardRun(lib, steps, x).ending.out).ending.out, steps[i].regionPath) ==
                ReadAt(x, steps[i].regionPath)
      {
        StepRoundTrips(lib, steps, x, i);
      }
    }
  }

  // -------------------------------------------------------------------- losses

  datatype Loss = Loss(path: string, weight: int, declared: bool, kind: Option<string>)

  predicate Differs(s: Step, x: Value, back: Value) {
    Mapped(s) && s.regionPath.Some? && Canon(ReadAt(x, s.regionPath)) != Canon(ReadAt(back, s.regionPath))
  }

  function LossOf(s: Step): Loss
    requires s.regionPath.Some?
  {
    Loss(s.regionPath.value, s.weight, s.lossKind.Some?, s.lossKind)
  }

  function Losses(steps: seq<Step>, x: Value, back: Value): seq<Loss> {
    if steps == [] then []
    else (if Differs(steps[0], x, back) then [LossOf(steps[0])] else []) + Losses(steps[1..], x, back)
  }

  method DiffAttributes(steps: seq<Step>, instance: Object, recovered: Object) returns (losses: seq<Loss>)
    ensures losses == Losses(steps, Erase(instance), Erase(recovered))
    ensures losses == [] <==> forall i :: 0 <= i < |steps| ==> !Differs(steps[i], Erase(instance), Erase(recovered))
  {
    losses := [];
    ghost var x, back := Erase(instance), Erase(recovered);
    for i := 0 to |steps|
      invariant losses + Losses(steps[i..], x, back) == Losses(steps, x, back)
    {
      var s := steps[i];
      NextLoss(losses, steps, x, back, i);
      if s.disposition.Some? || s.regionPath.None? { continue; }
      var original := ReadPath(instance, s.regionPath);
      var returned := ReadPath(recovered, s.regionPath);
      if Canon(Erase(original)) != Canon(Erase(returned)) { losses := losses + [LossOf(s)]; }
    }
    NoLossIffNoneDiffers(steps, x, back);
  }

  lemma NextLoss(found: seq<Loss>, steps: seq<Step>, x: Value, back: Value, i: nat)
    requires i < |steps|
    ensures found + Losses(steps[i..], x, back)
            == (if Differs(steps[i], x, back) then found + [LossOf(steps[i])] else found) +
                Losses(steps[i + 1..], x, back)
  {
    assert steps[i..][1..] == steps[i + 1..];
  }

  lemma {:induction false} LossHasStep(steps: seq<Step>, x: Value, back: Value, l: Loss) returns (i: nat)
    requires l in Losses(steps, x, back)
    ensures i < |steps| && Differs(steps[i], x, back) && l == LossOf(steps[i])
    decreases |steps|
  {
    if Differs(steps[0], x, back) && l == LossOf(steps[0]) {
      i := 0;
    } else {
      i := LossHasStep(steps[1..], x, back, l);
      i := i + 1;
    }
  }

  lemma {:induction false} StepHasLoss(steps: seq<Step>, x: Value, back: Value, i: nat)
    requires i < |steps| && Differs(steps[i], x, back)
    ensures LossOf(steps[i]) in Losses(steps, x, back)
    decreases |steps|
  {
    if i > 0 { StepHasLoss(steps[1..], x, back, i - 1); }
  }

  lemma NoLossIffNoneDiffers(steps: seq<Step>, x: Value, back: Value)
    ensures Losses(steps, x, back) == [] <==> forall i :: 0 <= i < |steps| ==> !Differs(steps[i], x, back)
  {
    forall i | 0 <= i < |steps| && Differs(steps[i], x, back) ensures Losses(steps, x, back) != [] {
      StepHasLoss(steps, x, back, i);
    }
    if Losses(steps, x, back) != [] {
      var l := Losses(steps, x, back)[0];
      assert l in Losses(steps, x, back);
      var i := LossHasStep(steps, x, back, l);
    }
  }

  // ----------------------------------------------------- a plan that is all invertible

  lemma {:induction false} AllOkCompletes(actions: seq<Action>, out: Value)
    requires out.Obj? && PrefixFree(actions)
    requires forall i :: 0 <= i < |actions| ==> actions[i].outcome.Ok? && TargetOpen(out, actions[i].target)
    ensures PerformAll(actions, out).ending.Done? && PerformAll(actions, out).escalated == []
    decreases |actions|
  {
    if actions != [] {
      PerformOpen(actions[0], out);
      var out', rest := Perform(actions[0], out).ending.out, actions[1..];
      forall i | 0 <= i < |rest| ensures rest[i].outcome.Ok? && TargetOpen(out', rest[i].target) {
        assert rest[i] == actions[i + 1];
        PerformFrame(actions[0], out, rest[i].target);
      }
      AllOkCompletes(rest, out');
    }
  }

  ghost predicate AllInvertible(lib: Library, steps: seq<Step>, x: Value) {
    forall i :: 0 <= i < |steps| && Mapped(steps[i]) ==> StepInvertible(lib, steps[i], x)
  }

  /** Over values, and what a round trip brings back when both runs complete. */
  function ValueTrip(lib: Library, steps: seq<Step>, x: Value): Option<Value> {
    var there := ForwardRun(lib, steps, x).ending;
    if !there.Done? then None
    else
      var back := ReverseRun(lib, steps, there.out).ending;
      if !back.Done? then None else Some(back.out)
  }

  /** When every mapped step is invertible on the instance, nothing is rejected, escalated or
      different in either direction. */
  lemma LosslessValues(spec: Spec, ir: seq<Record>, types: Types, steps: seq<Step>, lib: Library, x: Value)
    requires DictTables(spec) && spec.bidirectional && Compile(spec, ir, types) == Compiled(steps)
    requires CanonicalFree(steps) && RegionFree(steps) && AllInvertible(lib, steps, x)
    ensures ValueTrip(lib, steps, x).Some?
    ensures forall i :: 0 <= i < |steps| ==> !Differs(steps[i], x, ValueTrip(lib, steps, x).value)
    ensures ForwardRun(lib, steps, x).escalated == []
    ensures ReverseRun(lib, steps, ForwardRun(lib, steps, x).ending.out).escalated == []
  {
    AcceptedPlanSound(spec, ir, types);
    LosslessForward(lib, steps, x);
    LosslessReverse(lib, steps, x);
    AcceptedSpecRoundTrips(spec, ir, types, steps, lib, x);
  }

  ghost predicate SoundPlan(steps: seq<Step>) {
    forall i :: 0 <= i < |steps| ==> SoundStep(true, steps[i])
  }

  lemma LosslessForward(lib: Library, steps: seq<Step>, x: Value)
    requires SoundPlan(steps) && CanonicalFree(steps) && AllInvertible(lib, steps, x)
    ensures ForwardRun(lib, steps, x).ending.Done? && ForwardRun(lib, steps, x).escalated == []
  {
    var actions := ForwardActions(lib, x, steps);
    ForwardActionsOf(lib, x, steps);
    ForwardTargetsFree(lib, x, steps);
    forall k | 0 <= k < |actions| ensures actions[k].outcome.Ok? && TargetOpen(EMPTY, actions[k].target) {
      assert actions[k] in actions;
      var i :| 0 <= i < |steps| && Mapped(steps[i]) && actions[k] == ForwardAction(lib, x, steps[i]);
      ChainRoundTrips(lib, steps[i].chain, ReadAt(x, steps[i].regionPath));
    }
    AllOkCompletes(actions, EMPTY);
  }

  lemma LosslessStep(lib: Library, steps: seq<Step>, x: Value, i: nat)
    requires SoundPlan(steps) && CanonicalFree(steps) && AllInvertible(lib, steps, x)
    requires i < |steps| && Mapped(steps[i]) && ForwardRun(lib, steps, x).ending.Done?
    ensures ReverseAction(lib, ForwardRun(lib, steps, x).ending.out, steps[i]).outcome.Ok?
  {
    ForwardPointwise(lib, steps, x);
    ChainRoundTrips(lib, steps[i].chain, ReadAt(x, steps[i].regionPath));
    assert ForwardAction(lib, x, steps[i]).outcome.Ok?;
  }

  lemma LosslessReverse(lib: Library, steps: seq<Step>, x: Value)
    requires SoundPlan(steps) && CanonicalFree(steps) && RegionFree(steps) && AllInvertible(lib, steps, x)
    requires ForwardRun(lib, steps, x).ending.Done?
    ensures var run := ReverseRun(lib, steps, ForwardRun(lib, steps, x).ending.out);
            run.ending.Done? && run.escalated == []
  {
    var out := ForwardRun(lib, steps, x).ending.out;
    var actions := ReverseActions(lib, out, steps);
    ReverseActionsOf(lib, out, steps);
    ReverseTargetsFree(lib, out, steps);
    forall k | 0 <= k < |actions| ensures actions[k].outcome.Ok? && TargetOpen(EMPTY, actions[k].target) {
      assert actions[k] in actions;
      var i :| 0 <= i < |steps| && Undoable(steps[i]) && actions[k] == ReverseAction(lib, out, steps[i]);
      LosslessStep(lib, steps, x, i);
      EmptyIsOpen(actions[k].target);
    }
    AllOkCompletes(actions, EMPTY);
  }
}
