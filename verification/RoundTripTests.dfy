/**
 mapping/roundtrip.py over the program's objects: one seed's trip, the losses its differ reports,
 and the gate over all seeds.
 */
module RoundTripTests {
  import opened Wrappers
  import opened Documents
  import opened Objects
  import opened Transforms
  import opened Interpreter
  import opened Compiler
  import opened RoundTrip
  import opened SharedPaths
  import opened Aliasing
  import opened InstanceAfter

  // ------------------------------------------------------------------------ one trip

  function Outward(lib: Library, steps: seq<Step>, x: Value): Travel { Go(There, lib, steps, Departure(x)) }

  function Homeward(lib: Library, steps: seq<Step>, x: Value): Travel {
    var world := Outward(lib, steps, x).world;
    Go(Back, lib, steps, Returning(world.instance, world.canonical))
  }

  /** How the run of one seed ended early, or what the differ reported. */
  datatype Trip = Stopped(halt: Halt) | Returned(losses: seq<Loss>)

  /** Forward, reverse, and the differ on the instance as it then is. */
  function TripOf(lib: Library, steps: seq<Step>, x: Value): Trip {
    if Outward(lib, steps, x).halt != Completed then Stopped(Outward(lib, steps, x).halt)
    else
      var t := Homeward(lib, steps, x);
      if t.halt != Completed then Stopped(t.halt)
      else Returned(Losses(steps, Erase(t.world.instance), Erase(t.world.back)))
  }

  // --------------------------------------------------- trips over separate regions

  /** Reverse over separate regions is reverse over values, and changes nothing it did not
      build. */
  lemma ReverseIsValues(lib: Library, steps: seq<Step>, x: Value)
    requires RegionFree(steps)
    ensures var start, t := Outward(lib, steps, x).world, Homeward(lib, steps, x);
            var r := ReverseRun(lib, steps, Erase(start.canonical));
            && Agrees(t.halt, r.ending) && t.escalated == r.escalated
            && (r.ending.Done? ==> r.ending.out == Erase(t.world.back))
            && t.world.instance == start.instance && t.world.canonical == start.canonical
  {
    var world := Outward(lib, steps, x).world;
    ForwardOlder(lib, steps, x);
    forall i, j | 0 <= i < j < |steps| && Undoable(steps[i]) && Undoable(steps[j])
      ensures Separate(Destination(Back, steps[i]), Destination(Back, steps[j]))
    {
      assert Separate(steps[i].regionPath, steps[j].regionPath);
    }
    FreeRunIsValues(Back, lib, steps, Returning(world.instance, world.canonical));
  }

  /** Over separate regions a trip returns exactly when it does over values, with what it brings
      back there. */
  lemma TripIsValues(lib: Library, steps: seq<Step>, x: Value)
    requires RegionFree(steps)
    ensures TripOf(lib, steps, x).Returned? <==> ValueTrip(lib, steps, x).Some?
    ensures TripOf(lib, steps, x).Returned? ==>
              && Outward(lib, steps, x).halt == Completed
              && Homeward(lib, steps, x).world.instance == Outward(lib, steps, x).world.instance
              && Erase(Homeward(lib, steps, x).world.back) == ValueTrip(lib, steps, x).value
  {
    ForwardIsValues(lib, steps, x);
    ReverseIsValues(lib, steps, x);
  }

  /** The differ finds a step changed exactly when what it gets back is not what its region of the
      instance then holds. */
  lemma DiffersIff(lib: Library, steps: seq<Step>, x: Value, i: nat)
    requires RegionFree(steps) && TripOf(lib, steps, x).Returned? && i < |steps|
    ensures Differs(steps[i], Erase(Homeward(lib, steps, x).world.instance), Erase(Homeward(lib, steps, x).world.back))
            <==> && Mapped(steps[i]) && steps[i].regionPath.Some?
                 && Canon(Kept(lib, steps, x, i)) != Canon(Recovered(lib, steps, x, steps[i]))
  {
    TripIsValues(lib, steps, x);
    if Mapped(steps[i]) && steps[i].regionPath.Some? {
      InstanceHolds(lib, steps, x, i);
      TripGivesBack(lib, steps, x, i);
    }
  }

  /** A step whose loss the differ reports. */
  ghost predicate Reported(lib: Library, steps: seq<Step>, x: Value, i: nat)
    requires i < |steps|
  {
    && Mapped(steps[i]) && steps[i].regionPath.Some?
    && Canon(Kept(lib, steps, x, i)) != Canon(Recovered(lib, steps, x, steps[i]))
  }

  /** The loss carries the step's region path, weight and loss kind, and is declared exactly when
      the step has one. */
  ghost predicate Tells(l: Loss, s: Step) {
    s.regionPath == Some(l.path) && l.weight == s.weight && l.kind == s.lossKind && l.declared == s.lossKind.Some?
  }

  /** The losses of a completed trip over separate regions, whatever the canonical paths. */
  lemma LossesExact(lib: Library, steps: seq<Step>, x: Value, l: Loss)
    requires RegionFree(steps) && TripOf(lib, steps, x).Returned?
    ensures l in TripOf(lib, steps, x).losses
            <==> exists i :: 0 <= i < |steps| && Reported(lib, steps, x, i) && Tells(l, steps[i])
  {
    var left, back := Erase(Homeward(lib, steps, x).world.instance), Erase(Homeward(lib, steps, x).world.back);
    forall i | 0 <= i < |steps| ensures Differs(steps[i], left, back) <==> Reported(lib, steps, x, i) {
      DiffersIff(lib, steps, x, i);
    }
    if l in Losses(steps, left, back) {
      var i := LossHasStep(steps, left, back, l);
    }
    forall i | 0 <= i < |steps| && Reported(lib, steps, x, i) ensures LossOf(steps[i]) in Losses(steps, left, back) {
      StepHasLoss(steps, left, back, i);
    }
  }

  lemma NothingReported(lib: Library, steps: seq<Step>, x: Value)
    requires RegionFree(steps) && ValueTrip(lib, steps, x).Some?
    requires forall i :: 0 <= i < |steps| ==> !Reported(lib, steps, x, i)
    ensures TripOf(lib, steps, x) == Returned([])
  {
    TripIsValues(lib, steps, x);
    var left, back := Erase(Homeward(lib, steps, x).world.instance), Erase(Homeward(lib, steps, x).world.back);
    forall i | 0 <= i < |steps| ensures !Differs(steps[i], left, back) {
      assert !Reported(lib, steps, x, i);
      DiffersIff(lib, steps, x, i);
    }
    NoLossIffNoneDiffers(steps, left, back);
  }

  lemma {:induction false} CopyComesUndone(lib: Library, chain: seq<Call>, v: Value)
    requires Copying(chain) && RunForward(lib, chain, v).Ok?
    ensures forall w :: RunReverse(lib, chain, w) == Ok(w)
    decreases |chain|
  {
    if chain != [] {
      var front, last := chain[..|chain| - 1], chain[|chain| - 1];
      CopyRuns(lib, chain, v, |chain| - 1);
      CopyComesUndone(lib, front, v);
      assert forall w :: Reverse(lib, last, w) == Ok(w);
    }
  }

  lemma {:induction false} CopyRuns(lib: Library, chain: seq<Call>, v: Value, k: nat)
    requires Copying(chain) && RunForward(lib, chain, v).Ok? && k < |chain|
    ensures Callable(chain[k]) && RunForward(lib, chain[..k], v).Ok?
    decreases |chain|
  {
    assert Forward(lib, chain[0], v) == Ok(v);
    if k > 0 {
      CopyRuns(lib, chain[1..], v, k - 1);
      assert chain[..k][1..] == chain[1..][..k - 1];
    }
  }

  /** A step that only copies is never reported while its canonical path is its own: whatever is
      written below it, the differ compares the dictionary with itself. */
  lemma CopyNeverReported(lib: Library, steps: seq<Step>, x: Value, i: nat)
    requires i < |steps| && Shares(lib, steps[i], x) && steps[i].reversible && !Overwritten(lib, steps, x, i)
    ensures !Reported(lib, steps, x, i)
  {
    CopyComesUndone(lib, steps[i].chain, ReadAt(x, steps[i].regionPath));
  }

  /** Any other step is reported exactly when its value does not come back. */
  lemma OthersReportedIff(lib: Library, steps: seq<Step>, x: Value, i: nat)
    requires i < |steps| && Mapped(steps[i]) && steps[i].regionPath.Some? && !Shares(lib, steps[i], x)
    ensures Reported(lib, steps, x, i) <==>
            Canon(Recovered(lib, steps, x, steps[i])) != Canon(ReadAt(x, steps[i].regionPath))
  {
  }

  lemma CopyValue(lib: Library, chain: seq<Call>, v: Value)
    requires Copying(chain) && RunForward(lib, chain, v).Ok?
    ensures RunForward(lib, chain, v) == Ok(v)
  {
    EraseMark(v, 0, Given, []);
    CopyIsSame(lib, chain, Mark(v, 0, Given, []), 0);
  }

  /** Over prefix-free canonical paths no region changes at all. */
  lemma FreeKept(lib: Library, steps: seq<Step>, x: Value, i: nat)
    requires CanonicalFree(steps) && i < |steps| && Mapped(steps[i])
    ensures Kept(lib, steps, x, i) == ReadAt(x, steps[i].regionPath)
  {
    if Shares(lib, steps[i], x) {
      forall m | i < m < |steps| ensures !Overwrites(lib, steps, x, i, m) {
        OthersClear(steps, i, m);
      }
      FreeHeld(lib, steps, x, i);
      CopyValue(lib, steps[i].chain, ReadAt(x, steps[i].regionPath));
    }
  }

  /** Over prefix-free paths on both sides a completed trip reports exactly the steps whose own
      chain, there and back, does not give the value up to Python's ==. */
  lemma FreeLossesExact(lib: Library, steps: seq<Step>, x: Value, l: Loss)
    requires CanonicalFree(steps) && RegionFree(steps) && TripOf(lib, steps, x).Returned?
    ensures l in TripOf(lib, steps, x).losses
            <==> exists i :: 0 <= i < |steps| && Mapped(steps[i]) && steps[i].regionPath.Some? && Tells(l, steps[i])
                             && var v := ReadAt(x, steps[i].regionPath); Canon(AloneTrip(lib, steps[i], v)) != Canon(v)
  {
    LossesExact(lib, steps, x, l);
    forall i | 0 <= i < |steps| && Mapped(steps[i])
      ensures Recovered(lib, steps, x, steps[i]) == AloneTrip(lib, steps[i], ReadAt(x, steps[i].regionPath))
      ensures Kept(lib, steps, x, i) == ReadAt(x, steps[i].regionPath)
    {
      FreeStepIsAlone(lib, steps, x, i);
      FreeKept(lib, steps, x, i);
    }
  }

  /** Every loss the differ reports lies on a step that is not invertible on the instance. */
  lemma EveryLossLiesElsewhere(spec: Spec, ir: seq<Record>, types: Types, steps: seq<Step>, lib: Library, x: Value,
        l: Loss)
    requires DictTables(spec) && spec.bidirectional && Compile(spec, ir, types) == Compiled(steps)
    requires CanonicalFree(steps) && RegionFree(steps)
    requires TripOf(lib, steps, x).Returned? && l in TripOf(lib, steps, x).losses
    ensures exists i ::
              && 0 <= i < |steps| && l.path == steps[i].regionPath.GetOr("")
              && Mapped(steps[i]) && !StepInvertible(lib, steps[i], x)
  {
    LossesExact(lib, steps, x, l);
    var i :| 0 <= i < |steps| && Reported(lib, steps, x, i) && Tells(l, steps[i]);
    FreeKept(lib, steps, x, i);
    TripIsValues(lib, steps, x);
    TripGivesBack(lib, steps, x, i);
    AcceptedSpecRoundTrips(spec, ir, types, steps, lib, x);
  }

  /** When every mapped step is invertible on the instance, nothing is rejected, escalated or
      lost in either direction. */
  lemma InvertiblePlanIsLossless(spec: Spec, ir: seq<Record>, types: Types, steps: seq<Step>, lib: Library, x: Value)
    requires DictTables(spec) && spec.bidirectional && Compile(spec, ir, types) == Compiled(steps)
    requires CanonicalFree(steps) && RegionFree(steps) && AllInvertible(lib, steps, x)
    ensures TripOf(lib, steps, x) == Returned([])
    ensures Outward(lib, steps, x).escalated == [] && Homeward(lib, steps, x).escalated == []
  {
    LosslessValues(spec, ir, types, steps, lib, x);
    ForwardIsValues(lib, steps, x);
    ReverseIsValues(lib, steps, x);
    TripIsValues(lib, steps, x);
    var left, back := Erase(Homeward(lib, steps, x).world.instance), Erase(Homeward(lib, steps, x).world.back);
    forall i | 0 <= i < |steps| ensures !Differs(steps[i], left, back) {
      if Differs(steps[i], left, back) {
        StepHasLoss(steps, left, back, i);
        EveryLossLiesElsewhere(spec, ir, types, steps, lib, x, LossOf(steps[i]));
      }
    }
    NoLossIffNoneDiffers(steps, left, back);
  }

  // ------------------------------------------------------- generate_round_trip_tests

  datatype TestCase = TestCase(seed: nat, passed: bool, declared: seq<Loss>, undeclared: seq<Loss>)

  /** Cases returned, RoundTripFailure raised with the cases, or a MappingRejected (or other
      exception) that escaped from one of the runs. */
  datatype TestRun = Cases(cases: seq<TestCase>) | RoundTripFailure(cases: seq<TestCase>) | Escaped(halt: Halt)

  function Keep(losses: seq<Loss>, declared: bool): seq<Loss> {
    if losses == [] then []
    else (if losses[0].declared == declared then [losses[0]] else []) + Keep(losses[1..], declared)
  }

  function CaseOf(seed: nat, losses: seq<Loss>): TestCase {
    var undeclared := Keep(losses, false);
    TestCase(seed, forall i :: 0 <= i < |undeclared| ==>
        undeclared[i].weight < Compiler.CRITICAL_WEIGHT, Keep(losses, true), undeclared)
  }

  function CasesOf(lib: Library, steps: seq<Step>, instances: seq<Value>, seed: nat): TestRun
    requires seed <= |instances|
    decreases |instances| - seed
  {
    if seed == |instances| then Cases([])
    else match TripOf(lib, steps, instances[seed])
      case Stopped(halt) => Escaped(halt)
      case Returned(losses) =>
        match CasesOf(lib, steps, instances, seed + 1)
        case Cases(rest) => Cases([CaseOf(seed, losses)] + rest)
        case other => other
  }

  /** The cases so far, followed by what the remaining seeds give. */
  function After(cases: seq<TestCase>, rest: TestRun): TestRun {
    if rest.Cases? then Cases(cases + rest.cases) else rest
  }

  lemma NextSeed(cases: seq<TestCase>, lib: Library, steps: seq<Step>, instances: seq<Value>, seed: nat)
    requires seed < |instances|
    ensures After(cases, CasesOf(lib, steps, instances, seed))
            == match TripOf(lib, steps, instances[seed])
               case Stopped(halt) => Escaped(halt)
               case Returned(losses) => After(cases + [CaseOf(seed, losses)], CasesOf(lib, steps, instances, seed + 1))
  {
    var trip, rest := TripOf(lib, steps, instances[seed]), CasesOf(lib, steps, instances, seed + 1);
    if trip.Returned? && rest.Cases? {
      var c := CaseOf(seed, trip.losses);
      assert cases + ([c] + rest.cases) == (cases + [c]) + rest.cases;
    }
  }

  /** One seed: forward, reverse, diff, on an instance that shares no dictionary with itself. */
  method RunSeed(plan: Plan, x: Value) returns (trip: Trip)
    modifies plan`escalations
    ensures trip == TripOf(plan.lib, plan.steps, x)
  {
    var halt, world := plan.Forward(Given0(x));
    if halt != Completed { return Stopped(halt); }
    halt, world := plan.Reverse(world.instance, world.canonical);
    if halt != Completed { return Stopped(halt); }
    var losses := DiffAttributes(plan.steps, world.instance, world.back);
    return Returned(losses);
  }

  /** What a case says of its seed's losses: each on the side it belongs to, and passed exactly
      when no undeclared one weighs 5 or more. */
  ghost predicate CaseFor(c: TestCase, seed: nat, losses: seq<Loss>) {
    && c.seed == seed && multiset(c.declared) + multiset(c.undeclared) == multiset(losses)
    && (forall l :: l in c.declared ==> l.declared) && (forall l :: l in c.undeclared ==> !l.declared)
    && (c.passed <==> forall l :: l in losses && !l.declared ==> l.weight < 5)
  }

  lemma {:induction false} KeepSplits(losses: seq<Loss>)
    ensures multiset(Keep(losses, true)) + multiset(Keep(losses, false)) == multiset(losses)
  {
    if losses != [] {
      KeepSplits(losses[1..]);
      assert losses == [losses[0]] + losses[1..];
    }
  }

  lemma CaseTells(seed: nat, losses: seq<Loss>)
    ensures CaseFor(CaseOf(seed, losses), seed, losses)
  {
    KeepSplits(losses);
    KeepExact(losses, true);
    KeepExact(losses, false);
    var undeclared := Keep(losses, false);
    assert forall i :: 0 <= i < |undeclared| ==> undeclared[i] in undeclared;
  }

  /** The first seed whose trip stops. */
  ghost predicate FirstStop(lib: Library, steps: seq<Step>, instances: seq<Value>, k: int) {
    && 0 <= k < |instances| && TripOf(lib, steps, instances[k]).Stopped?
    && forall j :: 0 <= j < k ==> TripOf(lib, steps, instances[j]).Returned?
  }

  /** There is a case for every seed from this one on, and it holds of each. */
  ghost predicate AllHold(holds: (TestCase, nat) -> bool, total: nat, cases: seq<TestCase>, seed: nat) {
    seed + |cases| == total && forall k :: 0 <= k < |cases| ==> holds(cases[k], seed + k)
  }

  ghost predicate CasesFor(lib: Library, steps: seq<Step>, instances: seq<Value>, cases: seq<TestCase>, seed: nat) {
    AllHold(SeedCases(lib, steps, instances), |instances|, cases, seed)
  }

  ghost function SeedCases(lib: Library, steps: seq<Step>, instances: seq<Value>): (TestCase, nat) -> bool {
    (c, seed: nat) => SeedCase(lib, steps, instances, c, seed)
  }

  ghost predicate SeedCase(lib: Library, steps: seq<Step>, instances: seq<Value>, c: TestCase, seed: nat) {
    && seed < |instances| && TripOf(lib, steps, instances[seed]).Returned?
    && CaseFor(c, seed, TripOf(lib, steps, instances[seed]).losses)
  }

  /** The cases are those of the seeds, in order; a trip that stops ends the generator as the first
      of them does. */
  lemma {:induction false} CasesTell(lib: Library, steps: seq<Step>, instances: seq<Value>, seed: nat)
    requires seed <= |instances|
    ensures match CasesOf(lib, steps, instances, seed)
            case Cases(cases) => CasesFor(lib, steps, instances, cases, seed)
            case Escaped(halt) =>
              exists k :: seed <= k < |instances| && TripOf(lib, steps, instances[k]) == Stopped(halt) &&
                          forall j :: seed <= j < k ==> TripOf(lib, steps, instances[j]).Returned?
            case RoundTripFailure(_) => false
    decreases |instances| - seed
  {
    if seed < |instances| {
      var trip := TripOf(lib, steps, instances[seed]);
      CasesTell(lib, steps, instances, seed + 1);
      if trip.Returned? {
        CaseTells(seed, trip.losses);
        match CasesOf(lib, steps, instances, seed + 1) {
          case Cases(rest) =>
            OneMore(SeedCases(lib, steps, instances), |instances|, CaseOf(seed, trip.losses), rest, seed);
          case Escaped(halt) =>
            var k :| seed + 1 <= k < |instances| && TripOf(lib, steps, instances[k]) == Stopped(halt) &&
                     forall j :: seed + 1 <= j < k ==> TripOf(lib, steps, instances[j]).Returned?;
            assert forall j :: seed <= j < k ==> TripOf(lib, steps, instances[j]).Returned?;
        }
      }
    }
  }

  lemma OneMore(holds: (TestCase, nat) -> bool, total: nat, first: TestCase, rest: seq<TestCase>, seed: nat)
    requires holds(first, seed) && AllHold(holds, total, rest, seed + 1)
    ensures AllHold(holds, total, [first] + rest, seed)
  {
    forall k | 0 < k < |[first] + rest| ensures holds(([first] + rest)[k], seed + k) {
      assert holds(rest[k - 1], seed + 1 + (k - 1));
    }
  }

  /** The generator over one instance per seed: it ends as the first trip that does not return, or
      with one case for every seed, failing exactly when one of them has an undeclared loss. */
  method GenerateRoundTripTests(plan: Plan, instances: seq<Value>) returns (r: TestRun)
    modifies plan`escalations
    ensures r.Escaped? ==>
              exists k :: FirstStop(plan.lib, plan.steps, instances, k) &&
                          TripOf(plan.lib, plan.steps, instances[k]) == Stopped(r.halt)
    ensures !r.Escaped? ==> CasesFor(plan.lib, plan.steps, instances, r.cases, 0)
    ensures !r.Escaped? ==> (r.RoundTripFailure? <==> exists i :: 0 <= i < |r.cases| && r.cases[i].undeclared != [])
    ensures match CasesOf(plan.lib, plan.steps, instances, 0)
            case Cases(cases) => r == if exists i :: 0 <= i < |cases| && cases[i].undeclared != []
                then RoundTripFailure(cases) else Cases(cases)
            case other => r == other
  {
    var cases: seq<TestCase> := [];
    ghost var whole := CasesOf(plan.lib, plan.steps, instances, 0);
    for seed := 0 to |instances|
      invariant whole == After(cases, CasesOf(plan.lib, plan.steps, instances, seed))
    {
      NextSeed(cases, plan.lib, plan.steps, instances, seed);
      var trip := RunSeed(plan, instances[seed]);
      if trip.Stopped? {
        CasesTell(plan.lib, plan.steps, instances, 0);
        return Escaped(trip.halt);
      }
      cases := cases + [CaseOf(seed, trip.losses)];
    }
    assert cases + [] == cases;
    CasesTell(plan.lib, plan.steps, instances, 0);
    r := if exists i :: 0 <= i < |cases| && cases[i].undeclared != [] then RoundTripFailure(cases) else Cases(cases);
  }

  lemma {:induction false} KeepExact(losses: seq<Loss>, declared: bool)
    ensures forall l :: l in Keep(losses, declared) <==> l in losses && l.declared == declared
    ensures |Keep(losses, true)| + |Keep(losses, false)| == |losses|
  {
    if losses != [] { KeepExact(losses[1..], declared); KeepExact(losses[1..], !declared); }
  }

  /** Whether a seed's case survives the gate: its trip completed and each step that came back
      different from what the instance then held carries a declared loss. */
  ghost predicate SeedClean(lib: Library, steps: seq<Step>, x: Value) {
    && TripOf(lib, steps, x).Returned?
    && var world := Homeward(lib, steps, x).world;
       forall i :: 0 <= i < |steps| && Differs(steps[i], Erase(world.instance), Erase(world.back)) ==>
           steps[i].lossKind.Some?
  }

  ghost predicate Passes(run: TestRun) {
    run.Cases? && forall i :: 0 <= i < |run.cases| ==> run.cases[i].undeclared == []
  }

  lemma CaseCleanIffSeedClean(lib: Library, steps: seq<Step>, x: Value, seed: nat)
    requires TripOf(lib, steps, x).Returned?
    ensures CaseOf(seed, TripOf(lib, steps, x).losses).undeclared == [] <==> SeedClean(lib, steps, x)
  {
    UndeclaredIff(steps, Erase(Homeward(lib, steps, x).world.instance), Erase(Homeward(lib, steps, x).world.back));
  }

  lemma UndeclaredIff(steps: seq<Step>, left: Value, back: Value)
    ensures Keep(Losses(steps, left, back), false) == []
            <==> forall i :: 0 <= i < |steps| && Differs(steps[i], left, back) ==> steps[i].lossKind.Some?
  {
    var losses := Losses(steps, left, back);
    KeepExact(losses, false);
    if Keep(losses, false) != [] {
      var l := Keep(losses, false)[0];
      assert l in Keep(losses, false);
      var i := LossHasStep(steps, left, back, l);
    }
    forall i | 0 <= i < |steps| && Differs(steps[i], left, back) && steps[i].lossKind.None?
      ensures Keep(losses, false) != []
    {
      StepHasLoss(steps, left, back, i);
      assert LossOf(steps[i]) in Keep(losses, false);
    }
  }

  lemma OneSeed(lib: Library, steps: seq<Step>, instances: seq<Value>, seed: nat)
    requires seed < |instances|
    ensures Passes(CasesOf(lib, steps, instances, seed))
            <==> SeedClean(lib, steps, instances[seed]) && Passes(CasesOf(lib, steps, instances, seed + 1))
  {
    var trip, rest := TripOf(lib, steps, instances[seed]), CasesOf(lib, steps, instances, seed + 1);
    if trip.Returned? {
      CaseCleanIffSeedClean(lib, steps, instances[seed], seed);
      if rest.Cases? { PassesCons(CaseOf(seed, trip.losses), rest.cases); }
    }
  }

  /** What holds of a seed exactly when it is clean and it holds of the next, holds of the
      first exactly when all are clean. */
  lemma {:induction false} AllFrom(holds: nat -> bool, clean: nat -> bool, seed: nat, n: nat)
    requires seed <= n && holds(n) && forall s: nat :: seed <= s < n ==> (holds(s) <==> clean(s) && holds(s + 1))
    ensures holds(seed) <==> forall s: nat :: seed <= s < n ==> clean(s)
    decreases n - seed
  {
    if seed < n { AllFrom(holds, clean, seed + 1, n); }
  }

  ghost function PassesFrom(lib: Library, steps: seq<Step>, instances: seq<Value>): nat -> bool {
    (s: nat) => s <= |instances| ==> Passes(CasesOf(lib, steps, instances, s))
  }

  ghost function CleanAt(lib: Library, steps: seq<Step>, instances: seq<Value>): nat -> bool {
    (s: nat) => s < |instances| ==> SeedClean(lib, steps, instances[s])
  }

  lemma OneSeedAt(lib: Library, steps: seq<Step>, instances: seq<Value>, s: nat)
    requires s < |instances|
    ensures PassesFrom(lib, steps, instances)(s) <==>
            CleanAt(lib, steps, instances)(s) && PassesFrom(lib, steps, instances)(s + 1)
  {
    OneSeed(lib, steps, instances, s);
  }

  lemma GateOpensIffAllClean(lib: Library, steps: seq<Step>, instances: seq<Value>, holds: nat -> bool,
        clean: nat -> bool)
    requires holds == PassesFrom(lib, steps, instances) && clean == CleanAt(lib, steps, instances)
    ensures holds(0) <==> forall s: nat :: s < |instances| ==> clean(s)
  {
    forall s: nat | s < |instances|
      ensures holds(s) <==> clean(s) && holds(s + 1)
    {
      OneSeedAt(lib, steps, instances, s);
    }
    assert holds(|instances|);
    AllFrom(holds, clean, 0, |instances|);
  }

  /** The emission gate opens exactly when every seed is clean. */
  lemma GateOpensIffSeedsClean(lib: Library, steps: seq<Step>, instances: seq<Value>)
    ensures Passes(CasesOf(lib, steps, instances, 0)) <==> forall k :: 0 <= k < |instances| ==>
            SeedClean(lib, steps, instances[k])
  {
    var clean := CleanAt(lib, steps, instances);
    GateOpensIffAllClean(lib, steps, instances, PassesFrom(lib, steps, instances), clean);
    assert forall k :: 0 <= k < |instances| ==> clean(k) == SeedClean(lib, steps, instances[k]);
  }

  lemma PassesCons(first: TestCase, rest: seq<TestCase>)
    ensures Passes(Cases([first] + rest)) <==> first.undeclared == [] && Passes(Cases(rest))
  {
    var all := [first] + rest;
    assert all[0] == first && forall i :: 0 <= i < |rest| ==> rest[i] == all[i + 1];
  }

  /** Over separate regions, in terms of values: a seed is clean exactly when both runs complete
      and every step whose region comes back different from what it then holds declares it. */
  lemma SeedCleanIff(lib: Library, steps: seq<Step>, x: Value)
    requires RegionFree(steps)
    ensures SeedClean(lib, steps, x)
            <==> && ValueTrip(lib, steps, x).Some?
                 && forall i :: 0 <= i < |steps| && Reported(lib, steps, x, i) ==> steps[i].lossKind.Some?
  {
    TripIsValues(lib, steps, x);
    if TripOf(lib, steps, x).Returned? {
      forall i | 0 <= i < |steps|
        ensures Differs(steps[i], Erase(Homeward(lib, steps, x).world.instance),
                Erase(Homeward(lib, steps, x).world.back))
                <==> Reported(lib, steps, x, i)
      {
        DiffersIff(lib, steps, x, i);
      }
    }
  }
}
