/**
 Two specs that compile and lose data: in one the round-trip gate sees it, in the other it
 does not.
 */
module LossySpecs {
  import opened Wrappers
  import opened Documents
  import opened Objects
  import opened Transforms
  import opened TransformParser
  import opened TransformPrinter
  import opened Interpreter
  import opened Compiler
  import opened RoundTrip
  import opened SharedPaths
  import opened Aliasing
  import opened InstanceAfter
  import opened RoundTripTests

  // ------------------------------------------------------------------ copying entries

  const COPY: Call := Call("identity", map[], None)

  function CopyEntry(region: string, canonical: string): Entry {
    Entry(Some(canonical), Some(region), Some("identity"), None, None, None, None)
  }

  function CopyStep(region: string, canonical: string): Step {
    Step(Some(canonical), Some(region), [COPY], None, OnEscalate, 0, true, None, None)
  }

  lemma IdentityParses()
    ensures Parse("identity") == Some([TransformCall("identity", map[])])
  {
    var c := WrittenCall("identity", []);
    assert IsIdentifier("identity");
    assert PrintCalls([c]) == ["identity"];
    PrintThenParse([c]);
    var chain := Parse("identity").value;
    assert chain[0].args == map[];
    assert chain == [TransformCall("identity", map[])];
  }

  lemma CopyEntryBuilds(spec: Spec, region: string, canonical: string)
    ensures ParsedChain(CopyEntry(region, canonical)) == Some([TransformCall("identity", map[])])
    ensures BuildStep(spec, CopyEntry(region, canonical)) == Some(CopyStep(region, canonical))
  {
    IdentityParses();
    var chain := [TransformCall("identity", map[])];
    assert ResolveAll(spec, chain) == [COPY];
    assert !NoReverse(chain) && !LookupBreaks(chain);
  }

  lemma CopyEntryAcceptable(spec: Spec, ir: seq<Record>, region: string, canonical: string)
    requires spec.bidirectional
    ensures EntryAcceptable(spec, ir, map[], CopyEntry(region, canonical))
  {
    CopyEntryBuilds(spec, region, canonical);
    var chain := [TransformCall("identity", map[])];
    assert !Unknown(chain) && !NoReverse(chain);
  }

  lemma {:induction false} BuildsEach(spec: Spec, entries: seq<Entry>, steps: seq<Step>)
    requires |steps| == |entries| && forall i :: 0 <= i < |entries| ==> BuildStep(spec, entries[i]) == Some(steps[i])
    ensures BuildSteps(spec, entries) == Some(steps)
  {
    if entries != [] {
      BuildsEach(spec, entries[1..], steps[1..]);
      assert steps == [steps[0]] + steps[1..];
    }
  }

  lemma CompiledIsBuilt(spec: Spec, ir: seq<Record>, types: Types)
    requires Compile(spec, ir, types).Compiled?
    ensures BuildSteps(spec, spec.mappings) == Some(Compile(spec, ir, types).steps)
  {
  }

  lemma CopyRuns(lib: Library, v: Value)
    ensures RunForward(lib, [COPY], v) == Ok(v) && RunReverse(lib, [COPY], v) == Ok(v)
  {
    assert [COPY][1..] == [] && [COPY][..0] == [];
    assert Forward(lib, COPY, v) == Ok(v) && Reverse(lib, COPY, v) == Ok(v);
  }

  lemma CopyActions(lib: Library, x: Value, region: string, canonical: string)
    ensures var s := CopyStep(region, canonical);
            && ForwardAction(lib, x, s) == Action(s, Some(canonical), Ok(ReadAt(x, Some(region))))
            && ReverseAction(lib, x, s) == Action(s, Some(region), Ok(ReadAt(x, Some(canonical))))
            && Shares(lib, s, x)
  {
    CopyRuns(lib, ReadAt(x, Some(region)));
    CopyRuns(lib, ReadAt(x, Some(canonical)));
  }

  /** A step after two that the runs do not take changes neither run. */
  lemma TwoActions(lib: Library, x: Value, s: Step, t: Step, rest: seq<Step>)
    requires Undoable(s) && Undoable(t) && |rest| <= 1 && forall u :: u in rest ==> !Mapped(u)
    ensures ForwardActions(lib, x, [s, t] + rest) == [ForwardAction(lib, x, s), ForwardAction(lib, x, t)]
    ensures ReverseActions(lib, x, [s, t] + rest) == [ReverseAction(lib, x, s), ReverseAction(lib, x, t)]
  {
    var all := [s, t] + rest;
    assert all[1..] == [t] + rest && ([t] + rest)[1..] == rest;
    if rest != [] { assert rest[1..] == []; }
    assert ForwardActions(lib, x, rest) == [] && ReverseActions(lib, x, rest) == [];
    assert ForwardActions(lib, x, [t] + rest) == [ForwardAction(lib, x, t)];
    assert ReverseActions(lib, x, [t] + rest) == [ReverseAction(lib, x, t)];
  }

  /** Paths of one key. */
  ghost predicate Short(s: string) { Parts(s) == [s] }

  lemma ShortUnlessDotted(s: string)
    requires '.' !in s
    ensures Short(s)
  {
    Text.FreeOfOne(s, '.');
    Text.SplitFree(s, ".");
  }

  lemma TwoWrites(a: Action, b: Action, u: Value, v: Value)
    requires a.target.Some? && Short(a.target.value) && a.outcome == Ok(u)
    requires b.target.Some? && Short(b.target.value) && b.outcome == Ok(v)
    ensures PerformAll([a, b], EMPTY).ending == Done(Obj(map[][a.target.value := u][b.target.value := v]))
  {
    PerformLast([], a, EMPTY);
    PerformLast([a], b, EMPTY);
    assert [] + [a] == [a] && [a] + [b] == [a, b];
  }

  lemma ShortRead(fields: map<string, Value>, s: string)
    requires Short(s) && s in fields
    ensures ReadAt(Obj(fields), Some(s)) == fields[s]
  {
    assert Parts(s)[1..] == [] && Read(fields[s], []) == fields[s];
  }

  // ------------------------------------------------------------- two onto one path

  const COPIES: seq<Step> := [CopyStep("first", "shared"), CopyStep("second", "shared")]

  const TWO_ONTO_ONE: Spec := Spec(true, [CopyEntry("first", "shared"), CopyEntry("second", "shared")], map[])

  lemma TwoOntoOneBuilds()
    ensures forall i :: 0 <= i < 2 ==>
              && EntryAcceptable(TWO_ONTO_ONE, [], map[], TWO_ONTO_ONE.mappings[i])
              && BuildStep(TWO_ONTO_ONE, TWO_ONTO_ONE.mappings[i]) == Some(COPIES[i])
  {
    CopyEntryAcceptable(TWO_ONTO_ONE, [], "first", "shared");
    CopyEntryAcceptable(TWO_ONTO_ONE, [], "second", "shared");
    CopyEntryBuilds(TWO_ONTO_ONE, "first", "shared");
    CopyEntryBuilds(TWO_ONTO_ONE, "second", "shared");
  }

  /** Two copying entries onto one canonical path compile. */
  lemma TwoOntoOneCompiles()
    ensures Compile(TWO_ONTO_ONE, [], map[]) == Compiled(COPIES)
  {
    TwoOntoOneBuilds();
    CompilesIffAcceptable(TWO_ONTO_ONE, [], map[]);
    CompiledIsBuilt(TWO_ONTO_ONE, [], map[]);
    BuildsEach(TWO_ONTO_ONE, TWO_ONTO_ONE.mappings, COPIES);
  }

  lemma SeparateKeys(p: string, q: string)
    requires Short(p) && Short(q) && p != q
    ensures Separate(Some(p), Some(q))
  {
    assert [p][0] == p && [q][0] == q;
  }

  lemma CopiesTrip(lib: Library, x: Value, p: string, q: string, to: string)
    requires Short(p) && Short(q) && Short(to) && p != q
    ensures var v := ReadAt(x, Some(q));
            ValueTrip(lib, [CopyStep(p, to), CopyStep(q, to)], x) == Some(Obj(map[][p := v][q := v]))
  {
    var s, t, u, v := CopyStep(p, to), CopyStep(q, to), ReadAt(x, Some(p)), ReadAt(x, Some(q));
    var there := Obj(map[][to := v]);
    CopyActions(lib, x, p, to);
    CopyActions(lib, x, q, to);
    TwoActions(lib, x, s, t, []);
    assert [s, t] + [] == [s, t];
    TwoWrites(ForwardAction(lib, x, s), ForwardAction(lib, x, t), u, v);
    UpdateTwice(map[], to, u, v);
    assert ForwardRun(lib, [s, t], x).ending == Done(there);
    ShortRead(there.fields, to);
    CopyActions(lib, there, p, to);
    CopyActions(lib, there, q, to);
    TwoActions(lib, there, s, t, []);
    TwoWrites(ReverseAction(lib, there, s), ReverseAction(lib, there, t), v, v);
  }

  lemma TwoLosses(s: Step, t: Step, left: Value, back: Value)
    requires !Differs(t, left, back)
    ensures Losses([s, t], left, back) == if Differs(s, left, back) then [LossOf(s)] else []
  {
    assert [s, t][1..] == [t] && [t][1..] == [];
    assert Losses([t], left, back) == [];
  }

  /** Of the two copies the second comes back and the first is replaced by it. */
  lemma CopiesReported(lib: Library, x: Value, p: string, q: string, to: string)
    requires Short(p) && Short(q) && Short(to) && p != q
    ensures TripOf(lib, [CopyStep(p, to), CopyStep(q, to)], x)
            == Returned(if Canon(ReadAt(x, Some(p))) == Canon(ReadAt(x, Some(q))) then []
                else [Loss(p, 0, false, None)])
  {
    var steps, u, v := [CopyStep(p, to), CopyStep(q, to)], ReadAt(x, Some(p)), ReadAt(x, Some(q));
    var back := Obj(map[][p := v][q := v]);
    SeparateKeys(p, q);
    CopiesTrip(lib, x, p, q, to);
    TripIsValues(lib, steps, x);
    CopyActions(lib, x, p, to);
    CopyActions(lib, x, q, to);
    FirstKept(lib, x, p, q, to);
    InstanceHolds(lib, steps, x, 0);
    DiffersIff(lib, steps, x, 1);
    CopyNeverReported(lib, steps, x, 1);
    ShortRead(back.fields, p);
    var left := Erase(Homeward(lib, steps, x).world.instance);
    assert Erase(Homeward(lib, steps, x).world.back) == back;
    TwoLosses(steps[0], steps[1], left, back);
  }

  /** What the first copy shares is detached by the second, before anything is written to it. */
  lemma FirstKept(lib: Library, x: Value, p: string, q: string, to: string)
    requires Short(to)
    ensures Kept(lib, [CopyStep(p, to), CopyStep(q, to)], x, 0) == ReadAt(x, Some(p))
  {
    var steps := [CopyStep(p, to), CopyStep(q, to)];
    CopyActions(lib, x, p, to);
    CopyActions(lib, x, q, to);
    assert Overwrites(lib, steps, x, 0, 1);
    assert steps[..1] == [steps[0]] && steps[..1][..0] == [];
    HeldAfterStep(lib, [steps[0]], x, Target(steps[0]), 0, ReadAt(x, Some(p)));
    assert [to][|[to]|..] == [] && Find(ReadAt(x, Some(p)), []) == Some(ReadAt(x, Some(p)));
  }

  /** That plan's round trip always completes, and the gate sees an undeclared loss exactly
      where the instance holds different values in the two places. */
  lemma TwoOntoOneLoses(lib: Library, x: Value)
    ensures TripOf(lib, COPIES, x)
            == Returned(if Canon(ReadAt(x, Some("first"))) == Canon(ReadAt(x, Some("second"))) then []
                        else [Loss("first", 0, false, None)])
  {
    ShortUnlessDotted("shared");
    ShortUnlessDotted("first");
    ShortUnlessDotted("second");
    CopiesReported(lib, x, "first", "second", "shared");
  }

  // ------------------------------------------- a write below what another copied

  const STATUS := "not-mapped"

  function LeftOut(region: string): Entry { Entry(None, Some(region), None, Some(STATUS), None, None, None) }

  function LeftOutStep(region: string): Step {
    Step(None, Some(region), [], Some(STATUS), OnEscalate, 0, false, None, None)
  }

  /** Everything under whole is copied to c, and then part onto a key of it. */
  const INTO_A_COPY: Spec :=
    Spec(true, [CopyEntry("whole", "c"), CopyEntry("part", "c.k"), LeftOut("whole.k")], map[])

  const RECORDS: seq<Record> := [Record("whole.k", "integer", []), Record("part", "string", [])]

  const OVERLAID: seq<Step> := [CopyStep("whole", "c"), CopyStep("part", "c.k"), LeftOutStep("whole.k")]

  lemma RecordsCovered()
    ensures forall i :: 0 <= i < |RECORDS| ==> RECORDS[i].path in Covered(INTO_A_COPY.mappings)
  {
    var entries := INTO_A_COPY.mappings;
    assert Truthy(entries[1].region) && entries[1].region.value == RECORDS[1].path;
    assert Truthy(entries[2].region) && entries[2].region.value == RECORDS[0].path;
  }

  lemma LeftOutBuilds(spec: Spec, ir: seq<Record>, region: string)
    ensures EntryAcceptable(spec, ir, map[], LeftOut(region)) &&
            BuildStep(spec, LeftOut(region)) == Some(LeftOutStep(region))
  {
  }

  lemma IntoACopyBuilds()
    ensures forall i :: 0 <= i < 3 ==>
              && EntryAcceptable(INTO_A_COPY, RECORDS, map[], INTO_A_COPY.mappings[i])
              && BuildStep(INTO_A_COPY, INTO_A_COPY.mappings[i]) == Some(OVERLAID[i])
  {
    CopyEntryAcceptable(INTO_A_COPY, RECORDS, "whole", "c");
    CopyEntryAcceptable(INTO_A_COPY, RECORDS, "part", "c.k");
    LeftOutBuilds(INTO_A_COPY, RECORDS, "whole.k");
    CopyEntryBuilds(INTO_A_COPY, "whole", "c");
    CopyEntryBuilds(INTO_A_COPY, "part", "c.k");
  }

  /** A spec that copies a dictionary and writes into the copy compiles. */
  lemma IntoACopyCompiles()
    ensures Compile(INTO_A_COPY, RECORDS, map[]) == Compiled(OVERLAID)
  {
    RecordsCovered();
    IntoACopyBuilds();
    CompilesIffAcceptable(INTO_A_COPY, RECORDS, map[]);
    CompiledIsBuilt(INTO_A_COPY, RECORDS, map[]);
    BuildsEach(INTO_A_COPY, INTO_A_COPY.mappings, OVERLAID);
  }

  lemma OverlaidPaths()
    ensures Short("whole") && Short("part") && Short("c") && Parts("c.k") == ["c", "k"] &&
            Parts("whole.k") == ["whole", "k"]
  {
    ShortUnlessDotted("whole");
    ShortUnlessDotted("part");
    ShortUnlessDotted("c");
    TwoKeys("c", "k");
    TwoKeys("whole", "k");
    assert "c" + "." + "k" == "c.k" && "whole" + "." + "k" == "whole.k";
  }

  lemma TwoKeys(a: string, b: string)
    requires '.' !in a && '.' !in b
    ensures Parts(a + "." + b) == [a, b]
  {
    Text.SeparatedByOne([a, b], '.');
    Text.SplitUndoesJoin([a, b], ".");
    assert [a, b][1..] == [b];
    assert Text.Join([a, b], ".") == a + "." + b;
  }

  /** Copying whole to `to`, then part to the key k of it, beside a step left out. */
  function Overlay(whole: string, part: string, to: string, toKey: string, out: Step): seq<Step> {
    [CopyStep(whole, to), CopyStep(part, toKey), out]
  }

  ghost predicate OverlayPaths(whole: string, part: string, to: string, toKey: string, k: string) {
    Short(whole) && Short(part) && whole != part && Short(to) && Parts(toKey) == [to, k]
  }

  lemma WriteInside(a: Action, b: Action, u: Value, v: Value, k: string)
    requires a.target.Some? && Short(a.target.value) && a.outcome == Ok(u) && u.Obj?
    requires b.target.Some? && Parts(b.target.value) == [a.target.value, k] && b.outcome == Ok(v)
    ensures PerformAll([a, b], EMPTY).ending == Done(Obj(map[][a.target.value := Obj(u.fields[k := v])]))
  {
    var to, inner := a.target.value, Obj(u.fields[k := v]);
    var once := Obj(map[][to := u]);
    PerformLast([], a, EMPTY);
    PerformLast([a], b, EMPTY);
    assert [] + [a] == [a] && [a] + [b] == [a, b] && [to, k][1..] == [k];
    assert Write(u, [k], v) == Some(inner);
    assert Write(once, [to, k], v) == Some(Obj(once.fields[to := inner]));
    UpdateTwice(map[], to, u, inner);
  }

  lemma OverlayTrip(lib: Library, x: Value, whole: string, part: string, to: string, toKey: string, k: string,
        out: Step)
    requires OverlayPaths(whole, part, to, toKey, k) && !Mapped(out) && ReadAt(x, Some(whole)).Obj?
    ensures var u, v := ReadAt(x, Some(whole)), ReadAt(x, Some(part));
            ValueTrip(lib, Overlay(whole, part, to, toKey, out), x)
            == Some(Obj(map[][whole := Obj(u.fields[k := v])][part := v]))
  {
    var s, t, u, v := CopyStep(whole, to), CopyStep(part, toKey), ReadAt(x, Some(whole)), ReadAt(x, Some(part));
    var inner := Obj(u.fields[k := v]);
    var there := Obj(map[][to := inner]);
    assert [s, t] + [out] == Overlay(whole, part, to, toKey, out);
    CopyActions(lib, x, whole, to);
    CopyActions(lib, x, part, toKey);
    TwoActions(lib, x, s, t, [out]);
    WriteInside(ForwardAction(lib, x, s), ForwardAction(lib, x, t), u, v, k);
    ShortRead(there.fields, to);
    assert [to, k][1..] == [k] && [k][1..] == [] && Read(inner, [k]) == v;
    CopyActions(lib, there, whole, to);
    CopyActions(lib, there, part, toKey);
    TwoActions(lib, there, s, t, [out]);
    TwoWrites(ReverseAction(lib, there, s), ReverseAction(lib, there, t), inner, v);
  }

  lemma OverlayRegions(whole: string, part: string, to: string, toKey: string, k: string, out: Step)
    requires OverlayPaths(whole, part, to, toKey, k) && !Mapped(out)
    ensures RegionFree(Overlay(whole, part, to, toKey, out))
  {
    SeparateKeys(whole, part);
  }

  /** Neither copy's path is written at or above again. */
  lemma OverlayUnreported(lib: Library, x: Value, whole: string, part: string, to: string, toKey: string, k: string,
        out: Step, i: nat)
    requires OverlayPaths(whole, part, to, toKey, k) && !Mapped(out) && i < 3
    ensures !Reported(lib, Overlay(whole, part, to, toKey, out), x, i)
  {
    var steps := Overlay(whole, part, to, toKey, out);
    if i < 2 {
      CopyActions(lib, x, whole, to);
      CopyActions(lib, x, part, toKey);
      CopyNeverReported(lib, steps, x, i);
    }
  }

  /** The differ reports nothing, and whole.k comes back as part. */
  lemma OverlayLosesUnseen(lib: Library, x: Value, whole: string, part: string, to: string, toKey: string, k: string,
        out: Step)
    requires OverlayPaths(whole, part, to, toKey, k) && !Mapped(out) && ReadAt(x, Some(whole)).Obj?
    ensures var steps := Overlay(whole, part, to, toKey, out);
            && TripOf(lib, steps, x) == Returned([])
            && Read(Erase(Homeward(lib, steps, x).world.back), [whole, k]) == ReadAt(x, Some(part))
  {
    var steps := Overlay(whole, part, to, toKey, out);
    OverlayRegions(whole, part, to, toKey, k, out);
    OverlayTrip(lib, x, whole, part, to, toKey, k, out);
    forall i | 0 <= i < |steps| ensures !Reported(lib, steps, x, i) {
      OverlayUnreported(lib, x, whole, part, to, toKey, k, out, i);
    }
    NothingReported(lib, steps, x);
    TripIsValues(lib, steps, x);
    ReadInside(ReadAt(x, Some(whole)).fields, whole, part, k, ReadAt(x, Some(part)));
  }

  lemma ReadInside(fields: map<string, Value>, whole: string, part: string, k: string, v: Value)
    requires whole != part
    ensures Read(Obj(map[][whole := Obj(fields[k := v])][part := v]), [whole, k]) == v
  {
    var all, inner := map[][whole := Obj(fields[k := v])][part := v], fields[k := v];
    assert [whole, k][1..] == [k] && [k][1..] == [];
    assert Read(Obj(inner), [k]) == v && all[whole] == Obj(inner);
  }

  /** The gate passes INTO_A_COPY on every instance with a dictionary at whole: no loss is
      reported, and what comes back at whole.k is what the instance held at part. */
  lemma LossUnseen(lib: Library, x: Value)
    requires ReadAt(x, Some("whole")).Obj?
    ensures TripOf(lib, OVERLAID, x) == Returned([])
    ensures ReadAt(Erase(Homeward(lib, OVERLAID, x).world.back), Some("whole.k")) == ReadAt(x, Some("part"))
  {
    OverlaidPaths();
    OverlayLosesUnseen(lib, x, "whole", "part", "c", "c.k", "k", LeftOutStep("whole.k"));
  }

  lemma GatePassesLossySpec(lib: Library, instances: seq<Value>)
    requires forall i :: 0 <= i < |instances| ==> ReadAt(instances[i], Some("whole")).Obj?
    ensures Passes(CasesOf(lib, OVERLAID, instances, 0))
  {
    forall i | 0 <= i < |instances| ensures SeedClean(lib, OVERLAID, instances[i]) {
      LossUnseen(lib, instances[i]);
      var world := Homeward(lib, OVERLAID, instances[i]).world;
      NoLossIffNoneDiffers(OVERLAID, Erase(world.instance), Erase(world.back));
    }
    GateOpensIffSeedsClean(lib, OVERLAID, instances);
  }

  // --------------------------------------------------- regions that are not separate

  /** After the two copies the instance itself holds part at the key. */
  lemma WholeChanged(lib: Library, x: Value, whole: string, part: string, to: string, toKey: string, k: string)
    requires OverlayPaths(whole, part, to, toKey, k) && ReadAt(x, Some(whole)).Obj?
    ensures var t := Go(There, lib, [CopyStep(whole, to), CopyStep(part, toKey)], Departure(x));
            && t.halt == Completed
            && ReadAt(Erase(t.world.instance), Some(whole)) ==
               Obj(ReadAt(x, Some(whole)).fields[k := ReadAt(x, Some(part))])
  {
    var s, t, u, v := CopyStep(whole, to), CopyStep(part, toKey), ReadAt(x, Some(whole)), ReadAt(x, Some(part));
    var steps, inner := [s, t], Obj(u.fields[k := v]);
    SeparateKeys(whole, part);
    CopyActions(lib, x, whole, to);
    CopyActions(lib, x, part, toKey);
    TwoActions(lib, x, s, t, []);
    assert [s, t] + [] == steps;
    WriteInside(ForwardAction(lib, x, s), ForwardAction(lib, x, t), u, v, k);
    ForwardIsValues(lib, steps, x);
    InstanceHolds(lib, steps, x, 0);
    CanonicalHolds(lib, steps, x, [to]);
    assert !Overwrites(lib, steps, x, 0, 1);
    assert [to][1..] == [] && Find(Obj(map[][to := inner]), [to]) == Some(inner);
  }

  /** A copying step of a plain value, from the instance as it is now to a key of its own. */
  lemma PlainCopy(lib: Library, front: seq<Step>, x: Value, world: World, inside: string, other: string, v: Value)
    requires |front| == 2 && RegionFree(front) && Situated(lib, front, x, world) && Erase(world.canonical).Obj?
    requires Short(other) && ReadAt(Erase(world.instance), Some(inside)) == v && !v.Obj?
    ensures var leg := Move(There, lib, CopyStep(inside, other), world, 2);
            leg.halt == Completed && ReadAt(Erase(leg.world.canonical), Some(other)) == v
  {
    var s := CopyStep(inside, other);
    CopyActions(lib, Erase(world.instance), inside, other);
    CarriedIsLeaf(lib, world, s, v);
    if Deepest(world.canonical, [other]).Some? { SpotAtHome(lib, front, x, world.canonical, [other]); }
    MoveErases(There, lib, s, world, 2);
    WrittenIsRead(Erase(world.canonical), other, v);
  }

  lemma ReadsChanged(lib: Library, x: Value, whole: string, part: string, to: string, toKey: string, k: string,
        inside: string)
    requires OverlayPaths(whole, part, to, toKey, k) && Parts(inside) == [whole, k] && ReadAt(x, Some(whole)).Obj?
    ensures var t := Go(There, lib, [CopyStep(whole, to), CopyStep(part, toKey)], Departure(x));
            ReadAt(Erase(t.world.instance), Some(inside)) == ReadAt(x, Some(part))
  {
    var t := Go(There, lib, [CopyStep(whole, to), CopyStep(part, toKey)], Departure(x));
    WholeChanged(lib, x, whole, part, to, toKey, k);
    ReadDeeper(Erase(t.world.instance), whole, k);
    assert [k][1..] == [];
  }

  /** A third copy that reads below the first one's region gets the value the second put there,
      where over values it would get the one the instance came with: the regions have to be
      separate. */
  lemma OverlappingRegions(lib: Library, x: Value, whole: string, part: string, to: string, toKey: string, k: string,
        inside: string, other: string)
    requires OverlayPaths(whole, part, to, toKey, k) && Parts(inside) == [whole, k] && Short(other)
    requires ReadAt(x, Some(whole)).Obj? && !ReadAt(x, Some(part)).Obj?
    ensures var steps := [CopyStep(whole, to), CopyStep(part, toKey), CopyStep(inside, other)];
            var t := Go(There, lib, steps, Departure(x));
            t.halt == Completed && ReadAt(Erase(t.world.canonical), Some(other)) == ReadAt(x, Some(part))
  {
    var front, s := [CopyStep(whole, to), CopyStep(part, toKey)], CopyStep(inside, other);
    var world := Go(There, lib, front, Departure(x)).world;
    WholeChanged(lib, x, whole, part, to, toKey, k);
    ReadsChanged(lib, x, whole, part, to, toKey, k, inside);
    SeparateKeys(whole, part);
    ForwardIsValues(lib, front, x);
    OutIsObject(lib, front, x);
    PlainCopy(lib, front, x, world, inside, other, ReadAt(x, Some(part)));
    var steps := [CopyStep(whole, to), CopyStep(part, toKey), s];
    assert steps[..2] == front && steps[2] == s;
  }

  lemma ReadDeeper(v: Value, a: string, b: string)
    ensures Read(v, [a, b]) == Read(Read(v, [a]), [b])
  {
    assert [a, b][1..] == [b] && [a][1..] == [];
  }

  lemma CarriedIsLeaf(lib: Library, world: World, s: Step, v: Value)
    requires s.chain == [COPY] && ReadAt(Erase(world.instance), s.regionPath) == v && !v.Obj?
    ensures forall id :: Absent(Carried(There, lib, s, world, 2), id)
  {
    var o := ReadObject(world.instance, s.regionPath);
    ReadErases(world.instance, s.regionPath);
    CopyRuns(lib, v);
    CopyIsSame(lib, s.chain, o, 2);
    forall id, p ensures !Stands(o, p, id) { assert At(o, p).Some? ==> p == []; }
  }

  lemma WrittenIsRead(out: Value, path: string, v: Value)
    requires out.Obj? && Short(path)
    ensures WriteAt(out, Some(path), v).Some? && ReadAt(WriteAt(out, Some(path), v).value, Some(path)) == v
  {
    ReadAfterWrite(out, [path], v);
  }
}
