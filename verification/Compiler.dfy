/**
 mapping/compiler.py: the static checks T1 to T4 and D1, and the plan they let through.
 An unknown transform name is not one of the checks: looking it up raises KeyError.
 */
module Compiler {
  import opened Wrappers
  import opened Documents
  import opened TransformParser
  import opened Interpreter
  import opened Sequences
  import Transforms

  const CRITICAL_WEIGHT := 5

  datatype Entry = Entry(
    canonical: Option<string>,
    region: Option<string>,
    transform: Option<string>,
    disposition: Option<string>,
    weight: Option<int>,
    onFailure: Option<OnFailure>,
    note: Option<string>)

  datatype ValueMapDecl = ValueMapDecl(table: Transforms.ValueTable, unmapped: Option<Transforms.Policy>)

  datatype Spec = Spec(bidirectional: bool, mappings: seq<Entry>, valueMaps: map<string, ValueMapDecl>)

  datatype Record = Record(path: string, dataType: string, enumeration: seq<string>)

  datatype CompileError = CompileError(check: string, path: string)

  datatype Compilation = Compiled(steps: seq<Step>) | CompileFailed(errors: seq<CompileError>) | CompileBroke

  type Types = map<string, string>

  // ------------------------------------------------------------------ type fit (T3)

  const STATIC_OUTPUT: map<string, string> := map[
    "formatDate" := "string", "instantAtStartOfDay" := "dateTime", "valueMap" := "string",
    "toMonetaryAmount" := "MonetaryAmount", "toIdentifier" := "Identifier", "decompose" := "object",
    "compose" := "string", "concat" := "string", "scale" := "decimal", "normaliseCase" := "string"]

  const WIDENING: set<(string, string)> := {
    ("date", "dateTime"), ("integer", "decimal"), ("decimal", "integer"),
    ("MonetaryAmount", "object"), ("Identifier", "object")}

  /** The calls that fix the type; the others hand on what they are given. */
  predicate SetsType(call: TransformCall) {
    call.name in STATIC_OUTPUT || call.name == "parseDate" || call.name == "constant"
  }

  /** The type such a call fixes: none at all for constant. */
  function TypeSet(call: TransformCall): Option<string>
    requires SetsType(call)
  {
    if call.name == "parseDate" then Some(if "zone" in call.args then "dateTime" else "date")
    else if call.name == "constant" then None
    else Some(STATIC_OUTPUT[call.name])
  }

  /** The type fixed by the last call that fixes one, or else the source's. */
  function InferredType(chain: seq<TransformCall>, source: Option<string>): Option<string> {
    if chain == [] then source
    else if SetsType(chain[|chain| - 1]) then TypeSet(chain[|chain| - 1])
    else InferredType(chain[..|chain| - 1], source)
  }

  method InferOutputType(chain: seq<TransformCall>, source: Option<string>) returns (current: Option<string>)
    ensures current == InferredType(chain, source)
    ensures forall i :: LastToSet(chain, i) ==> current == TypeSet(chain[i])
    ensures (forall i :: 0 <= i < |chain| ==> !SetsType(chain[i])) ==> current == source
  {
    current := source;
    for k := 0 to |chain|
      invariant current == InferredType(chain[..k], source)
    {
      var call := chain[k];
      assert chain[..k + 1][..k] == chain[..k];
      if call.name == "parseDate" {
        current := Some(if "zone" in call.args then "dateTime" else "date");
      } else if call.name == "identity" || call.name == "coalesce" {
        continue;
      } else if call.name == "constant" {
        current := None;
      } else if call.name in STATIC_OUTPUT {
        current := Some(STATIC_OUTPUT[call.name]);
      }
    }
    assert chain[..|chain|] == chain;
    TypeOfLastSetter(chain, source);
  }

  ghost predicate LastToSet(chain: seq<TransformCall>, i: int) {
    0 <= i < |chain| && SetsType(chain[i]) && forall j :: i < j < |chain| ==> !SetsType(chain[j])
  }

  lemma {:induction false} TypeOfSetter(chain: seq<TransformCall>, source: Option<string>, i: int)
    requires LastToSet(chain, i)
    ensures InferredType(chain, source) == TypeSet(chain[i])
  {
    if i < |chain| - 1 { TypeOfSetter(chain[..|chain| - 1], source, i); }
  }

  lemma {:induction false} TypeWithoutSetter(chain: seq<TransformCall>, source: Option<string>)
    requires forall i :: 0 <= i < |chain| ==> !SetsType(chain[i])
    ensures InferredType(chain, source) == source
  {
    if chain != [] { TypeWithoutSetter(chain[..|chain| - 1], source); }
  }

  /** The inferred type is the one the last type-fixing call fixes, whatever the source's type;
      without such a call it is the source's. */
  lemma TypeOfLastSetter(chain: seq<TransformCall>, source: Option<string>)
    ensures forall i :: LastToSet(chain, i) ==> InferredType(chain, source) == TypeSet(chain[i])
    ensures (forall i :: 0 <= i < |chain| ==> !SetsType(chain[i])) ==> InferredType(chain, source) == source
  {
    forall i | LastToSet(chain, i) ensures InferredType(chain, source) == TypeSet(chain[i]) {
      TypeOfSetter(chain, source, i);
    }
    if forall i :: 0 <= i < |chain| ==> !SetsType(chain[i]) { TypeWithoutSetter(chain, source); }
  }

  predicate TypeCompatible(produced: Option<string>, expected: string) {
    produced.None? || produced.value == expected || (produced.value, expected) in WIDENING
  }

  // ------------------------------------------------------------------- the checks

  predicate Truthy(s: Option<string>) { s.Some? && s.value != "" }

  /** region_by_path: of several records with one path, the last. */
  function FindRecord(ir: seq<Record>, path: Option<string>): Option<Record> {
    if !Truthy(path) || ir == [] then None
    else if ir[|ir| - 1].path == path.value then Some(ir[|ir| - 1])
    else FindRecord(ir[..|ir| - 1], path)
  }

  /** The chain parsed for an entry: None for a disposition, no transform, or a parse error. */
  function ParsedChain(e: Entry): Option<seq<TransformCall>> {
    if e.disposition.Some? || !Truthy(e.transform) then None else Parse(e.transform.value)
  }

  function Named(spec: Spec, call: TransformCall): Option<ValueMapDecl> {
    if "map" in call.args && call.args["map"].Str? && call.args["map"].s != "" && call.args["map"].s in spec.valueMaps
    then Some(spec.valueMaps[call.args["map"].s])
    else None
  }

  function Keys(t: Transforms.ValueTable): set<string> { set i | 0 <= i < |t| :: t[i].0 }

  function Targets(t: Transforms.ValueTable): set<string> { set i | 0 <= i < |t| :: t[i].1 }

  function Declared(source: Option<Record>): set<string> {
    if source.Some? then set i | 0 <= i < |source.value.enumeration| :: source.value.enumeration[i] else {}
  }

  function Failure(e: Entry): OnFailure { e.onFailure.GetOr(OnEscalate) }

  function Label(e: Entry): string { e.canonical.GetOr("") }

  function WeightErrors(e: Entry): seq<CompileError> {
    if e.weight.Some? && e.weight.value >= CRITICAL_WEIGHT && (Failure(e).OnSkip? || Failure(e).OnDefault?)
    then [CompileError("T2", Label(e))] else []
  }

  function TypeErrors(e: Entry, chain: seq<TransformCall>, source: Option<Record>, types: Types): seq<CompileError> {
    var sourceType := if source.Some? then Some(source.value.dataType) else None;
    if Truthy(e.canonical) && e.canonical.value in types
       && !TypeCompatible(InferredType(chain, sourceType), types[e.canonical.value])
    then [CompileError("T3", Label(e))] else []
  }

  function MapErrors(spec: Spec, e: Entry, call: TransformCall, source: Option<Record>): seq<CompileError> {
    if call.name != "valueMap" then []
    else
      var vm := Named(spec, call);
      var error := CompileError("T4", Label(e));
      if vm.None? then [error]
      else
        (if !(Declared(source) <= Keys(vm.value.table)) && vm.value.unmapped.None? then [error] else []) +
        (if spec.bidirectional && |Targets(vm.value.table)| != |vm.value.table| then [error] else [])
  }

  function AllMapErrors(spec: Spec, e: Entry, chain: seq<TransformCall>, source: Option<Record>): seq<CompileError> {
    if chain == [] then []
    else MapErrors(spec, e, chain[0], source) + AllMapErrors(spec, e, chain[1..], source)
  }

  predicate NoReverse(chain: seq<TransformCall>) {
    exists i :: 0 <= i < |chain| && !Transforms.HasReverse(chain[i].name)
  }

  predicate Unknown(chain: seq<TransformCall>) {
    exists i :: 0 <= i < |chain| && chain[i].name !in Transforms.NAMES
  }

  function ReverseErrors(spec: Spec, e: Entry, chain: seq<TransformCall>): seq<CompileError> {
    if spec.bidirectional && NoReverse(chain) then [CompileError("D1", Label(e))] else []
  }

  /** The checks on one entry whose transform parsed. */
  function EntryErrors(spec: Spec, ir: seq<Record>, types: Types, e: Entry,
        chain: seq<TransformCall>): seq<CompileError>
  {
    var source := FindRecord(ir, e.region);
    WeightErrors(e) + TypeErrors(e, chain, source, types) + AllMapErrors(spec, e, chain, source) +
        ReverseErrors(spec, e, chain)
  }

  function Covered(entries: seq<Entry>): set<string> {
    set i | 0 <= i < |entries| && Truthy(entries[i].region) :: entries[i].region.value
  }

  function TotalityErrors(ir: seq<Record>, covered: set<string>): seq<CompileError> {
    if ir == [] then []
    else (if ir[0].path in covered then [] else [CompileError("T1", ir[0].path)]) + TotalityErrors(ir[1..], covered)
  }

  function ParseErrors(entries: seq<Entry>): seq<CompileError> {
    if entries == [] then []
    else
      var e := entries[0];
      (if e.disposition.None? && Truthy(e.transform) && Parse(e.transform.value).None?
       then [CompileError("PARSE", Label(e))] else []) + ParseErrors(entries[1..])
  }

  /** The second loop's errors; None when an unknown name raised KeyError in D1. */
  function CheckErrors(spec: Spec, ir: seq<Record>, types: Types, entries: seq<Entry>): Option<seq<CompileError>> {
    if entries == [] then Some([])
    else
      var e, chain := entries[0], ParsedChain(entries[0]);
      if chain.None? then CheckErrors(spec, ir, types, entries[1..])
      else if spec.bidirectional && Unknown(chain.value) then None
      else match CheckErrors(spec, ir, types, entries[1..])
        case None => None
        case Some(rest) => Some(EntryErrors(spec, ir, types, e, chain.value) + rest)
  }

  // -------------------------------------------------------------- building the plan

  function Resolve(spec: Spec, call: TransformCall): Transforms.Call {
    var resolved :=
      if call.name == "valueMap" && Named(spec, call).Some? then
        var vm := Named(spec, call).value;
        Some(Transforms.ResolvedMap(vm.table, vm.unmapped.GetOr(Transforms.Escalate)))
      else None;
    Transforms.Call(call.name, call.args, resolved)
  }

  function ResolveAll(spec: Spec, chain: seq<TransformCall>): seq<Transforms.Call> {
    seq(|chain|, i requires 0 <= i < |chain| => Resolve(spec, chain[i]))
  }

  /** Evaluating all(TRANSFORMS[c.name].reverse ...) stops at the first call without a
      reverse, so only an unknown name before that raises KeyError. */
  predicate LookupBreaks(chain: seq<TransformCall>) {
    chain != [] && (chain[0].name !in Transforms.NAMES ||
        (Transforms.HasReverse(chain[0].name) && LookupBreaks(chain[1..])))
  }

  function LossKind(e: Entry, chain: seq<TransformCall>): Option<string> {
    if NoReverse(chain) then Some("undefined-reverse")
    else if (exists i :: 0 <= i < |chain| && Transforms.IsLossy(chain[i].name)) && Truthy(e.note) then Some("precision")
    else None
  }

  function BuildStep(spec: Spec, e: Entry): Option<Step> {
    var weight := e.weight.GetOr(0);
    if e.disposition.Some? then
      Some(Step(None, e.region, [], e.disposition, OnEscalate, weight, false, None, e.note))
    else
      var chain := ParsedChain(e);
      if chain.None? || LookupBreaks(chain.value) then None
      else Some(Step(e.canonical, e.region, ResolveAll(spec, chain.value), None, Failure(e), weight,
                     !NoReverse(chain.value), LossKind(e, chain.value), e.note))
  }

  function BuildSteps(spec: Spec, entries: seq<Entry>): Option<seq<Step>> {
    if entries == [] then Some([])
    else match BuildStep(spec, entries[0])
      case None => None
      case Some(s) =>
        match BuildSteps(spec, entries[1..])
        case None => None
        case Some(rest) => Some([s] + rest)
  }

  function Compile(spec: Spec, ir: seq<Record>, types: Types): Compilation {
    match CheckErrors(spec, ir, types, spec.mappings)
    case None => CompileBroke
    case Some(checks) =>
      var errors := TotalityErrors(ir, Covered(spec.mappings)) + ParseErrors(spec.mappings) + checks;
      if errors != [] then CompileFailed(errors)
      else match BuildSteps(spec, spec.mappings)
        case None => CompileBroke
        case Some(steps) => Compiled(steps)
  }

  method CheckTotality(ir: seq<Record>, covered: set<string>) returns (errors: seq<CompileError>)
    ensures errors == TotalityErrors(ir, covered)
  {
    errors := [];
    for i := 0 to |ir|
      invariant errors + TotalityErrors(ir[i..], covered) == TotalityErrors(ir, covered)
    {
      assert ir[i..][1..] == ir[i + 1..];
      if ir[i].path !in covered { errors := errors + [CompileError("T1", ir[i].path)]; }
    }
  }

  method ParseEntries(entries: seq<Entry>) returns (errors: seq<CompileError>)
    ensures errors == ParseErrors(entries)
  {
    errors := [];
    for i := 0 to |entries|
      invariant errors + ParseErrors(entries[i..]) == ParseErrors(entries)
    {
      var e := entries[i];
      assert entries[i..][1..] == entries[i + 1..];
      if e.disposition.None? && Truthy(e.transform) {
        var parsed := Parse(e.transform.value);
        if parsed.None? { errors := errors + [CompileError("PARSE", Label(e))]; }
      }
    }
  }

  method CheckMaps(spec: Spec, e: Entry, chain: seq<TransformCall>, source: Option<Record>)
    returns (errors: seq<CompileError>)
    ensures errors == AllMapErrors(spec, e, chain, source)
  {
    errors := [];
    for k := 0 to |chain|
      invariant errors + AllMapErrors(spec, e, chain[k..], source) == AllMapErrors(spec, e, chain, source)
    {
      assert chain[k..][1..] == chain[k + 1..];
      var more := MapErrors(spec, e, chain[k], source);
      Regroup(errors, more, AllMapErrors(spec, e, chain[k + 1..], source));
      errors := errors + more;
    }
  }

  method CheckEntry(spec: Spec, ir: seq<Record>, types: Types, e: Entry, chain: seq<TransformCall>)
    returns (errors: seq<CompileError>)
    ensures errors == EntryErrors(spec, ir, types, e, chain)
  {
    var source, typing: seq<CompileError> := FindRecord(ir, e.region), [];
    if Truthy(e.canonical) && e.canonical.value in types {
      var produced := InferOutputType(chain, if source.Some? then Some(source.value.dataType) else None);
      if !TypeCompatible(produced, types[e.canonical.value]) { typing := [CompileError("T3", Label(e))]; }
    }
    var maps := CheckMaps(spec, e, chain, source);
    errors := WeightErrors(e) + typing + maps + ReverseErrors(spec, e, chain);
  }

  method CheckEntries(spec: Spec, ir: seq<Record>, types: Types) returns (errors: Option<seq<CompileError>>)
    ensures errors == CheckErrors(spec, ir, types, spec.mappings)
  {
    var entries, found: seq<CompileError> := spec.mappings, [];
    ghost var whole := CheckErrors(spec, ir, types, entries);
    assert entries[0..] == entries && forall more: seq<CompileError> :: [] + more == more;
    for i := 0 to |entries|
      invariant whole == Prepend(found, CheckErrors(spec, ir, types, entries[i..]))
    {
      NextChecked(found, spec, ir, types, entries, i);
      var chain := ParsedChain(entries[i]);
      if chain.Some? {
        if spec.bidirectional && Unknown(chain.value) { return None; }
        var more := CheckEntry(spec, ir, types, entries[i], chain.value);
        found := found + more;
      }
    }
    assert entries[|entries|..] == [] && found + [] == found;
    errors := Some(found);
  }

  function Prepend<T>(found: seq<T>, rest: Option<seq<T>>): Option<seq<T>> {
    if rest.None? then None else Some(found + rest.value)
  }

  lemma NextChecked(found: seq<CompileError>, spec: Spec, ir: seq<Record>, types: Types, entries: seq<Entry>, i: nat)
    requires i < |entries|
    ensures var chain := ParsedChain(entries[i]);
            Prepend(found, CheckErrors(spec, ir, types, entries[i..]))
            == if chain.None? then Prepend(found, CheckErrors(spec, ir, types, entries[i + 1..]))
               else if spec.bidirectional && Unknown(chain.value) then None
               else Prepend(found + EntryErrors(spec, ir, types, entries[i], chain.value),
                  CheckErrors(spec, ir, types, entries[i + 1..]))
  {
    var chain, rest := ParsedChain(entries[i]), CheckErrors(spec, ir, types, entries[i + 1..]);
    assert entries[i..][1..] == entries[i + 1..];
    if chain.Some? && !(spec.bidirectional && Unknown(chain.value)) && rest.Some? {
      Regroup(found, EntryErrors(spec, ir, types, entries[i], chain.value), rest.value);
    }
  }

  method BuildPlan(spec: Spec) returns (steps: Option<seq<Step>>)
    ensures steps == BuildSteps(spec, spec.mappings)
  {
    var entries, built: seq<Step> := spec.mappings, [];
    ghost var whole := BuildSteps(spec, entries);
    for i := 0 to |entries|
      invariant var rest := BuildSteps(spec, entries[i..]);
                if whole.None? then rest.None? else rest.Some? && built + rest.value == whole.value
    {
      assert entries[i..][1..] == entries[i + 1..];
      var s := BuildStep(spec, entries[i]);
      if s.None? { return None; }
      built := built + [s.value];
    }
    assert entries[|entries|..] == [] && built + [] == built;
    steps := Some(built);
  }

  // ------------------------------------------------------------- what acceptance means

  ghost predicate MapsAcceptable(spec: Spec, chain: seq<TransformCall>, source: Option<Record>) {
    forall i :: 0 <= i < |chain| && chain[i].name == "valueMap" ==>
      && Named(spec, chain[i]).Some?
      && var vm := Named(spec, chain[i]).value;
         && (Declared(source) <= Keys(vm.table) || vm.unmapped.Some?)
         && (spec.bidirectional ==> Transforms.Injective(vm.table))
  }

  /** One entry meets every rule of the mapping language. */
  ghost predicate EntryAcceptable(spec: Spec, ir: seq<Record>, types: Types, e: Entry) {
    e.disposition.None? ==>
      && ParsedChain(e).Some?
      && var chain, source := ParsedChain(e).value, FindRecord(ir, e.region);
         && (e.weight.GetOr(0) >= CRITICAL_WEIGHT ==> Failure(e).OnReject? || Failure(e).OnEscalate?)
         && (Truthy(e.canonical) && e.canonical.value in types ==>
               TypeCompatible(InferredType(chain, if source.Some? then Some(source.value.dataType) else None),
                   types[e.canonical.value]))
         && MapsAcceptable(spec, chain, source)
         && (if spec.bidirectional then !Unknown(chain) && !NoReverse(chain) else !LookupBreaks(chain))
  }

  ghost predicate Acceptable(spec: Spec, ir: seq<Record>, types: Types) {
    && (forall i :: 0 <= i < |ir| ==> ir[i].path in Covered(spec.mappings))
    && (forall i :: 0 <= i < |spec.mappings| ==> EntryAcceptable(spec, ir, types, spec.mappings[i]))
  }

  lemma TargetsOfFront(t: Transforms.ValueTable)
    requires t != []
    ensures Targets(t) == Targets(t[..|t| - 1]) + {t[|t| - 1].1}
  {
    var front, last := t[..|t| - 1], t[|t| - 1].1;
    forall x ensures x in Targets(t) <==> x in Targets(front) + {last} {
      if i :| 0 <= i < |t| && t[i].1 == x && i < |front| { assert front[i].1 == x; }
      if x in Targets(front) {
        var i :| 0 <= i < |front| && front[i].1 == x;
        assert t[i].1 == x;
      }
    }
  }

  lemma {:induction false} InjectiveByCount(t: Transforms.ValueTable)
    ensures |Targets(t)| <= |t|
    ensures |Targets(t)| == |t| <==> Transforms.Injective(t)
  {
    if t != [] {
      var front, last := t[..|t| - 1], t[|t| - 1].1;
      InjectiveByCount(front);
      TargetsOfFront(t);
      if last in Targets(front) {
        assert Targets(t) == Targets(front);
        var i :| 0 <= i < |front| && front[i].1 == last;
        assert t[i].1 == t[|t| - 1].1;
      } else {
        forall i, j | 0 <= i < j < |t| && Transforms.Injective(front) ensures t[i].1 != t[j].1 {
          assert t[i] == front[i] && front[i].1 in Targets(front);
          if j < |front| { assert t[j] == front[j]; }
        }
        if Transforms.Injective(t) {
          forall i, j | 0 <= i < j < |front| ensures front[i].1 != front[j].1 {
            assert front[i] == t[i] && front[j] == t[j];
          }
        }
      }
    }
  }

  lemma {:induction false} MapErrorsExact(spec: Spec, e: Entry, chain: seq<TransformCall>, source: Option<Record>)
    ensures AllMapErrors(spec, e, chain, source) == [] <==> MapsAcceptable(spec, chain, source)
  {
    if chain != [] {
      MapErrorsExact(spec, e, chain[1..], source);
      if Named(spec, chain[0]).Some? { InjectiveByCount(Named(spec, chain[0]).value.table); }
      assert forall i :: 0 <= i < |chain[1..]| ==> chain[1..][i] == chain[i + 1];
      assert MapErrors(spec, e, chain[0], source) == [] <==> MapsAcceptable(spec, [chain[0]], source) by {
        assert [chain[0]][0] == chain[0];
      }
      if MapsAcceptable(spec, [chain[0]], source) && MapsAcceptable(spec, chain[1..], source) {
        forall i | 0 <= i < |chain| ensures chain[i] == if i == 0 then [chain[0]][0] else chain[1..][i - 1] {}
      }
      if MapsAcceptable(spec, chain, source) {
        assert MapsAcceptable(spec, [chain[0]], source);
        assert MapsAcceptable(spec, chain[1..], source);
      }
    }
  }

  lemma {:induction false} TotalityExact(ir: seq<Record>, covered: set<string>)
    ensures TotalityErrors(ir, covered) == [] <==> forall i :: 0 <= i < |ir| ==> ir[i].path in covered
  {
    if ir != [] {
      TotalityExact(ir[1..], covered);
      assert forall i :: 0 <= i < |ir[1..]| ==> ir[1..][i] == ir[i + 1];
      if TotalityErrors(ir, covered) == [] {
        forall i | 0 <= i < |ir| ensures ir[i].path in covered {
          if i > 0 { assert ir[i] == ir[1..][i - 1]; }
        }
      }
    }
  }

  lemma {:induction false} KnownNamesNeverBreak(chain: seq<TransformCall>)
    requires !Unknown(chain)
    ensures !LookupBreaks(chain)
  {
    if chain != [] {
      assert forall i :: 0 <= i < |chain[1..]| ==> chain[1..][i] == chain[i + 1];
      KnownNamesNeverBreak(chain[1..]);
    }
  }

  /** The three loops and the plan builder together pass exactly the acceptable entries. */
  lemma {:induction false} EntriesExact(spec: Spec, ir: seq<Record>, types: Types, entries: seq<Entry>)
    ensures (ParseErrors(entries) == [] && CheckErrors(spec, ir, types, entries) == Some([]) &&
            BuildSteps(spec, entries).Some?)
            <==> forall i :: 0 <= i < |entries| ==> EntryAcceptable(spec, ir, types, entries[i])
    decreases |entries|
  {
    if entries != [] {
      var e, rest := entries[0], entries[1..];
      EntriesExact(spec, ir, types, rest);
      EntryExact(spec, ir, types, e);
      assert entries == [e] + rest;
      assert (forall i :: 0 <= i < |entries| ==> EntryAcceptable(spec, ir, types, entries[i])) <==>
             EntryAcceptable(spec, ir, types, e) &&
                 (forall i :: 0 <= i < |rest| ==> EntryAcceptable(spec, ir, types, rest[i]));
    }
  }

  ghost predicate EntryPasses(spec: Spec, ir: seq<Record>, types: Types, e: Entry) {
    && (e.disposition.None? && Truthy(e.transform) ==> Parse(e.transform.value).Some?)
    && (ParsedChain(e).Some? ==>
          !(spec.bidirectional && Unknown(ParsedChain(e).value)) &&
              EntryErrors(spec, ir, types, e, ParsedChain(e).value) == [])
    && BuildStep(spec, e).Some?
  }

  lemma EntryExact(spec: Spec, ir: seq<Record>, types: Types, e: Entry)
    ensures EntryPasses(spec, ir, types, e) <==> EntryAcceptable(spec, ir, types, e)
  {
    if ParsedChain(e).Some? {
      var chain := ParsedChain(e).value;
      MapErrorsExact(spec, e, chain, FindRecord(ir, e.region));
      if !Unknown(chain) { KnownNamesNeverBreak(chain); }
    }
  }

  /** compile_spec returns a plan exactly for the specs that meet every rule. */
  lemma CompilesIffAcceptable(spec: Spec, ir: seq<Record>, types: Types)
    ensures Compile(spec, ir, types).Compiled? <==> Acceptable(spec, ir, types)
  {
    TotalityExact(ir, Covered(spec.mappings));
    EntriesExact(spec, ir, types, spec.mappings);
  }

  // ----------------------------------------------------- what the plan can rely on

  ghost predicate DictTables(spec: Spec) {
    forall k :: k in spec.valueMaps ==> Transforms.DistinctKeys(spec.valueMaps[k].table)
  }

  /** What every mapped step of an accepted spec satisfies. */
  ghost predicate SoundStep(bidirectional: bool, s: Step) {
    Mapped(s) ==>
      && Transforms.TablesDistinct(s.chain)
      && (s.weight >= 5 ==> s.onFailure.OnReject? || s.onFailure.OnEscalate?)
      && (bidirectional ==>
            && s.reversible && s.lossKind != Some("undefined-reverse")
            && forall i :: 0 <= i < |s.chain| ==>
                 && s.chain[i].name in Transforms.NAMES && Transforms.HasReverse(s.chain[i].name)
                 && (s.chain[i].name == "valueMap" ==>
                       s.chain[i].resolved.Some? && Transforms.Injective(s.chain[i].resolved.value.table)))
  }

  /** An entry of weight 5 has a step that rejects or escalates. */
  ghost predicate LoudAtFive(e: Entry, s: Step) {
    e.disposition.None? && e.weight.Some? && e.weight.value >= 5 ==> s.onFailure.OnReject? || s.onFailure.OnEscalate?
  }

  /** A plan has one step for each entry, built from it. */
  lemma {:induction false} BuiltFromEntries(spec: Spec, entries: seq<Entry>)
    requires BuildSteps(spec, entries).Some?
    ensures var steps := BuildSteps(spec, entries).value;
            |steps| == |entries| && forall i :: 0 <= i < |steps| ==> BuildStep(spec, entries[i]) == Some(steps[i])
    decreases |entries|
  {
    if entries != [] { BuiltFromEntries(spec, entries[1..]); }
  }

  lemma BuiltStepSound(spec: Spec, ir: seq<Record>, types: Types, e: Entry)
    requires DictTables(spec) && EntryAcceptable(spec, ir, types, e) && BuildStep(spec, e).Some?
    ensures SoundStep(spec.bidirectional, BuildStep(spec, e).value) && LoudAtFive(e, BuildStep(spec, e).value)
  {
  }

  /** Every plan compile_spec returns is made of sound steps, one for each entry, and is loud about
      every entry of weight 5. */
  lemma AcceptedPlanSound(spec: Spec, ir: seq<Record>, types: Types)
    requires DictTables(spec) && Compile(spec, ir, types).Compiled?
    ensures var steps := Compile(spec, ir, types).steps;
            |steps| == |spec.mappings| &&
            forall i :: 0 <= i < |steps| ==>
              SoundStep(spec.bidirectional, steps[i]) && LoudAtFive(spec.mappings[i], steps[i])
  {
    CompilesIffAcceptable(spec, ir, types);
    BuiltFromEntries(spec, spec.mappings);
    var steps := Compile(spec, ir, types).steps;
    forall i | 0 <= i < |steps| ensures SoundStep(spec.bidirectional, steps[i]) &&
        LoudAtFive(spec.mappings[i], steps[i])
    {
      BuiltStepSound(spec, ir, types, spec.mappings[i]);
    }
  }
}
