/**
 mapping/compiler.py, from outside: which errors a spec gets, when compiling raises, and what
 every step of an accepted plan takes from its entry.
 */
module CompileRules {
  import opened Wrappers
  import opened Documents
  import opened TransformParser
  import opened Interpreter
  import opened Compiler
  import Transforms

  // ----------------------------------------------------------------- the source record

  ghost predicate LastAt(ir: seq<Record>, path: string, k: int) {
    0 <= k < |ir| && ir[k].path == path && forall j :: k < j < |ir| ==> ir[j].path != path
  }

  /** Of several records with one path the last is looked up; a missing or empty path finds none. */
  lemma {:induction false} LastRecordFound(ir: seq<Record>, path: Option<string>)
    ensures FindRecord(ir, path).None? <==>
            path.None? || path.value == "" || forall k :: 0 <= k < |ir| ==> ir[k].path != path.value
    ensures FindRecord(ir, path).Some? ==> exists k :: LastAt(ir, path.value, k) && FindRecord(ir, path).value == ir[k]
  {
    if Truthy(path) && ir != [] {
      var front, last := ir[..|ir| - 1], |ir| - 1;
      if ir[last].path == path.value {
        assert LastAt(ir, path.value, last);
      } else {
        LastRecordFound(front, path);
        assert forall k :: 0 <= k < |front| ==> front[k] == ir[k];
        if FindRecord(front, path).Some? {
          var k :| LastAt(front, path.value, k) && FindRecord(front, path).value == front[k];
          assert LastAt(ir, path.value, k);
        }
      }
    }
  }

  // -------------------------------------------------------------------- the five rules

  /** Some entry declares this region path; an empty one is never covered. */
  ghost predicate Claimed(entries: seq<Entry>, path: string) {
    path != "" && exists i :: 0 <= i < |entries| && entries[i].region == Some(path)
  }

  /** A record of the region that no entry covers. */
  ghost predicate Uncovered(ir: seq<Record>, entries: seq<Entry>, x: CompileError) {
    x.check == "T1" && !Claimed(entries, x.path) && exists k :: 0 <= k < |ir| && ir[k].path == x.path
  }

  ghost predicate UsesKey(spec: Spec, call: TransformCall, key: string) {
    key != "" && key in spec.valueMaps && "map" in call.args && call.args["map"] == Str(key)
  }

  /** A source value of the record that no row of the table maps. */
  ghost predicate Unmapped(t: Transforms.ValueTable, source: Option<Record>, v: string) {
    source.Some? && v in source.value.enumeration && forall i :: 0 <= i < |t| ==> t[i].0 != v
  }

  /** The call names no value map, or one that leaves a value of the record out without a policy,
      or one with two rows for a target in a spec that runs both ways. */
  ghost predicate BadMap(spec: Spec, call: TransformCall, source: Option<Record>) {
    || (forall key :: !UsesKey(spec, call, key))
    || exists key :: UsesKey(spec, call, key)
         && var vm := spec.valueMaps[key];
            || (vm.unmapped.None? && exists v :: Unmapped(vm.table, source, v))
            || (spec.bidirectional && exists i, j :: 0 <= i < j < |vm.table| && vm.table[i].1 == vm.table[j].1)
  }

  /** A type that fits none of: no type at all, the expected one, a widening to it. */
  ghost predicate Misfit(produced: Option<string>, expected: string) {
    && produced.Some? && produced.value != expected
    && !(produced.value == "date" && expected == "dateTime")
    && !(produced.value == "integer" && expected == "decimal")
    && !(produced.value == "decimal" && expected == "integer")
    && !(produced.value == "MonetaryAmount" && expected == "object")
    && !(produced.value == "Identifier" && expected == "object")
  }

  ghost predicate SilentAtFive(e: Entry) {
    e.weight.Some? && e.weight.value >= 5 && (e.onFailure == Some(OnSkip) || e.onFailure == Some(OnDefault))
  }

  ghost predicate MisfitEntry(e: Entry, calls: seq<TransformCall>, source: Option<Record>, types: Types) {
    && e.canonical.Some? && e.canonical.value != "" && e.canonical.value in types
    && Misfit(InferredType(calls, if source.Some? then Some(source.value.dataType) else None), types[e.canonical.value])
  }

  ghost predicate OneWay(calls: seq<TransformCall>) {
    exists i :: 0 <= i < |calls| && (calls[i].name == "coalesce" || calls[i].name == "constant")
  }

  /** The entry has a transform to parse. */
  ghost predicate Transformed(e: Entry) { e.disposition.None? && e.transform.Some? && e.transform.value != "" }

  ghost predicate Unparsed(e: Entry) { Transformed(e) && Parse(e.transform.value).None? }

  ghost predicate Parsed(e: Entry) { Transformed(e) && Parse(e.transform.value).Some? }

  /** The rule an entry whose transform parses to these calls breaks. */
  ghost predicate BreaksRule(spec: Spec, e: Entry, calls: seq<TransformCall>, source: Option<Record>, types: Types,
        check: string)
  {
    || (check == "T2" && SilentAtFive(e))
    || (check == "T3" && MisfitEntry(e, calls, source, types))
    || (check == "T4" && exists i :: 0 <= i < |calls| && calls[i].name == "valueMap" && BadMap(spec, calls[i], source))
    || (check == "D1" && spec.bidirectional && OneWay(calls))
  }

  ghost predicate Breaks(spec: Spec, ir: seq<Record>, types: Types, e: Entry, check: string) {
    && Transformed(e)
    && match Parse(e.transform.value)
       case None => check == "PARSE"
       case Some(calls) => BreaksRule(spec, e, calls, FindRecord(ir, e.region), types, check)
  }

  ghost predicate Complained(spec: Spec, ir: seq<Record>, types: Types, entries: seq<Entry>, x: CompileError) {
    exists i :: 0 <= i < |entries| && Breaks(spec, ir, types, entries[i], x.check) &&
                x.path == if entries[i].canonical.Some? then entries[i].canonical.value else ""
  }

  // -------------------------------------------------------------- the errors are exact

  lemma NamedIsUsed(spec: Spec, call: TransformCall)
    ensures Named(spec, call).None? <==> forall key :: !UsesKey(spec, call, key)
    ensures forall key :: UsesKey(spec, call, key) ==> Named(spec, call) == Some(spec.valueMaps[key])
  {
    if Named(spec, call).Some? { assert UsesKey(spec, call, call.args["map"].s); }
  }

  lemma UnmappedIff(t: Transforms.ValueTable, source: Option<Record>)
    ensures Declared(source) <= Keys(t) <==> forall v :: !Unmapped(t, source, v)
  {
    forall v ensures v in Declared(source) - Keys(t) <==> Unmapped(t, source, v) {
      if source.Some? && v in source.value.enumeration {
        var i :| 0 <= i < |source.value.enumeration| && source.value.enumeration[i] == v;
      }
    }
    if forall v :: !Unmapped(t, source, v) {
      forall v | v in Declared(source) ensures v in Keys(t) { assert !Unmapped(t, source, v); }
    }
    forall v | Declared(source) <= Keys(t) ensures !Unmapped(t, source, v) { assert v !in Declared(source) - Keys(t); }
  }

  lemma InjectiveIff(t: Transforms.ValueTable)
    ensures |Targets(t)| != |t| <==> exists i, j :: 0 <= i < j < |t| && t[i].1 == t[j].1
  {
    InjectiveByCount(t);
  }

  lemma CallErrors(spec: Spec, e: Entry, call: TransformCall, source: Option<Record>, x: CompileError)
    ensures x in MapErrors(spec, e, call, source) <==>
            x == CompileError("T4", Label(e)) && call.name == "valueMap" && BadMap(spec, call, source)
  {
    NamedIsUsed(spec, call);
    if Named(spec, call).Some? {
      var key := call.args["map"].s;
      assert UsesKey(spec, call, key);
      UnmappedIff(Named(spec, call).value.table, source);
      InjectiveIff(Named(spec, call).value.table);
    }
  }

  lemma {:induction false} ChainErrors(spec: Spec, e: Entry, calls: seq<TransformCall>, source: Option<Record>,
        x: CompileError)
    ensures x in AllMapErrors(spec, e, calls, source) <==>
            && x == CompileError("T4", Label(e))
            && exists i :: 0 <= i < |calls| && calls[i].name == "valueMap" && BadMap(spec, calls[i], source)
  {
    if calls != [] {
      var rest := calls[1..];
      CallErrors(spec, e, calls[0], source, x);
      ChainErrors(spec, e, rest, source, x);
      assert forall i :: 0 <= i < |rest| ==> rest[i] == calls[i + 1];
    }
  }

  lemma OneEntryErrors(spec: Spec, ir: seq<Record>, types: Types, e: Entry, calls: seq<TransformCall>, x: CompileError)
    ensures x in EntryErrors(spec, ir, types, e, calls) <==>
            x.path == Label(e) && BreaksRule(spec, e, calls, FindRecord(ir, e.region), types, x.check)
  {
    var source := FindRecord(ir, e.region);
    ChainErrors(spec, e, calls, source, x);
    assert x in WeightErrors(e) <==> x == CompileError("T2", Label(e)) && SilentAtFive(e);
    assert x in TypeErrors(e, calls, source, types) <==>
           x == CompileError("T3", Label(e)) && MisfitEntry(e, calls, source, types);
    assert x in ReverseErrors(spec, e, calls) <==>
           x == CompileError("D1", Label(e)) && spec.bidirectional && OneWay(calls);
  }

  lemma {:induction false} UnparsedErrors(entries: seq<Entry>, x: CompileError)
    ensures x in ParseErrors(entries) <==>
            x.check == "PARSE" && exists i :: 0 <= i < |entries| && Unparsed(entries[i]) && x.path == Label(entries[i])
  {
    if entries != [] {
      var rest := entries[1..];
      UnparsedErrors(rest, x);
      assert forall i :: 0 <= i < |rest| ==> rest[i] == entries[i + 1];
    }
  }

  lemma {:induction false} ParsedErrors(spec: Spec, ir: seq<Record>, types: Types, entries: seq<Entry>, x: CompileError)
    requires CheckErrors(spec, ir, types, entries).Some?
    ensures x in CheckErrors(spec, ir, types, entries).value <==>
            exists i :: 0 <= i < |entries| && Parsed(entries[i]) && x.path == Label(entries[i]) &&
              Breaks(spec, ir, types, entries[i], x.check)
    decreases |entries|
  {
    if entries != [] {
      var rest := entries[1..];
      ParsedErrors(spec, ir, types, rest, x);
      assert forall i :: 0 <= i < |rest| ==> rest[i] == entries[i + 1];
      if ParsedChain(entries[0]).Some? {
        OneEntryErrors(spec, ir, types, entries[0], ParsedChain(entries[0]).value, x);
      }
    }
  }

  lemma {:induction false} UncoveredErrors(ir: seq<Record>, entries: seq<Entry>, x: CompileError)
    ensures x in TotalityErrors(ir, Covered(entries)) <==> Uncovered(ir, entries, x)
    decreases |ir|
  {
    if ir != [] {
      var rest := ir[1..];
      UncoveredErrors(rest, entries, x);
      assert forall k :: 0 <= k < |rest| ==> rest[k] == ir[k + 1];
      assert ir[0].path in Covered(entries) <==> Claimed(entries, ir[0].path);
    }
  }

  /** A failed compilation reports exactly the uncovered records and, for each entry, exactly the
      rules it breaks, under the entry's canonical path. */
  lemma ErrorsExact(spec: Spec, ir: seq<Record>, types: Types, x: CompileError)
    requires Compile(spec, ir, types).CompileFailed?
    ensures x in Compile(spec, ir, types).errors <==>
            Uncovered(ir, spec.mappings, x) || Complained(spec, ir, types, spec.mappings, x)
  {
    UncoveredErrors(ir, spec.mappings, x);
    UnparsedErrors(spec.mappings, x);
    ParsedErrors(spec, ir, types, spec.mappings, x);
    ComplaintSources(spec, ir, types, spec.mappings, x);
  }

  /** A complaint comes from an entry that does not parse or from one that does. */
  lemma ComplaintSources(spec: Spec, ir: seq<Record>, types: Types, entries: seq<Entry>, x: CompileError)
    ensures Complained(spec, ir, types, entries, x) <==>
            || (exists i :: 0 <= i < |entries| && Parsed(entries[i]) && x.path == Label(entries[i]) &&
                  Breaks(spec, ir, types, entries[i], x.check))
            || (x.check == "PARSE" &&
                  exists i :: 0 <= i < |entries| && Unparsed(entries[i]) && x.path == Label(entries[i]))
  {
    if Complained(spec, ir, types, entries, x) {
      var i :| 0 <= i < |entries| && Breaks(spec, ir, types, entries[i], x.check) &&
               x.path == if entries[i].canonical.Some? then entries[i].canonical.value else "";
      assert x.path == Label(entries[i]);
    }
  }

  // ------------------------------------------------------------------ how compiling ends

  /** D1 looks an unknown name up. */
  ghost predicate UnknownName(spec: Spec, e: Entry) {
    && spec.bidirectional && Parsed(e)
    && exists i :: 0 <= i < |Parse(e.transform.value).value| && Parse(e.transform.value).value[i].name !in
         Transforms.NAMES
  }

  /** The plan builder has no chain to take, or meets an unknown name before any call that has
      no reverse. */
  ghost predicate NoStep(e: Entry) {
    && e.disposition.None?
    && (!Parsed(e) || LookupRaises(Parse(e.transform.value).value))
  }

  ghost predicate LookupRaises(calls: seq<TransformCall>) {
    exists i :: 0 <= i < |calls| && calls[i].name !in Transforms.NAMES &&
                forall j :: 0 <= j < i ==> calls[j].name != "coalesce" && calls[j].name != "constant"
  }

  lemma {:induction false} LookupRaisesIff(calls: seq<TransformCall>)
    ensures LookupBreaks(calls) <==> LookupRaises(calls)
  {
    if calls != [] {
      var rest := calls[1..];
      LookupRaisesIff(rest);
      assert forall i :: 0 <= i < |rest| ==> rest[i] == calls[i + 1];
      if LookupRaises(rest) && calls[0].name in Transforms.NAMES && Transforms.HasReverse(calls[0].name) {
        var i :| 0 <= i < |rest| && rest[i].name !in Transforms.NAMES &&
                 forall j :: 0 <= j < i ==> rest[j].name != "coalesce" && rest[j].name != "constant";
        assert calls[i + 1].name !in Transforms.NAMES;
      }
      if i :| 0 <= i < |calls| && calls[i].name !in Transforms.NAMES &&
              forall j :: 0 <= j < i ==> calls[j].name != "coalesce" && calls[j].name != "constant"
      {
        if i > 0 { assert rest[i - 1].name !in Transforms.NAMES; }
      }
    }
  }

  lemma {:induction false} ChecksRaise(spec: Spec, ir: seq<Record>, types: Types, entries: seq<Entry>)
    ensures CheckErrors(spec, ir, types, entries).None? <==>
            exists i :: 0 <= i < |entries| && UnknownName(spec, entries[i])
    decreases |entries|
  {
    if entries != [] {
      var rest := entries[1..];
      ChecksRaise(spec, ir, types, rest);
      assert forall i :: 0 <= i < |rest| ==> rest[i] == entries[i + 1];
    }
  }

  lemma {:induction false} BuilderRaises(spec: Spec, entries: seq<Entry>)
    ensures BuildSteps(spec, entries).None? <==> exists i :: 0 <= i < |entries| && NoStep(entries[i])
    decreases |entries|
  {
    if entries != [] {
      var rest := entries[1..];
      BuilderRaises(spec, rest);
      assert forall i :: 0 <= i < |rest| ==> rest[i] == entries[i + 1];
      if Parsed(entries[0]) { LookupRaisesIff(Parse(entries[0].transform.value).value); }
    }
  }

  /** A rule is broken: a record nobody covers, or an entry with an error. */
  ghost predicate Faulty(spec: Spec, ir: seq<Record>, types: Types) {
    || (exists k :: 0 <= k < |ir| && !Claimed(spec.mappings, ir[k].path))
    || exists i, check :: 0 <= i < |spec.mappings| && Breaks(spec, ir, types, spec.mappings[i], check)
  }

  ghost predicate Raises(spec: Spec) { exists i :: 0 <= i < |spec.mappings| && UnknownName(spec, spec.mappings[i]) }

  ghost predicate Stuck(spec: Spec) { exists i :: 0 <= i < |spec.mappings| && NoStep(spec.mappings[i]) }

  /** How compile_spec ends: with the errors of a spec that breaks a rule, unless D1 raised first;
      otherwise with a plan, unless the builder raises. */
  lemma OutcomeExact(spec: Spec, ir: seq<Record>, types: Types)
    ensures Compile(spec, ir, types).CompileFailed? <==> !Raises(spec) && Faulty(spec, ir, types)
    ensures Compile(spec, ir, types).Compiled? <==> !Raises(spec) && !Faulty(spec, ir, types) && !Stuck(spec)
  {
    ChecksRaise(spec, ir, types, spec.mappings);
    BuilderRaises(spec, spec.mappings);
    if CheckErrors(spec, ir, types, spec.mappings).Some? {
      FaultyIff(spec, ir, types);
    }
  }

  lemma FaultyIff(spec: Spec, ir: seq<Record>, types: Types)
    requires CheckErrors(spec, ir, types, spec.mappings).Some?
    ensures Faulty(spec, ir, types) <==>
            TotalityErrors(ir, Covered(spec.mappings)) + ParseErrors(spec.mappings) +
              CheckErrors(spec, ir, types, spec.mappings).value != []
  {
    var a, b, c := TotalityErrors(ir, Covered(spec.mappings)), ParseErrors(spec.mappings),
        CheckErrors(spec, ir, types, spec.mappings).value;
    var all := a + b + c;
    forall x: CompileError
      ensures x in all <==> Uncovered(ir, spec.mappings, x) || Complained(spec, ir, types, spec.mappings, x)
    {
      UncoveredErrors(ir, spec.mappings, x);
      UnparsedErrors(spec.mappings, x);
      ParsedErrors(spec, ir, types, spec.mappings, x);
      ComplaintSources(spec, ir, types, spec.mappings, x);
    }
    if all != [] {
      var x := all[0];
      assert x in all;
    }
    if k :| 0 <= k < |ir| && !Claimed(spec.mappings, ir[k].path) {
      assert CompileError("T1", ir[k].path) in all;
    }
    if i, check :| 0 <= i < |spec.mappings| && Breaks(spec, ir, types, spec.mappings[i], check) {
      var x := CompileError(check, Label(spec.mappings[i]));
      assert Complained(spec, ir, types, spec.mappings, x);
      assert x in all;
    }
  }

  // ------------------------------------------------------------- a step and its entry

  /** The calls of a step are those the entry's transform parses to, each value map with the rows
      and the policy of the map it names. */
  ghost predicate CallsFollow(spec: Spec, calls: seq<TransformCall>, chain: seq<Transforms.Call>) {
    && |chain| == |calls|
    && forall i :: 0 <= i < |calls| ==>
         && chain[i].name == calls[i].name && chain[i].args == calls[i].args
         && (calls[i].name != "valueMap" ==> chain[i].resolved.None?)
         && (calls[i].name == "valueMap" ==>
               exists key :: UsesKey(spec, calls[i], key) && chain[i].resolved.Some?
                 && chain[i].resolved.value.table == spec.valueMaps[key].table
                 && chain[i].resolved.value.policy ==
                    if spec.valueMaps[key].unmapped.Some? then spec.valueMaps[key].unmapped.value
                    else Transforms.Escalate)
  }

  ghost predicate Lossy(calls: seq<TransformCall>) {
    exists i :: 0 <= i < |calls| && calls[i].name in {"parseDate", "instantAtStartOfDay", "normaliseCase"}
  }

  /** What a step takes from its entry. */
  ghost predicate Follows(spec: Spec, e: Entry, s: Step) {
    && s.weight == (if e.weight.Some? then e.weight.value else 0)
    && s.regionPath == e.region && s.disposition == e.disposition && s.note == e.note
    && (e.disposition.Some? ==>
          s.canonicalPath.None? && s.chain == [] && s.onFailure == OnEscalate && !s.reversible && s.lossKind.None?)
    && (e.disposition.None? ==>
          && s.canonicalPath == e.canonical
          && s.onFailure == (if e.onFailure.Some? then e.onFailure.value else OnEscalate)
          && Parsed(e)
          && var calls := Parse(e.transform.value).value;
             && CallsFollow(spec, calls, s.chain)
             && (s.reversible <==> !OneWay(calls))
             && s.lossKind == if OneWay(calls) then Some("undefined-reverse")
                              else if Lossy(calls) && e.note.Some? && e.note.value != "" then Some("precision")
                              else None)
  }

  lemma ResolvedFollow(spec: Spec, calls: seq<TransformCall>, source: Option<Record>)
    requires MapsAcceptable(spec, calls, source)
    ensures CallsFollow(spec, calls, ResolveAll(spec, calls))
  {
    forall i | 0 <= i < |calls| && calls[i].name == "valueMap"
      ensures UsesKey(spec, calls[i], calls[i].args["map"].s)
    {
      assert Named(spec, calls[i]).Some?;
    }
  }

  lemma BuiltFollows(spec: Spec, ir: seq<Record>, types: Types, e: Entry)
    requires BuildStep(spec, e).Some? && EntryAcceptable(spec, ir, types, e)
    ensures Follows(spec, e, BuildStep(spec, e).value)
  {
    if e.disposition.None? {
      ResolvedFollow(spec, ParsedChain(e).value, FindRecord(ir, e.region));
      assert NoReverse(ParsedChain(e).value) <==> OneWay(ParsedChain(e).value);
    }
  }

  /** An accepted plan has one step for each entry, in order, and each takes from its entry what
      it should. */
  lemma StepsFollowEntries(spec: Spec, ir: seq<Record>, types: Types)
    requires Compile(spec, ir, types).Compiled?
    ensures var steps := Compile(spec, ir, types).steps;
            |steps| == |spec.mappings| && forall i :: 0 <= i < |steps| ==> Follows(spec, spec.mappings[i], steps[i])
  {
    CompilesIffAcceptable(spec, ir, types);
    BuiltFromEntries(spec, spec.mappings);
    forall i | 0 <= i < |spec.mappings| ensures Follows(spec, spec.mappings[i], Compile(spec, ir, types).steps[i]) {
      BuiltFollows(spec, ir, types, spec.mappings[i]);
    }
  }

  // ------------------------------------------------------------------- compile_spec

  /** compile_spec: three loops appending to one errors list, then _build_plan. Its errors are those
      of the rules, and its plan follows the entries. */
  method CompileSpec(spec: Spec, ir: seq<Record>, types: Types) returns (r: Compilation)
    ensures r == Compile(spec, ir, types)
    ensures r.CompileFailed? ==> forall x :: x in r.errors <==>
              Uncovered(ir, spec.mappings, x) || Complained(spec, ir, types, spec.mappings, x)
    ensures r.Compiled? ==>
              |r.steps| == |spec.mappings| && forall i :: 0 <= i < |r.steps| ==>
                  Follows(spec, spec.mappings[i], r.steps[i])
    ensures r.Compiled? <==> !Raises(spec) && !Faulty(spec, ir, types) && !Stuck(spec)
    ensures r.CompileFailed? <==> !Raises(spec) && Faulty(spec, ir, types)
  {
    OutcomeExact(spec, ir, types);
    if Compile(spec, ir, types).Compiled? { StepsFollowEntries(spec, ir, types); }
    if Compile(spec, ir, types).CompileFailed? {
      forall x ensures x in Compile(spec, ir, types).errors <==>
                         Uncovered(ir, spec.mappings, x) || Complained(spec, ir, types, spec.mappings, x)
      {
        ErrorsExact(spec, ir, types, x);
      }
    }
    var totality := CheckTotality(ir, Covered(spec.mappings));
    var parse := ParseEntries(spec.mappings);
    var checks := CheckEntries(spec, ir, types);
    if checks.None? { return CompileBroke; }
    var errors := totality + parse + checks.value;
    if errors != [] { return CompileFailed(errors); }
    var steps := BuildPlan(spec);
    r := if steps.None? then CompileBroke else Compiled(steps.value);
  }
}
