/**
 mapping/compiler.py's T3 beside mapping/transforms.py: the type inferred for a chain is the type
 of what the chain gives, unless coalesce comes after the last call that fixes a type.
 */
module TypeFit {
  import opened Wrappers
  import opened Documents
  import opened TransformParser
  import opened Transforms
  import opened TransformResults
  import opened Compiler

  /** The values of a data type. */
  ghost predicate HasType(v: Value, t: string) {
    match t
    case "string" => v.Str?
    case "date" => v.Day?
    case "dateTime" => v.DateTime?
    case "decimal" => v.Num?
    case "integer" => v.Num?
    case "boolean" => v.Bool?
    case "array" => v.List?
    case "object" => v.Obj?
    case "MonetaryAmount" => v.Obj? && v.fields.Keys == {"amount", "currency"} && v.fields["amount"].Num?
    case "Identifier" => v.Obj? && v.fields.Keys == {"value", "scheme", "issuer"}
    case _ => false
  }

  ghost predicate SameCall(call: TransformCall, c: Call) { c.name == call.name && c.args == call.args }

  ghost predicate SameCalls(calls: seq<TransformCall>, chain: seq<Call>) {
    |calls| == |chain| && forall i :: 0 <= i < |calls| ==> SameCall(calls[i], chain[i])
  }

  lemma TextSetterFits(lib: Library, call: TransformCall, c: Call, v: Value, w: Value)
    requires SameCall(call, c) && Gives(lib, c, v, w)
    requires call.name in {"formatDate", "valueMap", "compose", "concat", "normaliseCase"}
    ensures SetsType(call) && TypeSet(call) == Some("string") && w.Str?
  {
  }

  lemma ObjectSetterFits(lib: Library, call: TransformCall, c: Call, v: Value, w: Value)
    requires SameCall(call, c) && Gives(lib, c, v, w)
    requires call.name in {"toMonetaryAmount", "toIdentifier", "decompose"}
    ensures SetsType(call) && TypeSet(call).Some? && HasType(w, TypeSet(call).value)
  {
  }

  lemma OtherSetterFits(lib: Library, call: TransformCall, c: Call, v: Value, w: Value)
    requires SameCall(call, c) && Gives(lib, c, v, w)
    requires call.name in {"parseDate", "instantAtStartOfDay", "scale"}
    ensures SetsType(call) && TypeSet(call).Some? && HasType(w, TypeSet(call).value)
  {
  }

  /** A call that fixes a type gives values of it, and constant alone fixes none. */
  lemma SetterFits(lib: Library, call: TransformCall, c: Call, v: Value, w: Value)
    requires SameCall(call, c) && SetsType(call) && Gives(lib, c, v, w)
    ensures TypeSet(call).None? <==> call.name == "constant"
    ensures TypeSet(call).Some? ==> HasType(w, TypeSet(call).value)
  {
    if call.name in {"formatDate", "valueMap", "compose", "concat", "normaliseCase"} {
      TextSetterFits(lib, call, c, v, w);
    } else if call.name in {"toMonetaryAmount", "toIdentifier", "decompose"} {
      ObjectSetterFits(lib, call, c, v, w);
    } else if call.name != "constant" {
      OtherSetterFits(lib, call, c, v, w);
    }
  }

  /** Of the other calls only coalesce changes the value. */
  lemma OthersKeep(lib: Library, call: TransformCall, c: Call, v: Value, w: Value)
    requires SameCall(call, c) && !SetsType(call) && Gives(lib, c, v, w)
    ensures call.name == "coalesce" || w == v
  {
  }

  /** No coalesce after the last call that fixes a type. */
  ghost predicate Steady(calls: seq<TransformCall>) {
    forall i :: 0 <= i < |calls| && calls[i].name == "coalesce" ==> exists j :: i < j < |calls| && SetsType(calls[j])
  }

  lemma FrontSteady(calls: seq<TransformCall>)
    requires calls != [] && Steady(calls) && !SetsType(calls[|calls| - 1])
    ensures Steady(calls[..|calls| - 1]) && calls[|calls| - 1].name != "coalesce"
  {
    var front := calls[..|calls| - 1];
    forall i | 0 <= i < |front| && front[i].name == "coalesce"
      ensures exists j :: i < j < |front| && SetsType(front[j])
    {
      var j :| i < j < |calls| && SetsType(calls[j]);
      assert front[j] == calls[j];
    }
  }

  /** What a chain gives has the type inferred for it, when the value it is given has the type the
      source declares. */
  lemma {:induction false} InferredTypeFits(lib: Library, calls: seq<TransformCall>, chain: seq<Call>, vs: seq<Value>,
        source: Option<string>)
    requires SameCalls(calls, chain) && Passes(lib, chain, vs) && Steady(calls)
    requires source.Some? ==> HasType(vs[0], source.value)
    ensures InferredType(calls, source).Some? ==> HasType(vs[|chain|], InferredType(calls, source).value)
    decreases |calls|
  {
    if calls != [] {
      var last := |calls| - 1;
      if SetsType(calls[last]) {
        SetterFits(lib, calls[last], chain[last], vs[last], vs[last + 1]);
      } else {
        FrontSteady(calls);
        OthersKeep(lib, calls[last], chain[last], vs[last], vs[last + 1]);
        InferredTypeFits(lib, calls[..last], chain[..last], vs[..|vs| - 1], source);
      }
    }
  }

  /** A chain that ends in coalesce is taken for the type of the list it is given. */
  lemma CoalesceMisleads(lib: Library)
    ensures var calls := [TransformCall("coalesce", map[])];
            && InferredType(calls, Some("array")) == Some("array") && HasType(List([Str("a")]), "array")
            && RunForward(lib, [Call("coalesce", map[], None)], List([Str("a")])) == Ok(Str("a"))
            && !HasType(Str("a"), "array")
  {
    var chain := [Call("coalesce", map[], None)];
    assert List([Str("a")]).items[0] == Str("a");
    assert chain[1..] == [];
  }
}
