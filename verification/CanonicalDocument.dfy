/**
 What the canonical document of an accepted spec holds after forward, read at the paths of the
 spec's own entries: the values their transforms promise, field by field.
 */
module CanonicalDocument {
  import opened Wrappers
  import opened Documents
  import opened Objects
  import opened TransformParser
  import opened Transforms
  import opened TransformResults
  import opened Interpreter
  import opened Compiler
  import opened CompileRules
  import opened RoundTrip
  import opened InstanceAfter
  import opened RoundTripTests
  import Text
  import TypeFit

  // -------------------------------------------------------------------- paths and chains

  /** A path one key longer. */
  lemma PartsBelow(path: string, key: string)
    requires '.' !in key
    ensures Parts(path + "." + key) == Parts(path) + [key]
  {
    var parts := Parts(path);
    var longer := parts + [key];
    Text.PiecesSeparated(path, ".");
    Text.JoinSplit(path, ".");
    JoinLast(parts, key, ".");
    Text.SeparatedByOne(parts, '.');
    forall i | 0 <= i < |longer| ensures '.' !in longer[i] { if i < |parts| { assert longer[i] == parts[i]; } }
    Text.SeparatedByOne(longer, '.');
    Text.SplitSeparated(longer, ".");
  }

  lemma {:induction false} ReadThrough(v: Value, p: Path, key: string)
    ensures Read(v, p + [key]) == Read(Read(v, p), [key])
    decreases |p|
  {
    if p == [] {
      assert [] + [key] == [key];
    } else {
      assert (p + [key])[1..] == p[1..] + [key];
      if v.Obj? && p[0] in v.fields { ReadThrough(v.fields[p[0]], p[1..], key); }
    }
  }

  /** A field of a dictionary is read below the dictionary's own path. */
  lemma FieldRead(v: Value, path: string, key: string, o: Value)
    requires '.' !in key && ReadAt(v, Some(path)) == o && o.Obj? && key in o.fields
    ensures ReadAt(v, Some(path + "." + key)) == o.fields[key]
  {
    PartsBelow(path, key);
    ReadThrough(v, Parts(path), key);
    assert Read(o, [key]) == Read(o.fields[key], [key][1..]);
  }

  lemma {:induction false} RunForwardLast(lib: Library, chain: seq<Call>, v: Value)
    requires chain != []
    ensures RunForward(lib, chain, v) ==
            match RunForward(lib, chain[..|chain| - 1], v)
            case Ok(u) => Forward(lib, chain[|chain| - 1], u)
            case Failed => Failed
            case Crashed => Crashed
    decreases |chain|
  {
    if |chain| == 1 {
      assert chain[..0] == [] && chain[1..] == [];
    } else {
      assert chain[..|chain| - 1][1..] == chain[1..][..|chain| - 2];
      match Forward(lib, chain[0], v)
      case Ok(u) => RunForwardLast(lib, chain[1..], u);
      case Failed =>
      case Crashed =>
    }
  }

  // ----------------------------------------------------------------- a completed forward

  ghost predicate SeparateRegions(entries: seq<Entry>) {
    forall i, j :: 0 <= i < j < |entries| && entries[i].disposition.None? && entries[j].disposition.None? ==>
      Separate(entries[i].region, entries[j].region)
  }

  /** Forward of the spec's plan has run to its end on the instance. */
  ghost predicate RanForward(spec: Spec, ir: seq<Record>, types: Types, steps: seq<Step>, lib: Library, x: Value) {
    && Compile(spec, ir, types) == Compiled(steps) && SeparatePaths(spec.mappings) && SeparateRegions(spec.mappings)
    && Outward(lib, steps, x).halt == Completed
  }

  /** The canonical document, as values. */
  ghost function Document(lib: Library, steps: seq<Step>, x: Value): Value {
    Erase(Outward(lib, steps, x).world.canonical)
  }

  /** The calls of entry i hand the last of them this value. */
  ghost predicate Hands(spec: Spec, steps: seq<Step>, lib: Library, x: Value, i: nat, calls: seq<TransformCall>,
        v: Value)
  {
    && i < |spec.mappings| && i < |steps| && spec.mappings[i].disposition.None? && spec.mappings[i].transform.Some?
    && Parse(spec.mappings[i].transform.value) == Some(calls) && calls != [] && |steps[i].chain| == |calls|
    && RunForward(lib, steps[i].chain[..|calls| - 1], ReadAt(x, spec.mappings[i].region)) == Ok(v)
  }

  lemma StepOf(spec: Spec, ir: seq<Record>, types: Types, steps: seq<Step>, lib: Library, x: Value, i: nat)
    requires RanForward(spec, ir, types, steps, lib, x) && i < |spec.mappings| && spec.mappings[i].disposition.None?
    ensures i < |steps| && Follows(spec, spec.mappings[i], steps[i]) && spec.mappings[i].canonical.Some?
    ensures CanonicalFree(steps) && RegionFree(steps)
  {
    StepsFollowEntries(spec, ir, types);
  }

  /** What entry i's chain gives is what its canonical path holds; where the chain is refused the
      path holds nothing. */
  lemma EntryLeaves(spec: Spec, ir: seq<Record>, types: Types, steps: seq<Step>, lib: Library, x: Value, i: nat)
    requires RanForward(spec, ir, types, steps, lib, x) && i < |spec.mappings| && spec.mappings[i].disposition.None?
    ensures i < |steps| && spec.mappings[i].canonical.Some?
    ensures var outcome, held := RunForward(lib, steps[i].chain, ReadAt(x, spec.mappings[i].region)),
            ReadAt(Document(lib, steps, x), spec.mappings[i].canonical);
            !outcome.Crashed? && held == if outcome.Ok? then outcome.value else Null
  {
    StepOf(spec, ir, types, steps, lib, x, i);
    ForwardIsValues(lib, steps, x);
    ForwardPointwise(lib, steps, x);
    assert ForwardAction(lib, x, steps[i]).target == spec.mappings[i].canonical;
  }

  /** The last call of an entry, as the transform library tells it: its canonical path holds what
      the call gives, or nothing when the call refuses its value. */
  lemma LastCallLeaves(spec: Spec, ir: seq<Record>, types: Types, steps: seq<Step>, lib: Library, x: Value, i: nat,
        calls: seq<TransformCall>, v: Value)
    requires RanForward(spec, ir, types, steps, lib, x) && Hands(spec, steps, lib, x, i, calls, v)
    ensures spec.mappings[i].canonical.Some?
    ensures var held, c := ReadAt(Document(lib, steps, x), spec.mappings[i].canonical), steps[i].chain[|calls| - 1];
            && c.name == calls[|calls| - 1].name && c.args == calls[|calls| - 1].args
            && (Gives(lib, c, v, held) || (Refuses(lib, c, v) && held == Null))
  {
    EntryLeaves(spec, ir, types, steps, lib, x, i);
    StepOf(spec, ir, types, steps, lib, x, i);
    RunForwardLast(lib, steps[i].chain, ReadAt(x, spec.mappings[i].region));
    ForwardExact(lib, steps[i].chain[|calls| - 1], v, ReadAt(Document(lib, steps, x), spec.mappings[i].canonical));
  }

  // --------------------------------------------------------- transform by transform

  /** After toIdentifier: the value it was handed, the scheme and the issuer, each at its path. */
  lemma IdentifierRead(spec: Spec, ir: seq<Record>, types: Types, steps: seq<Step>, lib: Library, x: Value, i: nat,
        calls: seq<TransformCall>, v: Value)
    requires RanForward(spec, ir, types, steps, lib, x) && Hands(spec, steps, lib, x, i, calls, v)
    requires calls[|calls| - 1].name == "toIdentifier" && v.Str?
    ensures spec.mappings[i].canonical.Some?
    ensures var doc, path, args := Document(lib, steps, x), spec.mappings[i].canonical.value, calls[|calls| - 1].args;
            && "scheme" in args && "issuer" in args
            && ReadAt(doc, Some(path + ".value")) == v
            && ReadAt(doc, Some(path + ".scheme")) == args["scheme"]
            && ReadAt(doc, Some(path + ".issuer")) == args["issuer"]
  {
    LastCallLeaves(spec, ir, types, steps, lib, x, i, calls, v);
    IdentifierFields(lib, steps[i].chain[|calls| - 1], v, Document(lib, steps, x), spec.mappings[i].canonical.value);
  }

  lemma IdentifierFields(lib: Library, c: Call, v: Value, doc: Value, path: string)
    requires c.name == "toIdentifier" && v.Str?
    requires Gives(lib, c, v, ReadAt(doc, Some(path))) || Refuses(lib, c, v)
    ensures "scheme" in c.args && "issuer" in c.args
    ensures ReadAt(doc, Some(path + ".value")) == v
    ensures ReadAt(doc, Some(path + ".scheme")) == c.args["scheme"]
    ensures ReadAt(doc, Some(path + ".issuer")) == c.args["issuer"]
  {
    var held := ReadAt(doc, Some(path));
    assert GivesIdentifier(c.args, v, held);
    Dotted(path, "value", ".value");
    Dotted(path, "scheme", ".scheme");
    Dotted(path, "issuer", ".issuer");
    FieldRead(doc, path, "value", held);
    FieldRead(doc, path, "scheme", held);
    FieldRead(doc, path, "issuer", held);
  }

  lemma Dotted(path: string, key: string, dotted: string)
    requires dotted == "." + key
    ensures path + "." + key == path + dotted
  {
  }

  /** After toMonetaryAmount: the number the value stands for and the currency. */
  lemma AmountRead(spec: Spec, ir: seq<Record>, types: Types, steps: seq<Step>, lib: Library, x: Value, i: nat,
        calls: seq<TransformCall>, v: Value, n: real)
    requires RanForward(spec, ir, types, steps, lib, x) && Hands(spec, steps, lib, x, i, calls, v)
    requires calls[|calls| - 1].name == "toMonetaryAmount"
    requires IsNumber(v, n) || (v.Str? && lib.parseFloat(v.s) == Some(n))
    ensures spec.mappings[i].canonical.Some?
    ensures var doc, path, args := Document(lib, steps, x), spec.mappings[i].canonical.value, calls[|calls| - 1].args;
            && "currency" in args
            && ReadAt(doc, Some(path + ".amount")) == Num(n)
            && ReadAt(doc, Some(path + ".currency")) == args["currency"]
  {
    LastCallLeaves(spec, ir, types, steps, lib, x, i, calls, v);
    AmountFields(lib, steps[i].chain[|calls| - 1], v, n, Document(lib, steps, x), spec.mappings[i].canonical.value);
  }

  lemma AmountFields(lib: Library, c: Call, v: Value, n: real, doc: Value, path: string)
    requires c.name == "toMonetaryAmount" && (IsNumber(v, n) || (v.Str? && lib.parseFloat(v.s) == Some(n)))
    requires Gives(lib, c, v, ReadAt(doc, Some(path))) || Refuses(lib, c, v)
    ensures "currency" in c.args
    ensures ReadAt(doc, Some(path + ".amount")) == Num(n)
    ensures ReadAt(doc, Some(path + ".currency")) == c.args["currency"]
  {
    var held := ReadAt(doc, Some(path));
    assert GivesAmount(lib, c.args, v, held);
    Dotted(path, "amount", ".amount");
    Dotted(path, "currency", ".currency");
    FieldRead(doc, path, "amount", held);
    FieldRead(doc, path, "currency", held);
  }

  /** After decompose: each part the pattern took from the text, under its name. */
  lemma PartRead(spec: Spec, ir: seq<Record>, types: Types, steps: seq<Step>, lib: Library, x: Value, i: nat,
        calls: seq<TransformCall>, v: Value, fields: map<string, Value>, key: string)
    requires RanForward(spec, ir, types, steps, lib, x) && Hands(spec, steps, lib, x, i, calls, v)
    requires calls[|calls| - 1].name == "decompose" && HasText(calls[|calls| - 1].args, "pattern") && v.Str?
    requires lib.fullMatch(calls[|calls| - 1].args["pattern"].s, v.s) == Groups(fields)
    requires key in fields && '.' !in key
    ensures spec.mappings[i].canonical.Some?
    ensures ReadAt(Document(lib, steps, x), Some(spec.mappings[i].canonical.value + "." + key)) == fields[key]
  {
    LastCallLeaves(spec, ir, types, steps, lib, x, i, calls, v);
    var doc, path := Document(lib, steps, x), spec.mappings[i].canonical.value;
    FieldRead(doc, path, key, ReadAt(doc, Some(path)));
  }

  /** After scale: the number times the factor. */
  lemma ScaledRead(spec: Spec, ir: seq<Record>, types: Types, steps: seq<Step>, lib: Library, x: Value, i: nat,
        calls: seq<TransformCall>, v: Value, n: real, factor: real)
    requires RanForward(spec, ir, types, steps, lib, x) && Hands(spec, steps, lib, x, i, calls, v)
    requires calls[|calls| - 1].name == "scale" && IsNumber(v, n)
    requires "factor" in calls[|calls| - 1].args && IsNumber(calls[|calls| - 1].args["factor"], factor)
    ensures ReadAt(Document(lib, steps, x), spec.mappings[i].canonical) == Num(n * factor)
  {
    LastCallLeaves(spec, ir, types, steps, lib, x, i, calls, v);
    ProductGiven(lib, steps[i].chain[|calls| - 1], v, n, factor, ReadAt(Document(lib, steps, x),
        spec.mappings[i].canonical));
  }

  lemma ProductGiven(lib: Library, c: Call, v: Value, n: real, factor: real, held: Value)
    requires c.name == "scale" && "factor" in c.args && IsNumber(v, n) && IsNumber(c.args["factor"], factor)
    requires Gives(lib, c, v, held) || Refuses(lib, c, v)
    ensures held == Num(n * factor)
  {
    assert GivesScaled(c.args, v, held);
    var m, f :| IsNumber(v, m) && IsNumber(c.args["factor"], f) && held.n == m * f;
    assert m == n && f == factor;
  }

  /** After parseDate: the day alone, or with a zone the moment in it. */
  lemma DateRead(spec: Spec, ir: seq<Record>, types: Types, steps: seq<Step>, lib: Library, x: Value, i: nat,
        calls: seq<TransformCall>, v: Value, clock: int)
    requires RanForward(spec, ir, types, steps, lib, x) && Hands(spec, steps, lib, x, i, calls, v)
    requires calls[|calls| - 1].name == "parseDate" && HasText(calls[|calls| - 1].args, "fmt") && v.Str?
    requires lib.parseTime(calls[|calls| - 1].args["fmt"].s, v.s) == Some(clock)
    ensures var held, args := ReadAt(Document(lib, steps, x), spec.mappings[i].canonical), calls[|calls| - 1].args;
            && ("zone" !in args ==> held == Day(lib.dayOf(clock)))
            && ("zone" in args ==> args["zone"].Str? && held == DateTime(clock, Some(args["zone"].s)))
  {
    LastCallLeaves(spec, ir, types, steps, lib, x, i, calls, v);
  }

  /** After coalesce: the first item that is not null; after constant: the literal. */
  lemma ChosenRead(spec: Spec, ir: seq<Record>, types: Types, steps: seq<Step>, lib: Library, x: Value, i: nat,
        calls: seq<TransformCall>, v: Value, k: int)
    requires RanForward(spec, ir, types, steps, lib, x) && Hands(spec, steps, lib, x, i, calls, v)
    ensures var held, last := ReadAt(Document(lib, steps, x), spec.mappings[i].canonical), calls[|calls| - 1];
            && (last.name == "coalesce" && v.List? && FirstPresent(v.items, k) ==> held == v.items[k])
            && (last.name == "constant" ==> "const" in last.args && held == last.args["const"])
  {
    LastCallLeaves(spec, ir, types, steps, lib, x, i, calls, v);
    if calls[|calls| - 1].name == "coalesce" && v.List? && FirstPresent(v.items, k) {
      var held := ReadAt(Document(lib, steps, x), spec.mappings[i].canonical);
      var j :| FirstPresent(v.items, j) && held == v.items[j];
      assert j == k;
    }
  }

  /** What a canonical path holds has the type T3 inferred for its entry. */
  lemma TypedRead(spec: Spec, ir: seq<Record>, types: Types, steps: seq<Step>, lib: Library, x: Value, i: nat,
        calls: seq<TransformCall>, source: Option<string>)
    requires RanForward(spec, ir, types, steps, lib, x) && i < |spec.mappings| && spec.mappings[i].disposition.None?
    requires spec.mappings[i].transform.Some? && Parse(spec.mappings[i].transform.value) == Some(calls)
    requires TypeFit.Steady(calls) && InferredType(calls, source).Some?
    requires source.Some? ==> TypeFit.HasType(ReadAt(x, spec.mappings[i].region), source.value)
    ensures var held := ReadAt(Document(lib, steps, x), spec.mappings[i].canonical);
            held == Null || TypeFit.HasType(held, InferredType(calls, source).value)
  {
    EntryLeaves(spec, ir, types, steps, lib, x, i);
    StepOf(spec, ir, types, steps, lib, x, i);
    var v := ReadAt(x, spec.mappings[i].region);
    if RunForward(lib, steps[i].chain, v).Ok? {
      var vs := ChainPasses(lib, steps[i].chain, v);
      TypeFit.InferredTypeFits(lib, calls, steps[i].chain, vs, source);
    }
  }
}
