/**
 mapping/transforms.py: the closed transform library, each entry with its forward and
 reverse function. A TransformError is Failed; any other Python exception (a missing
 keyword, a float() of a list, an unknown time zone) is Crashed.
 */
module Transforms {
  import opened Wrappers
  import opened Documents
  import Text

  datatype Outcome = Ok(value: Value) | Failed | Crashed

  datatype Policy = Escalate | Reject | Passthrough

  /** A value map as Python keeps it: entries in insertion order, keys distinct. */
  type ValueTable = seq<(string, string)>

  datatype ResolvedMap = ResolvedMap(table: ValueTable, policy: Policy)

  /** A TransformCall after _resolve_value_maps has injected the named map. */
  datatype Call = Call(name: string, args: map<string, Value>, resolved: Option<ResolvedMap>)

  datatype Match = NoMatch | BadPattern | Groups(fields: map<string, Value>)
  datatype Filled = MissingField | BadTemplate | Text(text: string)

  /** The parts of the standard library the transforms lean on. */
  datatype Library = Library(
    parseTime: (string, string) -> Option<int>,      // format, text
    formatTime: (string, Value) -> string,
    dayOf: int -> int,
    midnight: int -> int,
    zoneKnown: string -> bool,
    shift: (int, string, string) -> int,             // clock, from zone, to zone
    parseFloat: string -> Option<real>,
    fullMatch: (string, string) -> Match,            // pattern, text
    fillTemplate: (string, map<string, Value>) -> Filled,
    show: Value -> string,
    upper: string -> string,
    lower: string -> string,
    title: string -> string)

  const NAMES: set<string> := {
    "identity", "parseDate", "formatDate", "instantAtStartOfDay", "valueMap", "toMonetaryAmount", "toIdentifier",
    "decompose", "compose", "concat", "coalesce", "constant", "scale", "normaliseCase"
  }

  predicate HasReverse(name: string) { name != "coalesce" && name != "constant" }

  predicate IsLossy(name: string) { name in {"parseDate", "instantAtStartOfDay", "normaliseCase"} }

  function Required(name: string): set<string> {
    match name
    case "parseDate" => {"fmt"}
    case "formatDate" => {"fmt"}
    case "instantAtStartOfDay" => {"zone"}
    case "valueMap" => {"map"}
    case "toMonetaryAmount" => {"currency"}
    case "toIdentifier" => {"scheme", "issuer"}
    case "decompose" => {"pattern"}
    case "compose" => {"template"}
    case "concat" => {"separator"}
    case "constant" => {"const"}
    case "scale" => {"factor"}
    case "normaliseCase" => {"mode"}
    case _ => {}
  }

  /** The keyword arguments fit the Python signature. */
  predicate Callable(c: Call) {
    "value" !in c.args && Required(c.name) <= c.args.Keys && (c.name == "valueMap" ==> c.resolved.Some?)
  }

  function Number(v: Value): Option<real> {
    match v
    case Num(n) => Some(n)
    case Bool(b) => Some(if b then 1.0 else 0.0)
    case _ => None
  }

  // ------------------------------------------------------------ the two tables

  function ParseDate(lib: Library, fmt: Value, zone: Option<Value>, v: Value): Outcome {
    if !v.Str? then Failed
    else if !fmt.Str? then Crashed
    else match lib.parseTime(fmt.s, v.s)
      case None => Failed
      case Some(clock) =>
        match zone
        case None => Ok(Day(lib.dayOf(clock)))
        case Some(z) => if z.Str? && lib.zoneKnown(z.s) then Ok(DateTime(clock, Some(z.s))) else Crashed
  }

  function FormatDate(lib: Library, fmt: Value, v: Value): Outcome {
    if !v.Day? && !v.DateTime? then Failed
    else if !fmt.Str? then Crashed
    else Ok(Str(lib.formatTime(fmt.s, v)))
  }

  function StartOfDay(lib: Library, zone: Value, v: Value): Outcome {
    if !v.Day? then Failed
    else if zone.Str? && lib.zoneKnown(zone.s) then Ok(DateTime(lib.midnight(v.day), Some(zone.s)))
    else Crashed
  }

  function ToLocalDate(lib: Library, zone: Value, v: Value): Outcome {
    if !v.DateTime? then Failed
    else if v.zone.None? then Ok(Day(lib.dayOf(v.clock)))
    else if zone.Str? && lib.zoneKnown(zone.s) then Ok(Day(lib.dayOf(lib.shift(v.clock, v.zone.value, zone.s))))
    else Crashed
  }

  function Lookup(t: ValueTable, key: string): Option<string> {
    if t == [] then None else if t[0].0 == key then Some(t[0].1) else Lookup(t[1..], key)
  }

  /** {target: source for source, target in table.items()}: the last source wins. */
  function LookupInverse(t: ValueTable, target: string): Option<string> {
    if t == [] then None
    else if t[|t| - 1].1 == target then Some(t[|t| - 1].0)
    else LookupInverse(t[..|t| - 1], target)
  }

  function Translate(hit: Option<string>, policy: Policy, s: string): Outcome {
    match hit
    case Some(w) => Ok(Str(w))
    case None => if policy.Passthrough? then Ok(Str(s)) else Failed
  }

  function Monetary(lib: Library, currency: Value, v: Value): Outcome {
    var amount := if v.Str? then lib.parseFloat(v.s) else Number(v);
    match amount
    case None => Failed
    case Some(n) => Ok(Obj(map["amount" := Num(n), "currency" := currency]))
  }

  function AmountOf(lib: Library, v: Value): Outcome {
    if !v.Obj? || "amount" !in v.fields then Failed
    else
      var a := v.fields["amount"];
      match if a.Str? then lib.parseFloat(a.s) else Number(a)
      case None => Crashed
      case Some(n) => Ok(Num(n))
  }

  function Decompose(lib: Library, pattern: Value, v: Value): Outcome {
    if !v.Str? then Failed
    else if !pattern.Str? then Crashed
    else match lib.fullMatch(pattern.s, v.s)
      case NoMatch => Failed
      case BadPattern => Crashed
      case Groups(fields) => Ok(Obj(fields))
  }

  function Compose(lib: Library, template: Value, v: Value): Outcome {
    if !v.Obj? then Failed
    else if !template.Str? then Crashed
    else match lib.fillTemplate(template.s, v.fields)
      case MissingField => Failed
      case BadTemplate => Crashed
      case Text(t) => Ok(Str(t))
  }

  function Show(lib: Library, v: Value): string { if v.Str? then v.s else lib.show(v) }

  function Shown(lib: Library, items: seq<Value>): seq<string> {
    seq(|items|, i requires 0 <= i < |items| => Show(lib, items[i]))
  }

  function Strings(parts: seq<string>): seq<Value> {
    seq(|parts|, i requires 0 <= i < |parts| => Str(parts[i]))
  }

  function Concat(lib: Library, separator: Value, v: Value): Outcome {
    if !v.List? then Failed
    else if !separator.Str? then Crashed
    else Ok(Str(Text.Join(Shown(lib, v.items), separator.s)))
  }

  function Split(separator: Value, v: Value): Outcome {
    if !v.Str? then Failed
    else if !separator.Str? || separator.s == "" then Crashed
    else Ok(List(Strings(Text.SplitOn(v.s, separator.s))))
  }

  function Coalesce(v: Value): Outcome {
    if !v.List? then Failed else FirstNonNull(v.items)
  }

  function FirstNonNull(items: seq<Value>): Outcome {
    if items == [] then Failed else if !items[0].Null? then Ok(items[0]) else FirstNonNull(items[1..])
  }

  function Scale(factor: real, v: Value): Outcome {
    match Number(v)
    case None => Failed
    case Some(n) => Ok(Num(n * factor))
  }

  function NormaliseCase(lib: Library, mode: Value, v: Value): Outcome {
    if !v.Str? then Failed
    else if mode == Str("upper") then Ok(Str(lib.upper(v.s)))
    else if mode == Str("lower") then Ok(Str(lib.lower(v.s)))
    else if mode == Str("title") then Ok(Str(lib.title(v.s)))
    else Failed
  }

  function Get(args: map<string, Value>, key: string): Option<Value> {
    if key in args then Some(args[key]) else None
  }

  /** TRANSFORMS[name].forward(value, **args); an unknown name is a KeyError. */
  function Forward(lib: Library, c: Call, v: Value): Outcome {
    if c.name !in NAMES || !Callable(c) then Crashed
    else match c.name
      case "identity" => Ok(v)
      case "parseDate" => ParseDate(lib, c.args["fmt"], Get(c.args, "zone"), v)
      case "formatDate" => FormatDate(lib, c.args["fmt"], v)
      case "instantAtStartOfDay" => StartOfDay(lib, c.args["zone"], v)
      case "valueMap" =>
        if !v.Str? then Failed
        else Translate(Lookup(c.resolved.value.table, v.s), c.resolved.value.policy, v.s)
      case "toMonetaryAmount" => Monetary(lib, c.args["currency"], v)
      case "toIdentifier" =>
        if !v.Str? then Failed
        else Ok(Obj(map["value" := v, "scheme" := c.args["scheme"], "issuer" := c.args["issuer"]]))
      case "decompose" => Decompose(lib, c.args["pattern"], v)
      case "compose" => Compose(lib, c.args["template"], v)
      case "concat" => Concat(lib, c.args["separator"], v)
      case "coalesce" => Coalesce(v)
      case "constant" => Ok(c.args["const"])
      case "scale" =>
        if Number(v).None? then Failed
        else (match Number(c.args["factor"])
              case None => Crashed
              case Some(f) => Scale(f, v))
      case "normaliseCase" => NormaliseCase(lib, c.args["mode"], v)
  }

  /** One step of Plan.reverse: the reverse callable, or a TransformError when there is none. */
  function Reverse(lib: Library, c: Call, v: Value): Outcome {
    if c.name !in NAMES then Crashed
    else if !HasReverse(c.name) then Failed
    else if c.name == "normaliseCase" then (if "value" in c.args then Crashed else Ok(v))
    else if !Callable(c) then Crashed
    else match c.name
      case "identity" => Ok(v)
      case "parseDate" => FormatDate(lib, c.args["fmt"], v)
      case "formatDate" => ParseDate(lib, c.args["fmt"], None, v)
      case "instantAtStartOfDay" => ToLocalDate(lib, c.args["zone"], v)
      case "valueMap" =>
        if !v.Str? then Failed
        else Translate(LookupInverse(c.resolved.value.table, v.s), c.resolved.value.policy, v.s)
      case "toMonetaryAmount" => AmountOf(lib, v)
      case "toIdentifier" => if v.Obj? && "value" in v.fields then Ok(v.fields["value"]) else Failed
      case "decompose" => if "template" in c.args then Compose(lib, c.args["template"], v) else Failed
      case "compose" => if "pattern" in c.args then Decompose(lib, c.args["pattern"], v) else Failed
      case "concat" => Split(c.args["separator"], v)
      case "scale" =>
        (match Number(c.args["factor"])
         case None => Crashed
         case Some(f) => if f == 0.0 then Failed else Scale(1.0 / f, v))
  }

  // --------------------------------------------------------- what each one undoes

  ghost predicate DistinctKeys(t: ValueTable) {
    forall i, j :: 0 <= i < j < |t| ==> t[i].0 != t[j].0
  }

  ghost predicate Injective(t: ValueTable) {
    forall i, j :: 0 <= i < j < |t| ==> t[i].1 != t[j].1
  }

  /** s survives the map and its inverse: s is the last key with its target, or s passes
      through and is nobody's target. */
  ghost predicate MapRecovers(m: ResolvedMap, s: string) {
    || (exists i :: 0 <= i < |m.table| && m.table[i].0 == s && forall j :: i < j < |m.table| ==>
       m.table[j].1 != m.table[i].1)
    || (m.policy.Passthrough? && forall i :: 0 <= i < |m.table| ==> m.table[i].0 != s && m.table[i].1 != s)
  }

  /** The text is already in the case the mode asks for. */
  predicate InCase(lib: Library, mode: Value, text: string) {
    || (mode == Str("upper") && lib.upper(text) == text)
    || (mode == Str("lower") && lib.lower(text) == text)
    || (mode == Str("title") && lib.title(text) == text)
  }

  /** The format prints the text it was parsed from, at the zone given or at none. */
  ghost predicate DatePrintsBack(lib: Library, fmt: Value, zone: Option<Value>, text: string) {
    && fmt.Str? && lib.parseTime(fmt.s, text).Some? && (zone.Some? ==> zone.value.Str? && lib.zoneKnown(zone.value.s))
    && var clock := lib.parseTime(fmt.s, text).value;
       lib.formatTime(fmt.s, if zone.Some? then DateTime(clock, Some(zone.value.s)) else Day(lib.dayOf(clock))) == text
  }

  /** The format parses what it printed for the day. */
  ghost predicate DayParsesBack(lib: Library, fmt: Value, day: int) {
    && fmt.Str?
    && var back := lib.parseTime(fmt.s, lib.formatTime(fmt.s, Day(day)));
       back.Some? && lib.dayOf(back.value) == day
  }

  /** The zone's midnight falls on the day it was taken for. */
  ghost predicate MidnightOnDay(lib: Library, zone: Value, day: int) {
    zone.Str? && lib.zoneKnown(zone.s) && lib.dayOf(lib.shift(lib.midnight(day), zone.s, zone.s)) == day
  }

  /** The template puts together what the pattern took apart. */
  ghost predicate TemplateRefills(lib: Library, pattern: Value, template: Value, text: string) {
    && pattern.Str? && template.Str? && lib.fullMatch(pattern.s, text).Groups?
    && lib.fillTemplate(template.s, lib.fullMatch(pattern.s, text).fields) == Text(text)
  }

  /** What the pattern takes from the filled template. */
  function Rematched(lib: Library, pattern: Value, template: Value, fields: map<string, Value>): Option<Value> {
    if !pattern.Str? || !template.Str? then None
    else match lib.fillTemplate(template.s, fields)
      case Text(t) =>
        (match lib.fullMatch(pattern.s, t)
         case Groups(found) => Some(Obj(found))
         case _ => None)
      case _ => None
  }

  ghost predicate ConcatKeeps(lib: Library, separator: Value, items: seq<Value>) {
    && separator.Str? && separator.s != ""
    && (forall i :: 0 <= i < |items| ==> items[i].Str?) && Text.Separated(Shown(lib, items), separator.s)
  }

  predicate NonZero(factor: Value) { Number(factor).Some? && Number(factor).value != 0.0 }

  /** Applying the call and then its reverse to v gives v back. The conditions on valueMap,
      toMonetaryAmount, toIdentifier, scale, concat and normaliseCase are guards on the value;
      for dates, zones and patterns they are laws of the library at v. */
  ghost predicate Invertible(lib: Library, c: Call, v: Value) {
    && c.name in NAMES && Callable(c)
    && match c.name
       case "identity" => true
       case "valueMap" => v.Str? && MapRecovers(c.resolved.value, v.s)
       case "toMonetaryAmount" => v.Num?
       case "toIdentifier" => v.Str?
       case "scale" => v.Num? && NonZero(c.args["factor"])
       case "normaliseCase" => v.Str? && InCase(lib, c.args["mode"], v.s)
       case "concat" => v.List? && ConcatKeeps(lib, c.args["separator"], v.items)
       case "parseDate" => v.Str? && DatePrintsBack(lib, c.args["fmt"], Get(c.args, "zone"), v.s)
       case "formatDate" => v.Day? && DayParsesBack(lib, c.args["fmt"], v.day)
       case "instantAtStartOfDay" => v.Day? && MidnightOnDay(lib, c.args["zone"], v.day)
       case "decompose" =>
         v.Str? && "template" in c.args && TemplateRefills(lib, c.args["pattern"], c.args["template"], v.s)
       case "compose" =>
         v.Obj? && "pattern" in c.args && Rematched(lib, c.args["pattern"], c.args["template"], v.fields) == Some(v)
       case _ => false
  }

  /** The same up to Python's ==, which takes True for 1: booleans come back from
      toMonetaryAmount and scale as numbers. */
  ghost predicate InvertibleAlike(lib: Library, c: Call, v: Value) {
    && c.name in NAMES && Callable(c)
    && match c.name
       case "toMonetaryAmount" => Number(v).Some?
       case "scale" => Number(v).Some? && NonZero(c.args["factor"])
       case "compose" =>
         && v.Obj? && "pattern" in c.args
         && var back := Rematched(lib, c.args["pattern"], c.args["template"], v.fields);
            back.Some? && Canon(back.value) == Canon(v)
       case _ => Invertible(lib, c, v)
  }

  lemma {:induction false} LookupHit(t: ValueTable, i: nat)
    requires DistinctKeys(t) && i < |t|
    ensures Lookup(t, t[i].0) == Some(t[i].1)
  {
    if i > 0 {
      LookupHit(t[1..], i - 1);
    }
  }

  lemma {:induction false} LookupMiss(t: ValueTable, key: string)
    ensures Lookup(t, key).None? <==> forall i :: 0 <= i < |t| ==> t[i].0 != key
  {
    if t != [] {
      LookupMiss(t[1..], key);
      assert t[1..] == [] || t[1..][0] == t[1];
      if Lookup(t, key).None? {
        forall i | 0 <= i < |t| ensures t[i].0 != key {
          if i > 0 { assert t[i] == t[1..][i - 1]; }
        }
      }
    }
  }

  lemma {:induction false} InverseHit(t: ValueTable, target: string)
    ensures LookupInverse(t, target).None? <==> forall i :: 0 <= i < |t| ==> t[i].1 != target
    ensures LookupInverse(t, target).Some? ==>
              exists i :: 0 <= i < |t| && t[i] == (LookupInverse(t, target).value, target) && forall j ::
                  i < j < |t| ==> t[j].1 != target
  {
    if t != [] && t[|t| - 1].1 != target {
      var front := t[..|t| - 1];
      InverseHit(front, target);
      if LookupInverse(front, target).Some? {
        var i :| 0 <= i < |front| && front[i] == (LookupInverse(front, target).value, target) && forall j ::
            i < j < |front| ==> front[j].1 != target;
        assert t[i] == front[i];
        forall j | i < j < |t| ensures t[j].1 != target {
          if j < |front| { assert t[j] == front[j]; }
        }
      } else {
        forall i | 0 <= i < |t| ensures t[i].1 != target {
          if i < |front| { assert t[i] == front[i]; }
        }
      }
    } else if t != [] {
      assert t[|t| - 1] == (LookupInverse(t, target).value, target);
    }
  }

  /** Forward succeeds on v and the reverse of its result is v itself. */
  ghost predicate Undone(lib: Library, c: Call, v: Value) {
    Forward(lib, c, v).Ok? && Reverse(lib, c, Forward(lib, c, v).value) == Ok(v)
  }

  /** Forward succeeds on v and the reverse of its result equals v for Python's ==. */
  ghost predicate UndoneAlike(lib: Library, c: Call, v: Value) {
    && Forward(lib, c, v).Ok? && Reverse(lib, c, Forward(lib, c, v).value).Ok?
    && Canon(Reverse(lib, c, Forward(lib, c, v).value).value) == Canon(v)
  }

  ghost predicate Exact(lib: Library, c: Call, v: Value) {
    (Undone(lib, c, v) <==> Invertible(lib, c, v)) && (UndoneAlike(lib, c, v) <==> InvertibleAlike(lib, c, v))
  }

  /** Value maps invert exactly at the strings MapRecovers describes, injective map or not. */
  lemma TranslationInverts(m: ResolvedMap, s: string)
    requires DistinctKeys(m.table)
    ensures var there := Translate(Lookup(m.table, s), m.policy, s);
            there.Ok? ==> there.value.Str?
    ensures var there := Translate(Lookup(m.table, s), m.policy, s);
            (there.Ok? && Translate(LookupInverse(m.table, there.value.s), m.policy, there.value.s) == Ok(Str(s)))
            <==> MapRecovers(m, s)
  {
    var t := m.table;
    LookupMiss(t, s);
    if i :| 0 <= i < |t| && t[i].0 == s {
      LookupHit(t, i);
      InverseHit(t, t[i].1);
      if LookupInverse(t, t[i].1) == Some(s) {
        var k :| 0 <= k < |t| && t[k] == (s, t[i].1) && forall j :: k < j < |t| ==> t[j].1 != t[i].1;
        assert k == i;
      }
    } else {
      InverseHit(t, s);
    }
  }

  lemma ValueMapInverts(lib: Library, c: Call, v: Value)
    requires c.name == "valueMap" && Callable(c) && DistinctKeys(c.resolved.value.table)
    ensures Exact(lib, c, v)
  {
    if v.Str? { TranslationInverts(c.resolved.value, v.s); }
  }

  /** T4's injectivity check leaves passthrough collisions as the only loss. */
  lemma InjectiveMapRecovers(m: ResolvedMap, s: string)
    requires DistinctKeys(m.table) && Injective(m.table)
    ensures MapRecovers(m, s) <==>
              ((exists i :: 0 <= i < |m.table| && m.table[i].0 == s) ||
               (m.policy.Passthrough? && forall i :: 0 <= i < |m.table| ==> m.table[i].1 != s))
  {
  }

  lemma StringsAlike(items: seq<Value>, parts: seq<string>)
    ensures Canon(List(Strings(parts))) == List(Strings(parts))
    ensures Canon(List(Strings(parts))) == Canon(List(items)) <==> Strings(parts) == items
  {
    var there, back := Canon(List(items)), Canon(List(Strings(parts)));
    forall i | 0 <= i < |parts| ensures back.items[i] == Str(parts[i]) {
      assert back.items[i] == Canon(Strings(parts)[i]) && Strings(parts)[i] == Str(parts[i]);
    }
    assert back.items == Strings(parts);
    if there == back {
      assert |items| == |parts|;
      forall i | 0 <= i < |parts| ensures items[i] == Str(parts[i]) {
        assert there.items[i] == Canon(items[i]) && back.items[i] == Str(parts[i]);
      }
      assert Strings(parts) == items;
    }
  }

  lemma PartsAreItems(lib: Library, items: seq<Value>, parts: seq<string>)
    ensures Strings(parts) == items <==> (forall i :: 0 <= i < |items| ==> items[i].Str?) && parts == Shown(lib, items)
  {
    if Strings(parts) == items {
      forall i | 0 <= i < |items| ensures items[i] == Str(parts[i]) { assert items[i] == Strings(parts)[i]; }
      assert parts == Shown(lib, items);
    }
  }

  /** Concatenated lists come back exactly when they are strings that the separator keeps
      apart. */
  lemma ConcatInverts(lib: Library, c: Call, v: Value)
    requires c.name == "concat" && Callable(c)
    ensures Exact(lib, c, v)
  {
    if v.List? && c.args["separator"].Str? && c.args["separator"].s != "" {
      var parts, sep := Shown(lib, v.items), c.args["separator"].s;
      var back := Text.SplitOn(Text.Join(parts, sep), sep);
      Text.SplitUndoesJoin(parts, sep);
      PartsAreItems(lib, v.items, back);
      StringsAlike(v.items, back);
    }
  }

  lemma ScalesBack(n: real, factor: real)
    requires factor != 0.0
    ensures (n * factor) * (1.0 / factor) == n
  {
  }

  lemma ScaleInverts(lib: Library, c: Call, v: Value)
    requires c.name == "scale" && Callable(c)
    ensures Exact(lib, c, v)
  {
    if Number(v).Some? && NonZero(c.args["factor"]) {
      ScalesBack(Number(v).value, Number(c.args["factor"]).value);
    }
  }

  lemma MonetaryInverts(lib: Library, c: Call, v: Value)
    requires c.name == "toMonetaryAmount" && Callable(c)
    ensures Exact(lib, c, v)
  {
  }

  lemma IdentifierInverts(lib: Library, c: Call, v: Value)
    requires c.name == "toIdentifier" && Callable(c)
    ensures Exact(lib, c, v)
  {
  }

  lemma CaseInverts(lib: Library, c: Call, v: Value)
    requires c.name == "normaliseCase" && Callable(c)
    ensures Exact(lib, c, v)
  {
  }

  lemma ParseDateInverts(lib: Library, c: Call, v: Value)
    requires c.name == "parseDate" && Callable(c)
    ensures Exact(lib, c, v)
  {
  }

  lemma FormatDateInverts(lib: Library, c: Call, v: Value)
    requires c.name == "formatDate" && Callable(c)
    ensures Exact(lib, c, v)
  {
  }

  lemma StartOfDayInverts(lib: Library, c: Call, v: Value)
    requires c.name == "instantAtStartOfDay" && Callable(c)
    ensures Exact(lib, c, v)
  {
  }

  lemma DecomposeInverts(lib: Library, c: Call, v: Value)
    requires c.name == "decompose" && Callable(c)
    ensures Exact(lib, c, v)
  {
  }

  lemma ComposeInverts(lib: Library, c: Call, v: Value)
    requires c.name == "compose" && Callable(c)
    ensures Exact(lib, c, v)
  {
  }

  lemma OthersInvert(lib: Library, c: Call, v: Value)
    requires c.name in {"identity", "coalesce", "constant"} && Callable(c)
    ensures Exact(lib, c, v)
  {
  }

  /** The exact round-trip condition of all fourteen transforms at every value, for equality
      of values and for Python's ==. */
  lemma InvertibleExactly(lib: Library, c: Call, v: Value)
    requires c.name in NAMES && Callable(c)
    requires c.name == "valueMap" ==> DistinctKeys(c.resolved.value.table)
    ensures Undone(lib, c, v) <==> Invertible(lib, c, v)
    ensures UndoneAlike(lib, c, v) <==> InvertibleAlike(lib, c, v)
  {
    assert Exact(lib, c, v) by {
      match c.name
      case "valueMap" => ValueMapInverts(lib, c, v);
      case "concat" => ConcatInverts(lib, c, v);
      case "scale" => ScaleInverts(lib, c, v);
      case "toMonetaryAmount" => MonetaryInverts(lib, c, v);
      case "toIdentifier" => IdentifierInverts(lib, c, v);
      case "normaliseCase" => CaseInverts(lib, c, v);
      case "parseDate" => ParseDateInverts(lib, c, v);
      case "formatDate" => FormatDateInverts(lib, c, v);
      case "instantAtStartOfDay" => StartOfDayInverts(lib, c, v);
      case "decompose" => DecomposeInverts(lib, c, v);
      case "compose" => ComposeInverts(lib, c, v);
      case _ => OthersInvert(lib, c, v);
    }
  }

  // ---------------------------------------------------------------------- chains

  function RunForward(lib: Library, chain: seq<Call>, v: Value): Outcome {
    if chain == [] then Ok(v)
    else match Forward(lib, chain[0], v)
      case Ok(w) => RunForward(lib, chain[1..], w)
      case Failed => Failed
      case Crashed => Crashed
  }

  /** The calls undone from the last to the first. */
  function RunReverse(lib: Library, chain: seq<Call>, v: Value): Outcome {
    if chain == [] then Ok(v)
    else match Reverse(lib, chain[|chain| - 1], v)
      case Ok(w) => RunReverse(lib, chain[..|chain| - 1], w)
      case Failed => Failed
      case Crashed => Crashed
  }

  /** Every call is invertible at the value it actually receives. */
  ghost predicate ChainInvertible(lib: Library, chain: seq<Call>, v: Value) {
    chain != [] ==>
      && Invertible(lib, chain[0], v)
      && Forward(lib, chain[0], v).Ok?
      && ChainInvertible(lib, chain[1..], Forward(lib, chain[0], v).value)
  }

  ghost predicate TablesDistinct(chain: seq<Call>) {
    forall i :: 0 <= i < |chain| && chain[i].resolved.Some? ==> DistinctKeys(chain[i].resolved.value.table)
  }

  lemma {:induction false} ReverseLast(lib: Library, first: Call, rest: seq<Call>, v: Value)
    ensures RunReverse(lib, [first] + rest, v) ==
            match RunReverse(lib, rest, v)
            case Ok(w) => Reverse(lib, first, w)
            case Failed => Failed
            case Crashed => Crashed
    decreases |rest|
  {
    var chain := [first] + rest;
    if rest == [] {
      assert chain == [first] && chain[..0] == [];
    } else {
      assert chain[|chain| - 1] == rest[|rest| - 1];
      assert chain[..|chain| - 1] == [first] + rest[..|rest| - 1];
      match Reverse(lib, rest[|rest| - 1], v)
      case Ok(w) => ReverseLast(lib, first, rest[..|rest| - 1], w);
      case Failed =>
      case Crashed =>
    }
  }

  /** Undoing the calls in the opposite order recovers the value a chain was given. */
  lemma {:induction false} ChainRoundTrips(lib: Library, chain: seq<Call>, v: Value)
    requires ChainInvertible(lib, chain, v) && TablesDistinct(chain)
    ensures RunForward(lib, chain, v).Ok?
    ensures RunReverse(lib, chain, RunForward(lib, chain, v).value) == Ok(v)
  {
    if chain != [] {
      var c, rest := chain[0], chain[1..];
      InvertibleExactly(lib, c, v);
      var w := Forward(lib, c, v).value;
      ChainRoundTrips(lib, rest, w);
      assert chain == [c] + rest;
      ReverseLast(lib, c, rest, RunForward(lib, rest, w).value);
    }
  }
}
