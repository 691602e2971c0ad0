/**
 mapping/transforms.py: what each of the fourteen transforms makes of a value, which values it
 refuses, and what its reverse brings back, told without the functions that compute them.
 */
module TransformResults {
  import opened Wrappers
  import opened Documents
  import opened Transforms
  import Text

  // ------------------------------------------------------------------------ forward

  /** v counts as the number n: Python takes True for 1 and False for 0. */
  ghost predicate IsNumber(v: Value, n: real) {
    v == Num(n) || (v == Bool(true) && n == 1.0) || (v == Bool(false) && n == 0.0)
  }

  ghost predicate RowFor(t: ValueTable, s: string, i: int) {
    0 <= i < |t| && t[i].0 == s && forall j :: 0 <= j < i ==> t[j].0 != s
  }

  ghost predicate HasText(args: map<string, Value>, key: string) { key in args && args[key].Str? }

  /** The zone is one the library knows. */
  ghost predicate HasZone(lib: Library, args: map<string, Value>) {
    HasText(args, "zone") && lib.zoneKnown(args["zone"].s)
  }

  /** str() of every item, the separator between one and the next. */
  ghost function Strung(lib: Library, items: seq<Value>, separator: string): string {
    if items == [] then ""
    else
      var last := items[|items| - 1];
      var text := if last.Str? then last.s else lib.show(last);
      if |items| == 1 then text else Strung(lib, items[..|items| - 1], separator) + separator + text
  }

  ghost predicate GivesDate(lib: Library, args: map<string, Value>, v: Value, w: Value) {
    && HasText(args, "fmt") && v.Str? && lib.parseTime(args["fmt"].s, v.s).Some?
    && var clock := lib.parseTime(args["fmt"].s, v.s).value;
       if "zone" in args then HasZone(lib, args) && w == DateTime(clock, Some(args["zone"].s))
       else w == Day(lib.dayOf(clock))
  }

  ghost predicate GivesMapped(m: ResolvedMap, v: Value, w: Value) {
    && v.Str?
    && ((exists i :: RowFor(m.table, v.s, i) && w == Str(m.table[i].1)) ||
        (m.policy.Passthrough? && w == v && forall i :: 0 <= i < |m.table| ==> m.table[i].0 != v.s))
  }

  /** An object of exactly the amount and the currency. */
  ghost predicate GivesAmount(lib: Library, args: map<string, Value>, v: Value, w: Value) {
    && "currency" in args && w.Obj? && w.fields.Keys == {"amount", "currency"}
    && w.fields["currency"] == args["currency"] && w.fields["amount"].Num?
    && var n := w.fields["amount"].n;
       IsNumber(v, n) || (v.Str? && lib.parseFloat(v.s) == Some(n))
  }

  /** An object of exactly the value, the scheme and the issuer. */
  ghost predicate GivesIdentifier(args: map<string, Value>, v: Value, w: Value) {
    && "scheme" in args && "issuer" in args && v.Str?
    && w.Obj? && w.fields.Keys == {"value", "scheme", "issuer"}
    && w.fields["value"] == v && w.fields["scheme"] == args["scheme"] && w.fields["issuer"] == args["issuer"]
  }

  ghost predicate FirstPresent(items: seq<Value>, i: int) {
    0 <= i < |items| && items[i] != Null && forall j :: 0 <= j < i ==> items[j] == Null
  }

  ghost predicate GivesScaled(args: map<string, Value>, v: Value, w: Value) {
    "factor" in args && w.Num? && exists n, f :: IsNumber(v, n) && IsNumber(args["factor"], f) && w.n == n * f
  }

  ghost predicate GivesCase(lib: Library, args: map<string, Value>, v: Value, w: Value) {
    && HasText(args, "mode") && v.Str?
    && ((args["mode"].s == "upper" && w == Str(lib.upper(v.s))) ||
        (args["mode"].s == "lower" && w == Str(lib.lower(v.s))) ||
        (args["mode"].s == "title" && w == Str(lib.title(v.s))))
  }

  /** What the transform makes of v. */
  ghost predicate Gives(lib: Library, c: Call, v: Value, w: Value) {
    match c.name
    case "identity" => w == v
    case "parseDate" => GivesDate(lib, c.args, v, w)
    case "formatDate" => HasText(c.args, "fmt") && (v.Day? || v.DateTime?) &&
        w == Str(lib.formatTime(c.args["fmt"].s, v))
    case "instantAtStartOfDay" =>
      HasZone(lib, c.args) && v.Day? && w == DateTime(lib.midnight(v.day), Some(c.args["zone"].s))
    case "valueMap" => "map" in c.args && c.resolved.Some? && GivesMapped(c.resolved.value, v, w)
    case "toMonetaryAmount" => GivesAmount(lib, c.args, v, w)
    case "toIdentifier" => GivesIdentifier(c.args, v, w)
    case "decompose" => HasText(c.args, "pattern") && v.Str? && w.Obj? &&
        lib.fullMatch(c.args["pattern"].s, v.s) == Groups(w.fields)
    case "compose" => HasText(c.args, "template") && v.Obj? && w.Str? &&
        lib.fillTemplate(c.args["template"].s, v.fields) == Transforms.Text(w.s)
    case "concat" => HasText(c.args, "separator") && v.List? && w == Str(Strung(lib, v.items, c.args["separator"].s))
    case "coalesce" => v.List? && exists i :: FirstPresent(v.items, i) && w == v.items[i]
    case "constant" => "const" in c.args && w == c.args["const"]
    case "scale" => GivesScaled(c.args, v, w)
    case "normaliseCase" => GivesCase(lib, c.args, v, w)
    case _ => false
  }

  /** The values the transform refuses with a TransformError, once it is called with all its
      keywords. */
  ghost predicate Refuses(lib: Library, c: Call, v: Value) {
    match c.name
    case "parseDate" =>
      "fmt" in c.args && (!v.Str? || (c.args["fmt"].Str? && lib.parseTime(c.args["fmt"].s, v.s).None?))
    case "formatDate" => "fmt" in c.args && !v.Day? && !v.DateTime?
    case "instantAtStartOfDay" => "zone" in c.args && !v.Day?
    case "valueMap" =>
      && "map" in c.args && c.resolved.Some?
      && (!v.Str? || (!c.resolved.value.policy.Passthrough? &&
          forall i :: 0 <= i < |c.resolved.value.table| ==> c.resolved.value.table[i].0 != v.s))
    case "toMonetaryAmount" => "currency" in c.args && !v.Num? && !v.Bool? && !(v.Str? && lib.parseFloat(v.s).Some?)
    case "toIdentifier" => "scheme" in c.args && "issuer" in c.args && !v.Str?
    case "decompose" =>
      "pattern" in c.args && (!v.Str? || (c.args["pattern"].Str? && lib.fullMatch(c.args["pattern"].s, v.s).NoMatch?))
    case "compose" =>
      && "template" in c.args
      && (!v.Obj? || (c.args["template"].Str? && lib.fillTemplate(c.args["template"].s, v.fields).MissingField?))
    case "concat" => "separator" in c.args && !v.List?
    case "coalesce" => !v.List? || forall i :: 0 <= i < |v.items| ==> v.items[i] == Null
    case "scale" => "factor" in c.args && !v.Num? && !v.Bool?
    case "normaliseCase" =>
      && "mode" in c.args
      && (!v.Str? || c.args["mode"] !in {Str("upper"), Str("lower"), Str("title")})
    case _ => false
  }

  lemma {:induction false} LookupFindsRow(t: ValueTable, s: string)
    ensures Lookup(t, s).Some? ==> exists i :: RowFor(t, s, i) && Lookup(t, s).value == t[i].1
    ensures Lookup(t, s).None? <==> forall i :: 0 <= i < |t| ==> t[i].0 != s
  {
    LookupMiss(t, s);
    if t != [] {
      var rest := t[1..];
      LookupFindsRow(rest, s);
      if t[0].0 == s {
        assert RowFor(t, s, 0);
      } else if Lookup(rest, s).Some? {
        var i :| RowFor(rest, s, i) && Lookup(rest, s).value == rest[i].1;
        assert RowFor(t, s, i + 1) by {
          forall j | 0 <= j < i + 1 ensures t[j].0 != s { if j > 0 { assert t[j] == rest[j - 1]; } }
        }
      }
    }
  }

  lemma {:induction false} PresentFound(items: seq<Value>, w: Value)
    ensures FirstNonNull(items) == Ok(w) <==> exists i :: FirstPresent(items, i) && w == items[i]
    ensures FirstNonNull(items) == Failed <==> forall i :: 0 <= i < |items| ==> items[i] == Null
    ensures !FirstNonNull(items).Crashed?
  {
    if items != [] {
      var rest := items[1..];
      PresentFound(rest, w);
      assert forall i :: 0 <= i < |rest| ==> rest[i] == items[i + 1];
      if items[0] != Null {
        assert FirstPresent(items, 0);
      } else {
        if i :| FirstPresent(rest, i) && w == rest[i] { assert FirstPresent(items, i + 1); }
        if i :| FirstPresent(items, i) && w == items[i] { assert FirstPresent(rest, i - 1); }
      }
    }
  }

  lemma {:induction false} JoinLast(parts: seq<string>, last: string, separator: string)
    requires parts != []
    ensures Text.Join(parts + [last], separator) == Text.Join(parts, separator) + separator + last
  {
    var all := parts + [last];
    assert all[1..] == parts[1..] + [last];
    if |parts| > 1 { JoinLast(parts[1..], last, separator); }
  }

  lemma {:induction false} JoinStrings(lib: Library, items: seq<Value>, separator: string)
    ensures Text.Join(Shown(lib, items), separator) == Strung(lib, items, separator)
  {
    if |items| > 1 {
      var front, last := items[..|items| - 1], items[|items| - 1];
      JoinStrings(lib, front, separator);
      assert Shown(lib, items) == Shown(lib, front) + [Show(lib, last)];
      JoinLast(Shown(lib, front), Show(lib, last), separator);
    }
  }

  lemma MappedExact(m: ResolvedMap, v: Value, w: Value)
    requires v.Str?
    ensures Translate(Lookup(m.table, v.s), m.policy, v.s) == Ok(w) <==> GivesMapped(m, v, w)
    ensures Translate(Lookup(m.table, v.s), m.policy, v.s) == Failed <==>
            !m.policy.Passthrough? && forall i :: 0 <= i < |m.table| ==> m.table[i].0 != v.s
  {
    LookupFindsRow(m.table, v.s);
  }

  lemma AmountExact(lib: Library, args: map<string, Value>, v: Value, w: Value)
    requires "currency" in args
    ensures Monetary(lib, args["currency"], v) == Ok(w) <==> GivesAmount(lib, args, v, w)
  {
    if GivesAmount(lib, args, v, w) {
      assert w.fields == map["amount" := w.fields["amount"], "currency" := args["currency"]];
    }
  }

  lemma NumberExact(v: Value, n: real)
    ensures Number(v) == Some(n) <==> IsNumber(v, n)
  {
  }

  lemma ScaledExact(args: map<string, Value>, v: Value, w: Value)
    requires "factor" in args
    ensures GivesScaled(args, v, w) <==>
            Number(v).Some? && Number(args["factor"]).Some? &&
            Scale(Number(args["factor"]).value, v) == Ok(w)
  {
    forall n ensures Number(v) == Some(n) <==> IsNumber(v, n) { NumberExact(v, n); }
    forall f ensures Number(args["factor"]) == Some(f) <==> IsNumber(args["factor"], f) {
      NumberExact(args["factor"], f);
    }
    if Number(v).Some? && Number(args["factor"]).Some? {
      assert IsNumber(v, Number(v).value) && IsNumber(args["factor"], Number(args["factor"]).value);
    }
  }

  ghost predicate Told(lib: Library, c: Call, v: Value, w: Value) {
    && (Forward(lib, c, v) == Ok(w) <==> "value" !in c.args && Gives(lib, c, v, w))
    && (Forward(lib, c, v) == Failed <==> "value" !in c.args && Refuses(lib, c, v))
  }

  lemma ParseDateTold(lib: Library, c: Call, v: Value, w: Value)
    requires c.name == "parseDate"
    ensures Told(lib, c, v, w)
  {
  }

  lemma FormatDateTold(lib: Library, c: Call, v: Value, w: Value)
    requires c.name == "formatDate"
    ensures Told(lib, c, v, w)
  {
  }

  lemma StartOfDayTold(lib: Library, c: Call, v: Value, w: Value)
    requires c.name == "instantAtStartOfDay"
    ensures Told(lib, c, v, w)
  {
  }

  lemma ValueMapTold(lib: Library, c: Call, v: Value, w: Value)
    requires c.name == "valueMap"
    ensures Told(lib, c, v, w)
  {
    if Callable(c) && v.Str? {
      assert Forward(lib, c, v) == Translate(Lookup(c.resolved.value.table, v.s), c.resolved.value.policy, v.s);
      MappedExact(c.resolved.value, v, w);
    }
  }

  lemma MonetaryTold(lib: Library, c: Call, v: Value, w: Value)
    requires c.name == "toMonetaryAmount"
    ensures Told(lib, c, v, w)
  {
    if "currency" in c.args { AmountExact(lib, c.args, v, w); }
  }

  lemma IdentifierTold(lib: Library, c: Call, v: Value, w: Value)
    requires c.name == "toIdentifier"
    ensures Told(lib, c, v, w)
  {
  }

  lemma DecomposeTold(lib: Library, c: Call, v: Value, w: Value)
    requires c.name == "decompose"
    ensures Told(lib, c, v, w)
  {
  }

  lemma ComposeTold(lib: Library, c: Call, v: Value, w: Value)
    requires c.name == "compose"
    ensures Told(lib, c, v, w)
  {
  }

  lemma ConcatTold(lib: Library, c: Call, v: Value, w: Value)
    requires c.name == "concat"
    ensures Told(lib, c, v, w)
  {
    if v.List? && HasText(c.args, "separator") { JoinStrings(lib, v.items, c.args["separator"].s); }
  }

  lemma CoalesceTold(lib: Library, c: Call, v: Value, w: Value)
    requires c.name == "coalesce"
    ensures Told(lib, c, v, w)
  {
    if v.List? { PresentFound(v.items, w); }
  }

  lemma ScaleTold(lib: Library, c: Call, v: Value, w: Value)
    requires c.name == "scale"
    ensures Told(lib, c, v, w)
  {
    if "factor" in c.args { ScaledExact(c.args, v, w); }
  }

  lemma CaseTold(lib: Library, c: Call, v: Value, w: Value)
    requires c.name == "normaliseCase"
    ensures Told(lib, c, v, w)
  {
  }

  lemma OthersTold(lib: Library, c: Call, v: Value, w: Value)
    requires c.name in {"identity", "constant"} || c.name !in NAMES
    ensures Told(lib, c, v, w)
  {
  }

  /** The outcome of a call is what it gives, a TransformError where it refuses, and any other
      exception everywhere else. */
  lemma ForwardExact(lib: Library, c: Call, v: Value, w: Value)
    ensures Forward(lib, c, v) == Ok(w) <==> "value" !in c.args && Gives(lib, c, v, w)
    ensures Forward(lib, c, v) == Failed <==> "value" !in c.args && Refuses(lib, c, v)
  {
    assert Told(lib, c, v, w) by {
      match c.name
      case "parseDate" => ParseDateTold(lib, c, v, w);
      case "formatDate" => FormatDateTold(lib, c, v, w);
      case "instantAtStartOfDay" => StartOfDayTold(lib, c, v, w);
      case "valueMap" => ValueMapTold(lib, c, v, w);
      case "toMonetaryAmount" => MonetaryTold(lib, c, v, w);
      case "toIdentifier" => IdentifierTold(lib, c, v, w);
      case "decompose" => DecomposeTold(lib, c, v, w);
      case "compose" => ComposeTold(lib, c, v, w);
      case "concat" => ConcatTold(lib, c, v, w);
      case "coalesce" => CoalesceTold(lib, c, v, w);
      case "scale" => ScaleTold(lib, c, v, w);
      case "normaliseCase" => CaseTold(lib, c, v, w);
      case _ => OthersTold(lib, c, v, w);
    }
  }

  // ------------------------------------------------------------------------ reverse

  ghost predicate LastRowTo(t: ValueTable, target: string, i: int) {
    0 <= i < |t| && t[i].1 == target && forall j :: i < j < |t| ==> t[j].1 != target
  }

  ghost predicate ReturnsMapped(m: ResolvedMap, w: Value, v: Value) {
    && w.Str?
    && ((exists i :: LastRowTo(m.table, w.s, i) && v == Str(m.table[i].0)) ||
        (m.policy.Passthrough? && v == w && forall i :: 0 <= i < |m.table| ==> m.table[i].1 != w.s))
  }

  ghost predicate ReturnsDay(lib: Library, args: map<string, Value>, w: Value, v: Value) {
    && "zone" in args && w.DateTime?
    && if w.zone.None? then v == Day(lib.dayOf(w.clock))
       else HasZone(lib, args) && v == Day(lib.dayOf(lib.shift(w.clock, w.zone.value, args["zone"].s)))
  }

  ghost predicate ReturnsAmount(lib: Library, w: Value, v: Value) {
    && w.Obj? && "amount" in w.fields && v.Num?
    && (IsNumber(w.fields["amount"], v.n) ||
        (w.fields["amount"].Str? && lib.parseFloat(w.fields["amount"].s) == Some(v.n)))
  }

  /** The parts are those the separator keeps apart in the text. */
  ghost predicate ReturnsParts(args: map<string, Value>, w: Value, v: Value) {
    && HasText(args, "separator") && args["separator"].s != "" && w.Str?
    && exists parts :: v == List(Strings(parts)) && Text.Separated(parts, args["separator"].s) &&
                       Text.Join(parts, args["separator"].s) == w.s
  }

  ghost predicate ReturnsScaled(args: map<string, Value>, w: Value, v: Value) {
    && "factor" in args && v.Num?
    && exists n, f :: IsNumber(w, n) && IsNumber(args["factor"], f) && IsQuotient(v.n, n, f)
  }

  ghost predicate IsQuotient(q: real, n: real, f: real) { f != 0.0 && q * f == n }

  /** The call whose forward function the reverse of this one is, for the four that share. */
  ghost function Mirror(c: Call): Call {
    if c.name == "parseDate" then c.(name := "formatDate")
    else if c.name == "formatDate" then Call("parseDate", c.args - {"zone"}, None)
    else if c.name == "decompose" then c.(name := "compose")
    else c.(name := "decompose")
  }

  /** What undoing the transform makes of w. */
  ghost predicate Returns(lib: Library, c: Call, w: Value, v: Value) {
    match c.name
    case "identity" => v == w
    case "normaliseCase" => v == w
    case "parseDate" => Gives(lib, Mirror(c), w, v)
    case "formatDate" => Gives(lib, Mirror(c), w, v)
    case "instantAtStartOfDay" => ReturnsDay(lib, c.args, w, v)
    case "valueMap" => "map" in c.args && c.resolved.Some? && ReturnsMapped(c.resolved.value, w, v)
    case "toMonetaryAmount" => "currency" in c.args && ReturnsAmount(lib, w, v)
    case "toIdentifier" =>
      "scheme" in c.args && "issuer" in c.args && w.Obj? && "value" in w.fields && v == w.fields["value"]
    case "decompose" => "pattern" in c.args && Gives(lib, Mirror(c), w, v)
    case "compose" => "template" in c.args && Gives(lib, Mirror(c), w, v)
    case "concat" => ReturnsParts(c.args, w, v)
    case "scale" => ReturnsScaled(c.args, w, v)
    case _ => false
  }

  /** The values whose undoing is a TransformError: every value where there is no reverse. */
  ghost predicate RefusesBack(lib: Library, c: Call, w: Value) {
    match c.name
    case "coalesce" => true
    case "constant" => true
    case "parseDate" => "value" !in c.args && Refuses(lib, Mirror(c), w)
    case "formatDate" => "value" !in c.args && Refuses(lib, Mirror(c), w)
    case "instantAtStartOfDay" => "value" !in c.args && "zone" in c.args && !w.DateTime?
    case "valueMap" =>
      && "value" !in c.args && "map" in c.args && c.resolved.Some?
      && (!w.Str? || (!c.resolved.value.policy.Passthrough? &&
          forall i :: 0 <= i < |c.resolved.value.table| ==> c.resolved.value.table[i].1 != w.s))
    case "toMonetaryAmount" => "value" !in c.args && "currency" in c.args && (!w.Obj? || "amount" !in w.fields)
    case "toIdentifier" =>
      "value" !in c.args && "scheme" in c.args && "issuer" in c.args && (!w.Obj? || "value" !in w.fields)
    case "decompose" =>
      "value" !in c.args && "pattern" in c.args && ("template" !in c.args || Refuses(lib, Mirror(c), w))
    case "compose" =>
      "value" !in c.args && "template" in c.args && ("pattern" !in c.args || Refuses(lib, Mirror(c), w))
    case "concat" => "value" !in c.args && "separator" in c.args && !w.Str?
    case "scale" =>
      && "value" !in c.args && "factor" in c.args
      && (IsNumber(c.args["factor"], 0.0) ||
          ((c.args["factor"].Num? || c.args["factor"].Bool?) && !w.Num? && !w.Bool?))
    case _ => false
  }

  lemma InverseFindsRow(t: ValueTable, target: string)
    ensures LookupInverse(t, target).Some? ==>
              exists i :: LastRowTo(t, target, i) && LookupInverse(t, target).value == t[i].0
    ensures LookupInverse(t, target).None? <==> forall i :: 0 <= i < |t| ==> t[i].1 != target
  {
    InverseHit(t, target);
    if LookupInverse(t, target).Some? {
      var i :| 0 <= i < |t| && t[i] == (LookupInverse(t, target).value, target) &&
               forall j :: i < j < |t| ==> t[j].1 != target;
      assert LastRowTo(t, target, i);
    }
  }

  lemma ReturnsMappedExact(m: ResolvedMap, w: Value, v: Value)
    requires w.Str?
    ensures Translate(LookupInverse(m.table, w.s), m.policy, w.s) == Ok(v) <==> ReturnsMapped(m, w, v)
    ensures Translate(LookupInverse(m.table, w.s), m.policy, w.s) == Failed <==>
            !m.policy.Passthrough? && forall i :: 0 <= i < |m.table| ==> m.table[i].1 != w.s
  {
    InverseFindsRow(m.table, w.s);
  }

  lemma PartsExact(separator: string, w: string, parts: seq<string>)
    requires separator != ""
    ensures parts == Text.SplitOn(w, separator) <==>
            Text.Separated(parts, separator) && Text.Join(parts, separator) == w
  {
    Text.JoinSplit(w, separator);
    Text.PiecesSeparated(w, separator);
    if Text.Separated(parts, separator) { Text.SplitSeparated(parts, separator); }
  }

  lemma ReturnsPartsExact(args: map<string, Value>, w: Value, v: Value)
    requires "separator" in args
    ensures Split(args["separator"], w) == Ok(v) <==> ReturnsParts(args, w, v)
  {
    if HasText(args, "separator") && args["separator"].s != "" && w.Str? {
      forall parts
        ensures parts == Text.SplitOn(w.s, args["separator"].s) <==>
                Text.Separated(parts, args["separator"].s) && Text.Join(parts, args["separator"].s) == w.s
      {
        PartsExact(args["separator"].s, w.s, parts);
      }
    }
  }

  lemma DividedBack(n: real, f: real, v: real)
    requires f != 0.0
    ensures v == n * (1.0 / f) <==> IsQuotient(v, n, f)
  {
    assert (1.0 / f) * f == 1.0;
    assert (n * (1.0 / f)) * f == n * ((1.0 / f) * f);
    if v * f == n { assert v * f * (1.0 / f) == v * (f * (1.0 / f)); }
  }

  lemma ScaledBack(w: Value, v: Value, n: real, f: real)
    requires Number(w) == Some(n) && f != 0.0
    ensures Scale(1.0 / f, w) == Ok(v) <==> v.Num? && IsQuotient(v.n, n, f)
  {
    if v.Num? { DividedBack(n, f, v.n); }
  }

  lemma ReturnsScaledExact(args: map<string, Value>, w: Value, v: Value)
    requires "factor" in args
    ensures ReturnsScaled(args, w, v) <==>
            Number(args["factor"]).Some? && Number(args["factor"]).value != 0.0 &&
            Scale(1.0 / Number(args["factor"]).value, w) == Ok(v)
  {
    forall n ensures Number(w) == Some(n) <==> IsNumber(w, n) { NumberExact(w, n); }
    forall f ensures Number(args["factor"]) == Some(f) <==> IsNumber(args["factor"], f) {
      NumberExact(args["factor"], f);
    }
    if Number(w).Some? && Number(args["factor"]).Some? && Number(args["factor"]).value != 0.0 {
      var n, f := Number(w).value, Number(args["factor"]).value;
      ScaledBack(w, v, n, f);
      assert IsNumber(w, n) && IsNumber(args["factor"], f);
    }
  }

  ghost predicate ToldBack(lib: Library, c: Call, w: Value, v: Value) {
    && (Reverse(lib, c, w) == Ok(v) <==> "value" !in c.args && Returns(lib, c, w, v))
    && (Reverse(lib, c, w) == Failed <==> RefusesBack(lib, c, w))
  }

  lemma DatesTold(lib: Library, c: Call, w: Value, v: Value)
    requires c.name in {"parseDate", "formatDate"}
    ensures ToldBack(lib, c, w, v)
  {
  }

  lemma PatternsTold(lib: Library, c: Call, w: Value, v: Value)
    requires c.name in {"decompose", "compose"}
    ensures ToldBack(lib, c, w, v)
  {
  }

  lemma BuiltTold(lib: Library, c: Call, w: Value, v: Value)
    requires c.name in {"instantAtStartOfDay", "toMonetaryAmount", "toIdentifier"}
    ensures ToldBack(lib, c, w, v)
  {
  }

  lemma MappedBackTold(lib: Library, c: Call, w: Value, v: Value)
    requires c.name == "valueMap"
    ensures ToldBack(lib, c, w, v)
  {
    if Callable(c) && w.Str? {
      assert Reverse(lib, c, w) == Translate(LookupInverse(c.resolved.value.table, w.s), c.resolved.value.policy, w.s);
      ReturnsMappedExact(c.resolved.value, w, v);
    }
  }

  lemma SplitTold(lib: Library, c: Call, w: Value, v: Value)
    requires c.name == "concat"
    ensures ToldBack(lib, c, w, v)
  {
    if "separator" in c.args { ReturnsPartsExact(c.args, w, v); }
  }

  lemma ScaledBackTold(lib: Library, c: Call, w: Value, v: Value)
    requires c.name == "scale"
    ensures ToldBack(lib, c, w, v)
  {
    if Callable(c) { ReturnsScaledExact(c.args, w, v); }
    ScaleRefusesBack(lib, c, w);
  }

  lemma ScaleRefusesBack(lib: Library, c: Call, w: Value)
    requires c.name == "scale"
    ensures Reverse(lib, c, w) == Failed <==> RefusesBack(lib, c, w)
  {
  }

  lemma OthersToldBack(lib: Library, c: Call, w: Value, v: Value)
    requires c.name in {"identity", "normaliseCase", "coalesce", "constant"} || c.name !in NAMES
    ensures ToldBack(lib, c, w, v)
  {
  }

  /** Undoing a call ends in the value it returns, in a TransformError where it refuses, and in
      any other exception everywhere else. */
  lemma ReverseExact(lib: Library, c: Call, w: Value, v: Value)
    ensures Reverse(lib, c, w) == Ok(v) <==> "value" !in c.args && Returns(lib, c, w, v)
    ensures Reverse(lib, c, w) == Failed <==> RefusesBack(lib, c, w)
  {
    assert ToldBack(lib, c, w, v) by {
      match c.name
      case "valueMap" => MappedBackTold(lib, c, w, v);
      case "concat" => SplitTold(lib, c, w, v);
      case "scale" => ScaledBackTold(lib, c, w, v);
      case "parseDate" => DatesTold(lib, c, w, v);
      case "formatDate" => DatesTold(lib, c, w, v);
      case "decompose" => PatternsTold(lib, c, w, v);
      case "compose" => PatternsTold(lib, c, w, v);
      case "instantAtStartOfDay" => BuiltTold(lib, c, w, v);
      case "toMonetaryAmount" => BuiltTold(lib, c, w, v);
      case "toIdentifier" => BuiltTold(lib, c, w, v);
      case _ => OthersToldBack(lib, c, w, v);
    }
  }

  // ------------------------------------------------------------------------- chains

  /** The values a chain hands from call to call, the given one first and the result last. */
  ghost predicate Passes(lib: Library, chain: seq<Call>, vs: seq<Value>) {
    && |vs| == |chain| + 1
    && forall i :: 0 <= i < |chain| ==> "value" !in chain[i].args && Gives(lib, chain[i], vs[i], vs[i + 1])
  }

  /** A chain's result is what its calls give one after the other. */
  lemma {:induction false} ChainPasses(lib: Library, chain: seq<Call>, v: Value) returns (vs: seq<Value>)
    requires RunForward(lib, chain, v).Ok?
    ensures Passes(lib, chain, vs) && vs[0] == v && RunForward(lib, chain, v) == Ok(vs[|chain|])
  {
    if chain == [] {
      vs := [v];
    } else {
      var w := Forward(lib, chain[0], v).value;
      ForwardExact(lib, chain[0], v, w);
      var rest := ChainPasses(lib, chain[1..], w);
      vs := [v] + rest;
      forall i | 0 <= i < |chain| ensures "value" !in chain[i].args && Gives(lib, chain[i], vs[i], vs[i + 1]) {
        if i > 0 { assert chain[i] == chain[1..][i - 1] && vs[i] == rest[i - 1] && vs[i + 1] == rest[i]; }
      }
    }
  }

  lemma {:induction false} PassesRuns(lib: Library, chain: seq<Call>, vs: seq<Value>)
    requires Passes(lib, chain, vs)
    ensures RunForward(lib, chain, vs[0]) == Ok(vs[|chain|])
    decreases |chain|
  {
    if chain != [] {
      ForwardExact(lib, chain[0], vs[0], vs[1]);
      assert Passes(lib, chain[1..], vs[1..]);
      PassesRuns(lib, chain[1..], vs[1..]);
    }
  }
}
