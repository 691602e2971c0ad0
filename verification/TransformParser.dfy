/**
 mapping/parser.py: the hand-written scanner for transform chains, and the proof that
 it undoes the printed form of a chain.
 */
module TransformParser {
  import opened Wrappers
  import opened Documents
  import opened Text

  const MAX_CHAIN_LENGTH := 3
  const ARROW := " -> "
  const COMMA := ","

  datatype TransformCall = TransformCall(name: string, args: map<string, Value>)

  // ---------------------------------------------------------------- characters

  predicate IsDigit(c: char) { '0' <= c <= '9' }

  predicate IsWordStart(c: char) { 'A' <= c <= 'Z' || 'a' <= c <= 'z' || c == '_' }

  predicate IsWord(c: char) { IsWordStart(c) || IsDigit(c) }

  predicate IsQuote(c: char) { c == '\'' || c == '"' }

  function StripLeft(s: string): string {
    if s != [] && IsSpace(s[0]) then StripLeft(s[1..]) else s
  }

  function StripRight(s: string): string {
    if s != [] && IsSpace(s[|s| - 1]) then StripRight(s[..|s| - 1]) else s
  }

  function Strip(s: string): string { StripRight(StripLeft(s)) }

  // ------------------------------------------------------------------- scanner

  /** The pieces still to come when `text` is left to scan and `current` is collected. */
  function Scan(text: string, sep: string, depth: int, quote: Option<char>, current: string): (pieces: seq<string>)
    requires |sep| > 0
    ensures |pieces| >= 1
    decreases |text|
  {
    if text == [] then [current]
    else
      var ch, rest := text[0], text[1..];
      if quote.Some? then Scan(rest, sep, depth, if ch == quote.value then None else quote, current + [ch])
      else if IsQuote(ch) then Scan(rest, sep, depth, Some(ch), current + [ch])
      else if ch == '(' then Scan(rest, sep, depth + 1, None, current + [ch])
      else if ch == ')' then Scan(rest, sep, depth - 1, None, current + [ch])
      else if depth == 0 && sep <= text then [current] + Scan(text[|sep|..], sep, 0, None, [])
      else Scan(rest, sep, depth, None, current + [ch])
  }

  function TopLevel(text: string, sep: string): seq<string>
    requires |sep| > 0
  {
    Scan(text, sep, 0, None, [])
  }

  /** _split_top_level, as the loop it is. */
  method SplitTopLevel(text: string, sep: string) returns (parts: seq<string>)
    requires |sep| > 0
    ensures parts == TopLevel(text, sep)
    ensures Text.Join(parts, sep) == text
  {
    parts := [];
    var current: string, depth: int, quote: Option<char>, i := [], 0, None, 0;
    while i < |text|
      invariant 0 <= i <= |text|
      invariant parts + Scan(text[i..], sep, depth, quote, current) == TopLevel(text, sep)
    {
      var ch := text[i];
      assert text[i..][1..] == text[i + 1..];
      if quote.Some? {
        current := current + [ch];
        if ch == quote.value { quote := None; }
        i := i + 1;
      } else if IsQuote(ch) {
        quote, current, i := Some(ch), current + [ch], i + 1;
      } else if ch == '(' {
        depth, current, i := depth + 1, current + [ch], i + 1;
      } else if ch == ')' {
        depth, current, i := depth - 1, current + [ch], i + 1;
      } else if depth == 0 && sep <= text[i..] {
        assert text[i..][|sep|..] == text[i + |sep|..];
        parts, current, i := parts + [current], [], i + |sep|;
      } else {
        current, i := current + [ch], i + 1;
      }
    }
    parts := parts + [current];
    PiecesRestoreText(text, sep);
  }

  /** Nothing is lost by splitting, whatever the text, brackets and quotes. */
  lemma PiecesRestoreText(text: string, sep: string)
    requires |sep| > 0
    ensures Text.Join(TopLevel(text, sep), sep) == text
  {
    ScanRestores(text, sep, 0, None, []);
  }

  lemma {:induction false} ScanRestores(text: string, sep: string, depth: int, quote: Option<char>, current: string)
    requires |sep| > 0
    ensures Text.Join(Scan(text, sep, depth, quote, current), sep) == current + text
    decreases |text|
  {
    if text != [] {
      var ch, rest := text[0], text[1..];
      assert current + [ch] + rest == current + text;
      if quote.Some? {
        ScanRestores(rest, sep, depth, if ch == quote.value then None else quote, current + [ch]);
      } else if IsQuote(ch) {
        ScanRestores(rest, sep, depth, Some(ch), current + [ch]);
      } else if ch == '(' {
        ScanRestores(rest, sep, depth + 1, None, current + [ch]);
      } else if ch == ')' {
        ScanRestores(rest, sep, depth - 1, None, current + [ch]);
      } else if depth == 0 && sep <= text {
        ScanRestores(text[|sep|..], sep, 0, None, []);
        var tail := Scan(text[|sep|..], sep, 0, None, []);
        assert ([current] + tail)[1..] == tail;
        assert text == sep + text[|sep|..];
        assert current + sep + ([] + text[|sep|..]) == current + text;
      } else {
        ScanRestores(rest, sep, depth, None, current + [ch]);
      }
    }
  }

  // -------------------------------------------------------------------- values

  function DigitsValue(s: string): nat
    requires forall c :: c in s ==> IsDigit(c)
  {
    if s == [] then 0
    else assert IsDigit(s[|s| - 1]); 10 * DigitsValue(s[..|s| - 1]) + (s[|s| - 1] as int - '0' as int)
  }

  predicate AllDigits(s: string) { s != [] && forall c :: c in s ==> IsDigit(c) }

  function Unsigned(s: string): string { if s != [] && s[0] == '-' then s[1..] else s }

  predicate IsInteger(s: string) { AllDigits(Unsigned(s)) }

  function FirstPoint(s: string): (r: Option<nat>)
    ensures r.Some? ==> r.value < |s| && s[r.value] == '.'
  {
    if s == [] then None
    else if s[0] == '.' then Some(0)
    else match FirstPoint(s[1..])
      case None => None
      case Some(i) => Some(i + 1)
  }

  /** Where the point stands in a string of the shape digits.digits. */
  function PointAt(s: string): (r: Option<nat>)
    ensures r.Some? ==> r.value < |s| && AllDigits(s[..r.value]) && AllDigits(s[r.value + 1..])
  {
    match FirstPoint(s)
    case Some(i) => if AllDigits(s[..i]) && AllDigits(s[i + 1..]) then Some(i) else None
    case None => None
  }

  function Pow10(n: nat): (r: int)
    ensures r >= 1
  {
    if n == 0 then 1 else 10 * Pow10(n - 1)
  }

  /** float(token) for a token of the shape -?digits.digits */
  function DecimalValue(s: string): real
    requires PointAt(Unsigned(s)).Some?
  {
    var u := Unsigned(s);
    var i := PointAt(u).value;
    var m := DigitsValue(u[..i]) as real + DigitsValue(u[i + 1..]) as real / Pow10(|u| - i - 1) as real;
    if s[0] == '-' then -m else m
  }

  function IntegerValue(s: string): int
    requires IsInteger(s)
  {
    var m: int := DigitsValue(Unsigned(s));
    if s[0] == '-' then -m else m
  }

  const WRAPPER := "constant("

  predicate IsWrapped(t: string) {
    |t| > |WRAPPER| && WRAPPER <= t && t[|t| - 1] == ')'
  }

  /** _parse_value: a nested constant(...), a quoted string, a number, a flag, or a bare word. */
  function ParseValue(token: string): Value
    decreases |token|
  {
    var t := Strip(token);
    StripShortens(token);
    if IsWrapped(t) then ParseValue(t[|WRAPPER|..|t| - 1])
    else if |t| >= 2 && t[0] == t[|t| - 1] && IsQuote(t[0]) then Str(t[1..|t| - 1])
    else if IsInteger(t) then Num(IntegerValue(t) as real)
    else if PointAt(Unsigned(t)).Some? then Num(DecimalValue(t))
    else if t == "true" then Bool(true)
    else if t == "false" then Bool(false)
    else Str(t)
  }

  lemma StripShortens(s: string)
    ensures |Strip(s)| <= |s|
  {
    LeftShortens(s);
    RightShortens(StripLeft(s));
  }

  lemma LeftShortens(s: string)
    ensures |StripLeft(s)| <= |s|
  {
  }

  lemma RightShortens(s: string)
    ensures |StripRight(s)| <= |s|
  {
  }

  // -------------------------------------------------------- arguments and calls

  /** Length of the longest prefix matching [A-Za-z_]\w*; 0 when there is none. */
  function WordLength(s: string): (n: nat)
    ensures n <= |s|
  {
    if s != [] && IsWordStart(s[0]) then 1 + TailLength(s[1..]) else 0
  }

  function TailLength(s: string): (n: nat)
    ensures n <= |s|
  {
    if s != [] && IsWord(s[0]) then 1 + TailLength(s[1..]) else 0
  }

  datatype ParsedArg = Positional(value: Value) | Keyword(key: string, value: Value)

  /** The match of _KWARG_PATTERN: the name and the text of the value. */
  function KeywordMatch(t: string): Option<(string, string)> {
    var n := WordLength(t);
    var rest := StripLeft(t[n..]);
    if n > 0 && rest != [] && rest[0] == '=' && StripLeft(rest[1..]) != [] then Some((t[..n], StripLeft(rest[1..])))
        else None
  }

  /** _parse_arg; None is a MappingParseError. */
  function ParseArg(token: string): Option<ParsedArg> {
    var t := Strip(token);
    if t == [] then None
    else match KeywordMatch(t)
      case Some((key, value)) => Some(Keyword(key, ParseValue(Strip(value))))
      case None => Some(Positional(ParseValue(t)))
  }

  /** The loop of _parse_call over its argument tokens. */
  function CollectArgs(name: string, tokens: seq<string>, args: map<string, Value>,
        positionalUsed: bool): Option<map<string, Value>>
    decreases |tokens|
  {
    if tokens == [] then Some(args)
    else match ParseArg(tokens[0])
      case None => None
      case Some(Keyword(k, v)) => CollectArgs(name, tokens[1..], args[k := v], positionalUsed)
      case Some(Positional(v)) =>
        if name == "constant" && !positionalUsed
        then CollectArgs(name, tokens[1..], args["const" := v], true)
        else None
  }

  method FillArgs(name: string, tokens: seq<string>) returns (result: Option<map<string, Value>>)
    ensures result == CollectArgs(name, tokens, map[], false)
  {
    var args: map<string, Value> := map[];
    var positionalUsed := false;
    for i := 0 to |tokens|
      invariant CollectArgs(name, tokens[i..], args, positionalUsed) == CollectArgs(name, tokens, map[], false)
    {
      assert tokens[i..][1..] == tokens[i + 1..];
      var arg := ParseArg(tokens[i]);
      if arg.None? { return None; }
      if arg.value.Keyword? {
        args := args[arg.value.key := arg.value.value];
      } else if name == "constant" && !positionalUsed {
        args, positionalUsed := args["const" := arg.value.value], true;
      } else {
        return None;
      }
    }
    result := Some(args);
  }

  function ParseCall(text: string): Option<TransformCall> {
    var n := WordLength(text);
    var rest := StripLeft(text[n..]);
    if n == 0 then None
    else if rest == [] then Some(TransformCall(text[..n], map[]))
    else if |rest| >= 2 && rest[0] == '(' && rest[|rest| - 1] == ')' then
      var inner := rest[1..|rest| - 1];
      var args := if Strip(inner) == [] then Some(map[])
          else CollectArgs(text[..n], TopLevel(inner, COMMA), map[], false);
      (match args
       case None => None
       case Some(m) => Some(TransformCall(text[..n], m)))
    else None
  }

  function ParseCalls(texts: seq<string>): Option<seq<TransformCall>> {
    if texts == [] then Some([])
    else match ParseCall(Strip(texts[0]))
      case None => None
      case Some(c) =>
        match ParseCalls(texts[1..])
        case None => None
        case Some(cs) => Some([c] + cs)
  }

  /** parse_transform_expr; None is a MappingParseError. */
  function Parse(expr: string): Option<seq<TransformCall>> {
    var texts := TopLevel(expr, ARROW);
    if |texts| > MAX_CHAIN_LENGTH then None else ParseCalls(texts)
  }
}
