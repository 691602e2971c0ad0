/**
 The written form of a transform chain, and the proof that parsing it gives the chain
 back even when its strings contain commas, brackets or arrows.
 */
module TransformPrinter {
  import opened Wrappers
  import opened Documents
  import opened TransformParser
  import opened Text

  datatype Written =
    | Quoted(text: string, mark: char)
    | Whole(n: int)
    | Decimal(negative: bool, whole: string, part: string)
    | Flag(b: bool)
    | Bare(word: string)
    | Wrapped(inner: Written)                      // constant(...)

  /** One argument, with the blanks written before it: a keyword's, or the one that constant
      takes by position. */
  datatype WrittenArg = Keyed(blanks: string, key: string, value: Written) | Unnamed(blanks: string, value: Written)

  datatype WrittenCall = WrittenCall(name: string, args: seq<WrittenArg>)

  predicate IsIdentifier(s: string) {
    s != [] && IsWordStart(s[0]) && forall c :: c in s ==> IsWord(c)
  }

  /** What an unquoted word may hold: nothing that ends it, opens something, or names a key. */
  predicate IsBare(c: char) { !IsSpace(c) && !IsQuote(c) && c != '(' && c != ')' && c != ',' && c != '=' }

  predicate Writable(v: Written) {
    match v
    case Quoted(text, mark) => IsQuote(mark) && mark !in text
    case Decimal(_, whole, part) => AllDigits(whole) && AllDigits(part)
    case Bare(w) => w != [] && IsWordStart(w[0]) && (forall c :: c in w ==> IsBare(c)) && w != "true" && w != "false"
    case Wrapped(inner) => Writable(inner)
    case _ => true
  }

  /** The name under which the argument arrives. */
  function KeyOf(a: WrittenArg): string { if a.Keyed? then a.key else "const" }

  predicate WritableArg(name: string, a: WrittenArg) {
    && (forall c :: c in a.blanks ==> IsSpace(c)) && Writable(a.value)
    && if a.Keyed? then IsIdentifier(a.key) else name == "constant"
  }

  predicate KeysApart(args: seq<WrittenArg>) { forall i, j :: 0 <= i < j < |args| ==> KeyOf(args[i]) != KeyOf(args[j]) }

  predicate WritableArgs(name: string, args: seq<WrittenArg>) {
    (forall i :: 0 <= i < |args| ==> WritableArg(name, args[i])) && KeysApart(args)
  }

  predicate WritableCall(c: WrittenCall) { IsIdentifier(c.name) && WritableArgs(c.name, c.args) }

  // ------------------------------------------------------------------ printing

  function PrintValue(v: Written): string {
    match v
    case Quoted(s, mark) => [mark] + s + [mark]
    case Whole(n) => if n < 0 then "-" + Text.Digits(-n) else Text.Digits(n)
    case Decimal(negative, whole, part) => (if negative then "-" else "") + (whole + "." + part)
    case Flag(b) => if b then "true" else "false"
    case Bare(w) => w
    case Wrapped(inner) => WRAPPER + (PrintValue(inner) + ")")
  }

  function PrintBody(a: WrittenArg): string {
    if a.Keyed? then a.key + "=" + PrintValue(a.value) else PrintValue(a.value)
  }

  function PrintArg(a: WrittenArg): string { a.blanks + PrintBody(a) }

  function PrintArgs(args: seq<WrittenArg>): seq<string> {
    seq(|args|, i requires 0 <= i < |args| => PrintArg(args[i]))
  }

  function PrintCall(c: WrittenCall): string {
    if c.args == [] then c.name else c.name + "(" + Text.Join(PrintArgs(c.args), COMMA) + ")"
  }

  function PrintCalls(cs: seq<WrittenCall>): seq<string> {
    seq(|cs|, i requires 0 <= i < |cs| => PrintCall(cs[i]))
  }

  function Print(cs: seq<WrittenCall>): string { Text.Join(PrintCalls(cs), ARROW) }

  // ------------------------------------------------------------------- meaning

  function Meaning(v: Written): Value {
    match v
    case Quoted(s, _) => Str(s)
    case Whole(n) => Num(n as real)
    case Decimal(negative, whole, part) =>
      if AllDigits(whole) && AllDigits(part) then Num(if negative then -Amount(whole, part) else Amount(whole, part))
      else Null
    case Flag(b) => Bool(b)
    case Bare(w) => Str(w)
    case Wrapped(inner) => Meaning(inner)
  }

  /** The number written whole.part. */
  function Amount(whole: string, part: string): real
    requires AllDigits(whole) && AllDigits(part)
  {
    DigitsValue(whole) as real + DigitsValue(part) as real / Pow10(|part|) as real
  }

  ghost predicate Means(args: map<string, Value>, written: seq<WrittenArg>) {
    && (forall k :: k in args <==> exists i :: 0 <= i < |written| && KeyOf(written[i]) == k)
    && (forall i :: 0 <= i < |written| ==>
          KeyOf(written[i]) in args && args[KeyOf(written[i])] == Meaning(written[i].value))
  }

  // ------------------------------------------- how the scanner sees printed text

  /** The scanner's state after c, when no character of c can begin a separator that
      starts with `stop`; None when one could. */
  ghost function Run(c: string, depth: int, quote: Option<char>, stop: char): Option<(int, Option<char>)> {
    if c == [] then Some((depth, quote))
    else
      var ch, rest := c[0], c[1..];
      if quote.Some? then Run(rest, depth, if ch == quote.value then None else quote, stop)
      else if IsQuote(ch) then Run(rest, depth, Some(ch), stop)
      else if ch == '(' then Run(rest, depth + 1, None, stop)
      else if ch == ')' then Run(rest, depth - 1, None, stop)
      else if depth == 0 && ch == stop then None
      else Run(rest, depth, None, stop)
  }

  ghost predicate Solid(c: string, depth: int, stop: char) {
    Run(c, depth, None, stop) == Some((depth, None))
  }

  lemma {:induction false} RunSteps(a: string, b: string, depth: int, quote: Option<char>, stop: char)
    requires Run(a, depth, quote, stop).Some?
    ensures Run(a + b, depth, quote, stop) ==
            Run(b, Run(a, depth, quote, stop).value.0, Run(a, depth, quote, stop).value.1, stop)
  {
    if a == [] {
      assert a + b == b;
    } else {
      var ch, rest := a[0], a[1..];
      assert (a + b)[0] == ch && (a + b)[1..] == rest + b;
      if quote.Some? { RunSteps(rest, b, depth, if ch == quote.value then None else quote, stop); }
      else if IsQuote(ch) { RunSteps(rest, b, depth, Some(ch), stop); }
      else if ch == '(' { RunSteps(rest, b, depth + 1, None, stop); }
      else if ch == ')' { RunSteps(rest, b, depth - 1, None, stop); }
      else { RunSteps(rest, b, depth, None, stop); }
    }
  }

  lemma {:induction false} ScanOver(c: string, rest: string, sep: string, depth: int, quote: Option<char>,
        current: string)
    requires |sep| > 0 && Run(c, depth, quote, sep[0]).Some?
    ensures var s := Run(c, depth, quote, sep[0]).value;
            Scan(c + rest, sep, depth, quote, current) == Scan(rest, sep, s.0, s.1, current + c)
    decreases |c|
  {
    if c == [] {
      assert c + rest == rest && current + c == current;
    } else {
      var ch, tail := c[0], c[1..];
      assert (c + rest)[0] == ch && (c + rest)[1..] == tail + rest && current + c == current + [ch] + tail;
      if quote.Some? { ScanOver(tail, rest, sep, depth, if ch == quote.value then None else quote, current + [ch]); }
      else if IsQuote(ch) { ScanOver(tail, rest, sep, depth, Some(ch), current + [ch]); }
      else if ch == '(' { ScanOver(tail, rest, sep, depth + 1, None, current + [ch]); }
      else if ch == ')' { ScanOver(tail, rest, sep, depth - 1, None, current + [ch]); }
      else { ScanOver(tail, rest, sep, depth, None, current + [ch]); }
    }
  }

  predicate IsSeparator(sep: string) {
    |sep| > 0 && !IsQuote(sep[0]) && sep[0] != '(' && sep[0] != ')'
  }

  /** Splitting undoes joining when every piece is solid. */
  lemma {:induction false} SplitJoinSolid(pieces: seq<string>, sep: string)
    requires IsSeparator(sep) && pieces != []
    requires forall i :: 0 <= i < |pieces| ==> Solid(pieces[i], 0, sep[0])
    ensures TopLevel(Text.Join(pieces, sep), sep) == pieces
    decreases |pieces|
  {
    var p := pieces[0];
    if |pieces| == 1 {
      ScanOver(p, "", sep, 0, None, []);
      assert p + "" == p && [] + p == p;
    } else {
      var tail := Text.Join(pieces[1..], sep);
      SplitJoinSolid(pieces[1..], sep);
      var text := sep + tail;
      assert Text.Join(pieces, sep) == p + text;
      ScanOver(p, text, sep, 0, None, []);
      assert [] + p == p && text[0] == sep[0] && sep <= text && text[|sep|..] == tail;
      assert Scan(text, sep, 0, None, p) == [p] + TopLevel(tail, sep);
    }
  }

  lemma SolidAppend(a: string, b: string, depth: int, stop: char)
    requires Solid(a, depth, stop) && Solid(b, depth, stop)
    ensures Solid(a + b, depth, stop)
  {
    RunSteps(a, b, depth, None, stop);
  }

  lemma {:induction false} SolidPlain(c: string, depth: int, stop: char)
    requires forall x :: x in c ==> !IsQuote(x) && x != '(' && x != ')' && (x != stop || depth != 0)
    ensures Solid(c, depth, stop)
  {
    if c != [] {
      assert c[0] in c && forall x :: x in c[1..] ==> x in c;
      SolidPlain(c[1..], depth, stop);
    }
  }

  lemma {:induction false} RunInsideQuotes(s: string, mark: char, depth: int, stop: char)
    requires mark !in s
    ensures Run(s, depth, Some(mark), stop) == Some((depth, Some(mark)))
  {
    if s != [] {
      assert s[0] in s;
      RunInsideQuotes(s[1..], mark, depth, stop);
    }
  }

  lemma SolidQuoted(s: string, mark: char, depth: int, stop: char)
    requires IsQuote(mark) && mark !in s
    ensures Solid([mark] + s + [mark], depth, stop)
  {
    var t := s + [mark];
    RunInsideQuotes(s, mark, depth, stop);
    RunSteps(s, [mark], depth, Some(mark), stop);
    assert Run([mark], depth, Some(mark), stop) == Run([], depth, None, stop);
    assert ([mark] + t)[1..] == t && [mark] + s + [mark] == [mark] + t;
  }

  // -------------------------------------------------------------- printed values

  lemma {:induction false} DigitsParse(n: nat)
    ensures AllDigits(Text.Digits(n)) && DigitsValue(Text.Digits(n)) == n
  {
    if n < 10 {
      assert [Text.Digit(n)][..0] == [];
    } else {
      DigitsParse(n / 10);
      var d := Text.Digits(n);
      assert d[..|d| - 1] == Text.Digits(n / 10) && d[|d| - 1] == Text.Digit(n % 10);
    }
  }

  predicate IsStop(stop: char) { stop == ' ' || stop == ',' }

  lemma {:induction false} PrintedValueSolid(v: Written, depth: int, stop: char)
    requires Writable(v) && IsStop(stop)
    ensures Solid(PrintValue(v), depth, stop)
    decreases v
  {
    match v
    case Quoted(s, mark) => SolidQuoted(s, mark, depth, stop);
    case Whole(n) =>
      DigitsParse(if n < 0 then -n else n);
      SolidPlain(PrintValue(v), depth, stop);
    case Decimal(_, _, _) => DecimalSolid(v, depth, stop);
    case Flag(b) =>
      assert forall c :: c in PrintValue(v) ==> IsWord(c);
      SolidPlain(PrintValue(v), depth, stop);
    case Bare(w) => SolidPlain(w, depth, stop);
    case Wrapped(inner) =>
      PrintedValueSolid(inner, depth + 1, stop);
      WrappedSolid(PrintValue(inner), depth, stop);
  }

  lemma DecimalSolid(v: Written, depth: int, stop: char)
    requires v.Decimal? && Writable(v) && IsStop(stop)
    ensures Solid(PrintValue(v), depth, stop)
  {
    SolidPlain(PrintValue(v), depth, stop);
  }

  lemma WrappedSolid(inner: string, depth: int, stop: char)
    requires Solid(inner, depth + 1, stop) && IsStop(stop)
    ensures Solid(WRAPPER + (inner + ")"), depth, stop)
  {
    assert forall c :: c in "constant" ==> IsWord(c);
    SolidPlain("constant", depth, stop);
    BracketedSolid(inner, depth, stop);
    SolidAppend("constant", "(" + (inner + ")"), depth, stop);
    assert WRAPPER + (inner + ")") == "constant" + ("(" + (inner + ")"));
  }

  lemma BracketedSolid(inner: string, depth: int, stop: char)
    requires Solid(inner, depth + 1, stop)
    ensures Solid("(" + (inner + ")"), depth, stop)
  {
    RunSteps(inner, ")", depth + 1, None, stop);
    assert Run(")", depth + 1, None, stop) == Run([], depth, None, stop);
    assert ("(" + (inner + ")"))[1..] == inner + ")";
  }

  predicate Trimmed(s: string) { s != [] && !IsSpace(s[0]) && !IsSpace(s[|s| - 1]) }

  lemma {:induction false} StripPadded(blanks: string, s: string)
    requires Trimmed(s) && forall c :: c in blanks ==> IsSpace(c)
    ensures StripLeft(blanks + s) == s && Strip(blanks + s) == s
    decreases |blanks|
  {
    if blanks == [] {
      assert blanks + s == s;
    } else {
      assert blanks[0] in blanks && (blanks + s)[1..] == blanks[1..] + s;
      StripPadded(blanks[1..], s);
    }
  }

  lemma StripTrimmed(s: string)
    requires Trimmed(s)
    ensures StripLeft(s) == s && Strip(s) == s
  {
  }

  lemma PrintedValueTrimmed(v: Written)
    requires Writable(v)
    ensures Trimmed(PrintValue(v))
  {
    match v
    case Whole(n) => DigitsEnds(if n < 0 then -n else n);
    case Decimal(negative, whole, part) =>
      EndsOf(whole);
      EndsOf(part);
      var t := PrintValue(v);
      assert t[|t| - 1] == part[|part| - 1] && t[if negative then 1 else 0] == whole[0];
    case Bare(w) => assert w[0] in w && w[|w| - 1] in w;
    case _ =>
  }

  lemma DigitsEnds(n: nat)
    ensures var d := Text.Digits(n); d != [] && IsDigit(d[0]) && IsDigit(d[|d| - 1])
  {
    DigitsParse(n);
    EndsOf(Text.Digits(n));
  }

  lemma EndsOf(d: string)
    requires AllDigits(d)
    ensures d != [] && IsDigit(d[0]) && IsDigit(d[|d| - 1])
  {
    assert d[0] in d && d[|d| - 1] in d;
  }

  lemma {:induction false} ValueParses(v: Written)
    requires Writable(v)
    ensures ParseValue(PrintValue(v)) == Meaning(v)
    decreases v
  {
    PrintedValueTrimmed(v);
    StripTrimmed(PrintValue(v));
    match v
    case Quoted(s, mark) => QuotedParses(s, mark);
    case Whole(n) => WholeParses(n);
    case Decimal(_, _, _) => DecimalParses(v);
    case Flag(b) => FlagParses(b);
    case Bare(w) => BareParses(w);
    case Wrapped(inner) =>
      ValueParses(inner);
      PrintedValueTrimmed(inner);
      WrappedParses(PrintValue(inner));
  }

  lemma WrappedParses(inner: string)
    requires inner != [] && Strip(WRAPPER + (inner + ")")) == WRAPPER + (inner + ")")
    ensures ParseValue(WRAPPER + (inner + ")")) == ParseValue(inner)
  {
    var t := WRAPPER + (inner + ")");
    assert t[|WRAPPER|..|t| - 1] == inner;
  }

  lemma DecimalToken(t: string)
    requires Strip(t) == t && t != [] && t[0] != 'c' && !IsQuote(t[0]) && !IsInteger(t) && PointAt(Unsigned(t)).Some?
    ensures ParseValue(t) == Num(DecimalValue(t))
  {
    assert WRAPPER[0] == 'c';
  }

  lemma DecimalOf(t: string, u: string, whole: string, part: string)
    requires t != [] && Unsigned(t) == u && PointAt(u) == Some(|whole|) && AllDigits(whole) && AllDigits(part)
    requires u[..|whole|] == whole && u[|whole| + 1..] == part
    ensures DecimalValue(t) == if t[0] == '-' then -Amount(whole, part) else Amount(whole, part)
  {
    assert |u| - |whole| - 1 == |part|;
  }

  lemma DecimalParses(v: Written)
    requires v.Decimal? && Writable(v) && Strip(PrintValue(v)) == PrintValue(v)
    ensures ParseValue(PrintValue(v)) == Meaning(v)
  {
    var t, u := PrintValue(v), v.whole + "." + v.part;
    DecimalShape(v);
    DecimalOf(t, u, v.whole, v.part);
    assert !IsInteger(t) by { assert '.' in Unsigned(t) && !IsDigit('.'); }
    DecimalToken(t);
  }

  lemma DecimalShape(v: Written)
    requires v.Decimal? && Writable(v)
    ensures var t, u := PrintValue(v), v.whole + "." + v.part;
            && Unsigned(t) == u && '.' in u && (t[0] == '-' <==> v.negative) && (t[0] == '-' || IsDigit(t[0]))
            && PointAt(u) == Some(|v.whole|) && u[..|v.whole|] == v.whole && u[|v.whole| + 1..] == v.part
            && !IsQuote(t[0]) && t[0] != 'c'
  {
    var t, u := PrintValue(v), v.whole + "." + v.part;
    EndsOf(v.whole);
    PointAfter(v.whole, v.part);
    assert u[0] == v.whole[0] && u[|v.whole|] == '.';
    if v.negative { assert t == "-" + u && t[1..] == u; } else { assert t == u; }
    assert u[..|v.whole|] == v.whole && u[|v.whole| + 1..] == v.part;
  }

  lemma {:induction false} PointAfter(whole: string, part: string)
    requires forall c :: c in whole ==> IsDigit(c)
    ensures FirstPoint(whole + "." + part) == Some(|whole|)
    decreases |whole|
  {
    var u := whole + "." + part;
    if whole != [] {
      assert whole[0] in whole && u[0] == whole[0];
      assert u[1..] == whole[1..] + "." + part;
      PointAfter(whole[1..], part);
    }
  }

  lemma BareParses(w: string)
    requires Writable(Bare(w)) && Strip(w) == w
    ensures ParseValue(w) == Str(w)
  {
    assert w[0] in w && !IsDigit(w[0]) && w[0] != '-' && !IsQuote(w[0]);
    assert WRAPPER[8] == '(' && (|w| > 8 ==> w[8] in w);
    if FirstPoint(w).Some? && FirstPoint(w).value > 0 { assert w[..FirstPoint(w).value][0] == w[0]; }
  }

  lemma QuotedParses(s: string, mark: char)
    requires Writable(Quoted(s, mark)) && Strip(PrintValue(Quoted(s, mark))) == PrintValue(Quoted(s, mark))
    ensures ParseValue(PrintValue(Quoted(s, mark))) == Meaning(Quoted(s, mark))
  {
    var t := PrintValue(Quoted(s, mark));
    assert WRAPPER[0] == 'c' && t[0] == mark == t[|t| - 1];
    assert t[1..|t| - 1] == s;
  }

  lemma WholeParses(n: int)
    requires Strip(PrintValue(Whole(n))) == PrintValue(Whole(n))
    ensures ParseValue(PrintValue(Whole(n))) == Meaning(Whole(n))
  {
    var t, d := PrintValue(Whole(n)), Text.Digits(if n < 0 then -n else n);
    DigitsParse(if n < 0 then -n else n);
    assert d[0] in d;
    assert WRAPPER[0] == 'c' && t[0] != 'c' && !IsQuote(t[0]);
    assert n < 0 ==> t[1..] == d;
    assert Unsigned(t) == d;
  }

  lemma FlagParses(b: bool)
    requires Strip(PrintValue(Flag(b))) == PrintValue(Flag(b))
    ensures ParseValue(PrintValue(Flag(b))) == Meaning(Flag(b))
  {
    var t := PrintValue(Flag(b));
    assert WRAPPER[8] == '(' && t[0] != '-';
    assert t[0] in t && !IsDigit(t[0]);
    NoPoint(t);
  }

  lemma {:induction false} NoPoint(s: string)
    requires '.' !in s
    ensures FirstPoint(s) == None
  {
    if s != [] {
      assert s[0] in s;
      NoPoint(s[1..]);
    }
  }

  // ----------------------------------------------------------- printed arguments

  lemma {:induction false} TailOfWord(w: string, rest: string)
    requires (forall c :: c in w ==> IsWord(c)) && (rest != [] ==> !IsWord(rest[0]))
    ensures TailLength(w + rest) == |w|
  {
    if w == [] {
      assert w + rest == rest;
    } else {
      assert w[0] in w && (w + rest)[1..] == w[1..] + rest;
      TailOfWord(w[1..], rest);
    }
  }

  lemma WordThenRest(w: string, rest: string)
    requires IsIdentifier(w) && (rest != [] ==> !IsWord(rest[0]))
    ensures WordLength(w + rest) == |w| && (w + rest)[..|w|] == w && (w + rest)[|w|..] == rest
  {
    assert (w + rest)[1..] == w[1..] + rest;
    TailOfWord(w[1..], rest);
  }

  /** What parsing the argument gives. */
  function ArgMeaning(a: WrittenArg): ParsedArg {
    if a.Keyed? then Keyword(a.key, Meaning(a.value)) else Positional(Meaning(a.value))
  }

  lemma ArgParses(name: string, a: WrittenArg)
    requires WritableArg(name, a)
    ensures ParseArg(PrintArg(a)) == Some(ArgMeaning(a))
  {
    PrintedValueTrimmed(a.value);
    ValueParses(a.value);
    if a.Keyed? {
      KeywordToken(a.blanks, a.key, PrintValue(a.value));
    } else {
      StripPadded(a.blanks, PrintValue(a.value));
      NoKeyword(a.value);
    }
  }

  /** No printed value looks like a keyword argument. */
  lemma NoKeyword(v: Written)
    requires Writable(v)
    ensures KeywordMatch(PrintValue(v)).None?
  {
    var t := PrintValue(v);
    match v
    case Whole(n) => DigitsEnds(if n < 0 then -n else n);
    case Decimal(_, whole, _) => EndsOf(whole);
    case Flag(b) =>
      assert t == t + [] && IsIdentifier(t);
      WordThenRest(t, []);
    case Bare(w) => BareNoKeyword(w);
    case Wrapped(inner) =>
      assert IsIdentifier("constant");
      WordThenRest("constant", "(" + (PrintValue(inner) + ")"));
      assert t == "constant" + ("(" + (PrintValue(inner) + ")"));
    case _ =>
  }

  lemma BareNoKeyword(w: string)
    requires Writable(Bare(w))
    ensures KeywordMatch(w).None?
  {
    var rest := StripLeft(w[WordLength(w)..]);
    LeftKeepsBare(w[WordLength(w)..]);
    if rest != [] { assert rest[0] in rest; }
  }

  lemma {:induction false} LeftKeepsBare(s: string)
    requires forall c :: c in s ==> IsBare(c)
    ensures StripLeft(s) == s
  {
    if s != [] { assert s[0] in s; }
  }

  lemma KeywordToken(blanks: string, key: string, v: string)
    requires (forall c :: c in blanks ==> IsSpace(c)) && IsIdentifier(key) && Trimmed(v)
    ensures ParseArg(blanks + (key + "=" + v)) == Some(Keyword(key, ParseValue(v)))
  {
    var t := key + "=" + v;
    assert key[0] in key && t[|t| - 1] == v[|v| - 1];
    StripPadded(blanks, t);
    KeywordMatches(key, v);
    StripTrimmed(v);
  }

  lemma KeywordMatches(key: string, v: string)
    requires IsIdentifier(key) && Trimmed(v)
    ensures KeywordMatch(key + "=" + v) == Some((key, v))
  {
    var rest := "=" + v;
    assert key + "=" + v == key + rest;
    WordThenRest(key, rest);
    assert rest[1..] == v;
    StripTrimmed(v);
  }

  lemma ArgSolid(name: string, a: WrittenArg, depth: int, stop: char)
    requires WritableArg(name, a) && IsStop(stop) && (depth != 0 || stop == ',')
    ensures Solid(PrintArg(a), depth, stop)
  {
    SolidPlain(a.blanks, depth, stop);
    PrintedValueSolid(a.value, depth, stop);
    if a.Keyed? {
      SolidPlain(a.key, depth, stop);
      SolidPlain("=", depth, stop);
      SolidAppend(a.key, "=", depth, stop);
      SolidAppend(a.key + "=", PrintValue(a.value), depth, stop);
    }
    SolidAppend(a.blanks, PrintBody(a), depth, stop);
  }

  lemma {:induction false} CollectPrinted(name: string, written: seq<WrittenArg>, i: nat, args: map<string, Value>,
        used: bool)
    requires i <= |written| && WritableArgs(name, written) && Means(args, written[..i])
    requires used ==> exists j :: 0 <= j < i && written[j].Unnamed?
    ensures var r := CollectArgs(name, PrintArgs(written)[i..], args, used); r.Some? && Means(r.value, written)
    decreases |written| - i
  {
    var tokens := PrintArgs(written)[i..];
    if i == |written| {
      assert written[..i] == written;
    } else {
      var a := written[i];
      ArgParses(name, a);
      assert tokens[0] == PrintArg(a) && tokens[1..] == PrintArgs(written)[i + 1..];
      if used {
        var j :| 0 <= j < i && written[j].Unnamed?;
        assert KeyOf(written[j]) != KeyOf(a);
      }
      CollectStep(name, a, tokens, args, used);
      MeansExtended(args, written, i);
      CollectPrinted(name, written, i + 1, args[KeyOf(a) := Meaning(a.value)], used || a.Unnamed?);
    }
  }

  lemma CollectStep(name: string, a: WrittenArg, tokens: seq<string>, args: map<string, Value>, used: bool)
    requires tokens != [] && ParseArg(tokens[0]) == Some(ArgMeaning(a)) && (a.Unnamed? ==> name == "constant" && !used)
    ensures CollectArgs(name, tokens, args, used)
            == CollectArgs(name, tokens[1..], args[KeyOf(a) := Meaning(a.value)], used || a.Unnamed?)
  {
  }

  lemma MeansExtended(args: map<string, Value>, written: seq<WrittenArg>, i: nat)
    requires i < |written| && KeysApart(written) && Means(args, written[..i])
    ensures Means(args[KeyOf(written[i]) := Meaning(written[i].value)], written[..i + 1])
  {
    var before, after := written[..i], written[..i + 1];
    var args' := args[KeyOf(written[i]) := Meaning(written[i].value)];
    assert forall k :: 0 <= k < i ==> after[k] == before[k];
    forall key ensures key in args' <==> exists j :: 0 <= j < |after| && KeyOf(after[j]) == key {
      if key in args && key != KeyOf(written[i]) {
        var j :| 0 <= j < |before| && KeyOf(before[j]) == key;
        assert KeyOf(after[j]) == key;
      }
      if key == KeyOf(written[i]) { assert KeyOf(after[i]) == key; }
      if j :| 0 <= j < |after| && KeyOf(after[j]) == key && j < i { assert KeyOf(before[j]) == key; }
    }
  }

  // --------------------------------------------------------------- printed calls

  lemma {:induction false} JoinedSolid(pieces: seq<string>, depth: int, stop: char)
    requires depth != 0 && stop != '(' && stop != ')' && !IsQuote(stop)
    requires forall i :: 0 <= i < |pieces| ==> Solid(pieces[i], depth, stop)
    ensures Solid(Text.Join(pieces, COMMA), depth, stop)
  {
    if |pieces| > 1 {
      JoinedSolid(pieces[1..], depth, stop);
      SolidPlain(COMMA, depth, stop);
      SolidAppend(pieces[0], COMMA, depth, stop);
      SolidAppend(pieces[0] + COMMA, Text.Join(pieces[1..], COMMA), depth, stop);
    }
  }

  lemma ArgsSolid(name: string, args: seq<WrittenArg>, depth: int, stop: char)
    requires WritableArgs(name, args)
    requires IsStop(stop) && (depth != 0 || stop == ',')
    ensures forall i :: 0 <= i < |args| ==> Solid(PrintArgs(args)[i], depth, stop)
  {
    forall i | 0 <= i < |args| ensures Solid(PrintArgs(args)[i], depth, stop) {
      ArgSolid(name, args[i], depth, stop);
    }
  }

  /** A printed call keeps its arrows inside brackets or quotes. */
  lemma CallSolid(c: WrittenCall)
    requires WritableCall(c)
    ensures Solid(PrintCall(c), 0, ARROW[0])
  {
    var stop := ARROW[0];
    SolidPlain(c.name, 0, stop);
    if c.args != [] {
      var inner := Text.Join(PrintArgs(c.args), COMMA);
      ArgsSolid(c.name, c.args, 1, stop);
      JoinedSolid(PrintArgs(c.args), 1, stop);
      BracketedSolid(inner, 0, stop);
      SolidAppend(c.name, "(" + (inner + ")"), 0, stop);
      assert PrintCall(c) == c.name + ("(" + (inner + ")"));
    }
  }

  lemma ArgsParse(name: string, args: seq<WrittenArg>)
    requires args != [] && WritableArgs(name, args)
    ensures var r := CollectArgs(name, TopLevel(Text.Join(PrintArgs(args), COMMA), COMMA), map[], false);
            r.Some? && Means(r.value, args)
  {
    var tokens := PrintArgs(args);
    ArgsSolid(name, args, 0, ',');
    SplitJoinSolid(tokens, COMMA);
    assert tokens[0..] == tokens && args[..0] == [];
    CollectPrinted(name, args, 0, map[], false);
  }

  lemma CallTrimmed(c: WrittenCall)
    requires WritableCall(c)
    ensures Trimmed(PrintCall(c))
  {
    assert c.name[0] in c.name && c.name[|c.name| - 1] in c.name;
    assert PrintCall(c)[0] == c.name[0];
  }

  ghost predicate CallMeans(parsed: Option<TransformCall>, c: WrittenCall) {
    parsed.Some? && parsed.value.name == c.name && Means(parsed.value.args, c.args)
  }

  lemma CallParses(c: WrittenCall)
    requires WritableCall(c)
    ensures CallMeans(ParseCall(PrintCall(c)), c)
  {
    if c.args == [] {
      BareCallParses(c.name);
    } else {
      StripNotEmpty(c.name, c.args);
      BracketsParse(c.name, Text.Join(PrintArgs(c.args), COMMA));
      ArgsParse(c.name, c.args);
    }
  }

  lemma BareCallParses(name: string)
    requires IsIdentifier(name)
    ensures ParseCall(name) == Some(TransformCall(name, map[]))
  {
    assert name == name + [];
    WordThenRest(name, []);
  }

  lemma BracketsParse(name: string, inner: string)
    requires IsIdentifier(name) && Strip(inner) != []
    ensures var r, m := ParseCall(name + "(" + inner + ")"), CollectArgs(name, TopLevel(inner, COMMA), map[], false);
            if m.Some? then r == Some(TransformCall(name, m.value)) else r == None
  {
    var rest := "(" + inner + ")";
    assert name + "(" + inner + ")" == name + rest;
    WordThenRest(name, rest);
    assert rest[1..|rest| - 1] == inner;
  }

  /** The printed arguments are never blank, so _parse_call does look at them. */
  lemma StripNotEmpty(name: string, args: seq<WrittenArg>)
    requires args != [] && WritableArgs(name, args)
    ensures Strip(Text.Join(PrintArgs(args), COMMA)) != []
  {
    var s, a := Text.Join(PrintArgs(args), COMMA), args[0];
    PrintedValueTrimmed(a.value);
    if a.Keyed? { assert a.key[0] in a.key; }
    var c := PrintBody(a)[0];
    assert PrintArg(a)[|a.blanks|] == c;
    assert s[|a.blanks|] == c;
    SolidLetterSurvives(s, c);
  }

  lemma SolidLetterSurvives(s: string, c: char)
    requires c in s && !IsSpace(c)
    ensures c in Strip(s)
  {
    LeftKeeps(s, c);
    RightKeeps(StripLeft(s), c);
  }

  lemma LeftKeeps(s: string, c: char)
    requires c in s && !IsSpace(c)
    ensures c in StripLeft(s)
  {
  }

  lemma {:induction false} RightKeeps(s: string, c: char)
    requires c in s && !IsSpace(c)
    ensures c in StripRight(s)
  {
    if s != [] && IsSpace(s[|s| - 1]) {
      assert s == s[..|s| - 1] + [s[|s| - 1]];
      RightKeeps(s[..|s| - 1], c);
    }
  }

  // ------------------------------------------------------------------ the theorem

  ghost predicate SameChain(parsed: seq<TransformCall>, written: seq<WrittenCall>) {
    && |parsed| == |written|
    && forall i :: 0 <= i < |parsed| ==> parsed[i].name == written[i].name && Means(parsed[i].args, written[i].args)
  }

  lemma {:induction false} CallsParse(cs: seq<WrittenCall>)
    requires forall i :: 0 <= i < |cs| ==> WritableCall(cs[i])
    ensures ParseCalls(PrintCalls(cs)).Some? && SameChain(ParseCalls(PrintCalls(cs)).value, cs)
  {
    if cs != [] {
      var texts := PrintCalls(cs);
      CallParses(cs[0]);
      CallTrimmed(cs[0]);
      StripTrimmed(texts[0]);
      assert texts[1..] == PrintCalls(cs[1..]);
      CallsParse(cs[1..]);
    }
  }

  /** Parsing a printed chain of one to three calls gives that chain; a longer one is refused. */
  lemma PrintThenParse(cs: seq<WrittenCall>)
    requires cs != [] && forall i :: 0 <= i < |cs| ==> WritableCall(cs[i])
    ensures |cs| <= MAX_CHAIN_LENGTH ==> Parse(Print(cs)).Some? && SameChain(Parse(Print(cs)).value, cs)
    ensures |cs| > MAX_CHAIN_LENGTH ==> Parse(Print(cs)).None?
  {
    var texts := PrintCalls(cs);
    forall i | 0 <= i < |texts| ensures Solid(texts[i], 0, ARROW[0]) {
      CallSolid(cs[i]);
    }
    SplitJoinSolid(texts, ARROW);
    CallsParse(cs);
  }
}
