/**
 Why redact() replaces the longest values first: when every occurrence of a masked value
 lies inside one of a set of disjoint masked blocks, each block becomes its own single
 token and everything around the blocks is untouched.
 */
module RedactionOrder {
  import opened Text
  import opened Redaction
  import opened Sequences

  /** A text cut into unmasked stretches and whole masked values. */
  datatype Segment = Plain(text: string) | Block(masked: Masked)

  function Original(segs: seq<Segment>): string {
    if segs == [] then ""
    else (if segs[0].Plain? then segs[0].text else segs[0].masked.value) + Original(segs[1..])
  }

  /** The text once the values in `done` have been replaced. */
  ghost function Current(segs: seq<Segment>, done: set<Masked>, digest: string -> string): string {
    if segs == [] then "" else Shown(segs[0], done, digest) + Current(segs[1..], done, digest)
  }

  ghost function Shown(seg: Segment, done: set<Masked>, digest: string -> string): string {
    match seg
    case Plain(s) => s
    case Block(m) => if m in done then Tokenise(m, digest) else m.value
  }

  /** v neither starts in an unmasked stretch nor sticks out of the block it starts in. */
  ghost predicate Contained(v: string, segs: seq<Segment>) {
    segs != [] ==>
      && Contained(v, segs[1..])
      && match segs[0]
         case Plain(s) => forall k :: 0 <= k < |s| ==> !(v <= s[k..] + Original(segs[1..]))
         case Block(m) => forall k :: 0 <= k < |m.value| && v <= m.value[k..] + Original(segs[1..]) ==>
             k + |v| <= |m.value|
  }

  lemma {:induction false} PrefixOfCurrent(p: string, segs: seq<Segment>, done: set<Masked>, digest: string -> string)
    requires '<' !in p && p <= Current(segs, done, digest)
    requires forall m :: m in done ==> IsToken(Tokenise(m, digest))
    ensures p <= Original(segs)
    decreases |segs|
  {
    if segs != [] && p != "" {
      var shown := Shown(segs[0], done, digest);
      assert p[0] in p && p[0] == Current(segs, done, digest)[0];
      if segs[0].Block? && segs[0].masked in done {
      } else if |p| > |shown| {
        assert p[|shown|..] <= Current(segs[1..], done, digest);
        PrefixOfCurrent(p[|shown|..], segs[1..], done, digest);
        assert p == shown + p[|shown|..];
      } else {
        assert p == (shown + Original(segs[1..]))[..|p|];
      }
    }
  }

  lemma PrefixPastStretch(v: string, x: string, segs: seq<Segment>, done: set<Masked>, digest: string -> string)
    requires '<' !in v && v <= x + Current(segs, done, digest)
    requires forall m :: m in done ==> IsToken(Tokenise(m, digest))
    ensures v <= x + Original(segs)
  {
    if |v| > |x| {
      assert v[|x|..] <= Current(segs, done, digest);
      PrefixOfCurrent(v[|x|..], segs, done, digest);
      assert v == x + v[|x|..];
    } else {
      assert v == (x + Original(segs))[..|v|];
    }
  }

  /** v starts nowhere in x, even running on into what follows. */
  ghost predicate Misses(v: string, x: string, rest: string) {
    forall k :: 0 <= k < |x| ==> !(v <= x[k..] + rest)
  }

  lemma MissesTail(v: string, x: string, rest: string)
    requires x != "" && Misses(v, x, rest)
    ensures !(v <= x + rest) && Misses(v, x[1..], rest)
  {
    assert x[0..] == x;
    forall k | 0 <= k < |x[1..]| ensures !(v <= x[1..][k..] + rest) {
      assert x[1..][k..] == x[k + 1..];
    }
  }

  /** Where v starts nowhere in x, replacing v keeps x. */
  lemma {:induction false} ReplaceKeeps(x: string, rest: string, v: string, token: string)
    requires v != "" && Misses(v, x, rest)
    ensures Replace(x + rest, v, token) == x + Replace(rest, v, token)
    decreases |x|
  {
    if x == "" {
      assert x + rest == rest;
    } else {
      MissesTail(v, x, rest);
      ReplaceKeeps(x[1..], rest, v, token);
      SplitHead(x, rest);
      SplitHead(x, Replace(rest, v, token));
      ReplaceStep(x + rest, v, token);
    }
  }

  lemma SplitHead(x: string, rest: string)
    requires x != ""
    ensures x + rest == [x[0]] + (x[1..] + rest) && (x + rest)[0] == x[0] && (x + rest)[1..] == x[1..] + rest
  {
  }

  lemma ReplaceStep(s: string, v: string, token: string)
    requires s != "" && v != "" && !(v <= s)
    ensures Replace(s, v, token) == [s[0]] + Replace(s[1..], v, token)
  {
  }

  ghost predicate Ready(m: Masked, segs: seq<Segment>, done: set<Masked>) {
    forall i :: 0 <= i < |segs| && segs[i].Block? && segs[i].masked !in done ==>
      |segs[i].masked.value| <= |m.value| && (segs[i].masked.value == m.value ==> segs[i].masked == m)
  }

  /** One replacement turns exactly the blocks holding that value into its token. */
  lemma {:induction false} ReplaceHitsBlocks(m: Masked, segs: seq<Segment>, done: set<Masked>, digest: string -> string)
    requires m.value != "" && NoBrackets(m.value) && m !in done && Contained(m.value, segs) && Ready(m, segs, done)
    requires forall d :: d in done ==> IsToken(Tokenise(d, digest)) && !Occurs(m.value, Tokenise(d, digest))
    ensures Replace(Current(segs, done, digest), m.value, Tokenise(m, digest)) == Current(segs, done + {m}, digest)
    decreases |segs|
  {
    if segs != [] {
      var v, token, seg := m.value, Tokenise(m, digest), segs[0];
      var x, rest := Shown(seg, done, digest), Current(segs[1..], done, digest);
      assert forall i :: 0 <= i < |segs[1..]| ==> segs[1..][i] == segs[i + 1];
      ReplaceHitsBlocks(m, segs[1..], done, digest);
      if seg == Block(m) {
        assert x == v && (v + rest)[|v|..] == rest;
      } else {
        forall k | 0 <= k < |x| ensures !(v <= x[k..] + rest) {
          StartsNowhere(m, segs, done, digest, k);
        }
        ReplaceKeeps(x, rest, v, token);
      }
    }
  }

  /** A start inside a token would put the value inside the token. */
  lemma StartInToken(v: string, token: string, rest: string, k: nat)
    requires IsToken(token) && NoBrackets(v) && k < |token| && v <= token[k..] + rest
    ensures Occurs(v, token)
  {
    assert (token + rest)[k..] == token[k..] + rest;
    assert OccursAt(v, token + rest, k);
    NoStraddle(v, token, rest, k);
    assert token[k..k + |v|] == (token + rest)[k..k + |v|];
    assert OccursAt(v, token, k);
  }

  /** A value as long as the block it starts in is that block. */
  lemma StartInBlock(v: string, x: string, rest: string, k: nat)
    requires k < |x| && |x| <= |v| && v <= x[k..] + rest && k + |v| <= |x|
    ensures v == x
  {
    assert x[0..] == x;
    assert v == (x + rest)[..|v|] == x;
  }

  lemma StartsNowhere(m: Masked, segs: seq<Segment>, done: set<Masked>, digest: string -> string, k: nat)
    requires segs != [] && segs[0] != Block(m) && k < |Shown(segs[0], done, digest)|
    requires m.value != "" && NoBrackets(m.value) && m !in done && Contained(m.value, segs) && Ready(m, segs, done)
    requires forall d :: d in done ==> IsToken(Tokenise(d, digest)) && !Occurs(m.value, Tokenise(d, digest))
    ensures !(m.value <= Shown(segs[0], done, digest)[k..] + Current(segs[1..], done, digest))
  {
    var x, rest, v := Shown(segs[0], done, digest), Current(segs[1..], done, digest), m.value;
    if v <= x[k..] + rest {
      if segs[0].Block? && segs[0].masked in done {
        StartInToken(v, x, rest, k);
      } else {
        PrefixPastStretch(v, x[k..], segs[1..], done, digest);
        if segs[0].Block? { StartInBlock(v, x, rest, k); }
      }
    }
  }

  /** m is in the order, before any other label of the same value. */
  ghost predicate FirstLabel(m: Masked, order: seq<Masked>) {
    exists j :: 0 <= j < |order| && order[j] == m && forall i :: 0 <= i < j ==> order[i].value != m.value
  }

  ghost function Replaced(order: seq<Masked>): set<Masked> { set m | m in order }

  /** A block still to be replaced is no longer than the value in turn, and is that value's only
      as the same label. */
  lemma BlockAhead(b: Masked, order: seq<Masked>, i: nat)
    requires i < |order| && LongestFirst(order, Replaced(order)) && FirstLabel(b, order) && b !in Replaced(order[..i])
    ensures |b.value| <= |order[i].value| && (b.value == order[i].value ==> b == order[i])
  {
    var j :| 0 <= j < |order| && order[j] == b && forall i :: 0 <= i < j ==> order[i].value != b.value;
    assert forall n :: 0 <= n < i ==> order[n] in order[..i];
  }

  /** The exact redacted text: with the longest values first, every block becomes one token
      and every unmasked stretch is kept. */
  lemma {:induction false} LongestFirstIsExact(segs: seq<Segment>, order: seq<Masked>, digest: string -> string, i: nat)
    requires i <= |order| && LongestFirst(order, Replaced(order))
    requires WellShaped(order, digest) && Maskable(order, digest) && forall m :: m in order ==> m.value != ""
    requires forall m :: m in order ==> Contained(m.value, segs)
    requires forall k :: 0 <= k < |segs| && segs[k].Block? ==> FirstLabel(segs[k].masked, order)
    ensures ReplaceAll(Current(segs, Replaced(order[..i]), digest), order[i..], digest) ==
            Current(segs, Replaced(order), digest)
    decreases |order| - i
  {
    var done := Replaced(order[..i]);
    if i == |order| {
      assert order[..i] == order;
    } else {
      var m := order[i];
      assert Replaced(order[..i + 1]) == done + {m} by { assert order[..i + 1] == order[..i] + [m]; }
      assert m !in order[..i];
      forall j | 0 <= j < i ensures order[j] in done { assert order[..i][j] == order[j]; }
      forall k | 0 <= k < |segs| && segs[k].Block? && segs[k].masked !in done
        ensures |segs[k].masked.value| <= |m.value| && (segs[k].masked.value == m.value ==> segs[k].masked == m)
      {
        BlockAhead(segs[k].masked, order, i);
      }
      forall d | d in done ensures IsToken(Tokenise(d, digest)) && !Occurs(m.value, Tokenise(d, digest)) {
        assert d in order && m in order;
      }
      ReplaceHitsBlocks(m, segs, done, digest);
      assert order[i..][1..] == order[i + 1..];
      LongestFirstIsExact(segs, order, digest, i + 1);
    }
  }

  lemma {:induction false} NothingDoneYet(segs: seq<Segment>, digest: string -> string)
    ensures Current(segs, {}, digest) == Original(segs)
  {
    if segs != [] { NothingDoneYet(segs[1..], digest); }
  }

  /** redact() on a text whose masked occurrences all lie inside disjoint masked blocks. A value
      flagged under several labels gets the token of the one that comes first in the order. */
  lemma RedactsBlockByBlock(segs: seq<Segment>, order: seq<Masked>, digest: string -> string)
    requires LongestFirst(order, Replaced(order))
    requires WellShaped(order, digest) && Maskable(order, digest) && forall m :: m in order ==> m.value != ""
    requires forall m :: m in order ==> Contained(m.value, segs)
    requires forall k :: 0 <= k < |segs| && segs[k].Block? ==> FirstLabel(segs[k].masked, order)
    ensures ReplaceAll(Original(segs), order, digest) == Current(segs, Replaced(order), digest)
  {
    NothingDoneYet(segs, digest);
    assert Replaced(order[..0]) == {} && order[0..] == order;
    LongestFirstIsExact(segs, order, digest, 0);
  }

  lemma ReplaceAbsent(s: string, v: string, token: string)
    requires v != "" && !Occurs(v, s)
    ensures Replace(s, v, token) == s
  {
    forall k | 0 <= k < |s| ensures !(v <= s[k..] + "") {
      assert s[k..] + "" == s[k..];
      if v <= s[k..] { assert s[k..k + |v|] == v && OccursAt(v, s, k); }
    }
    ReplaceKeeps(s, "", v, token);
    assert s + "" == s;
  }

  lemma ReplaceFront(v: string, rest: string, token: string)
    requires v != ""
    ensures Replace(v + rest, v, token) == token + Replace(rest, v, token)
  {
    assert (v + rest)[|v|..] == rest;
  }

  lemma ReplaceBoth(text: string, a: Masked, b: Masked, digest: string -> string)
    ensures ReplaceAll(text, [a, b], digest)
            == Replace(Replace(text, a.value, Tokenise(a, digest)), b.value, Tokenise(b, digest))
  {
    assert [a, b][1..] == [b] && [b][1..] == [];
    var once := Replace(text, a.value, Tokenise(a, digest));
    assert ReplaceAll(once, [b], digest) == ReplaceAll(Replace(once, b.value, Tokenise(b, digest)), [], digest);
  }

  lemma TooShortToHold(z: string, v: string, token: string)
    requires |v| > |z|
    ensures Replace(z, v, token) == z
  {
    assert !Occurs(v, z);
    ReplaceAbsent(z, v, token);
  }

  lemma OverlapReplaced(x: string, y: string, z: string, t: string, u: string)
    requires y != "" && |x| >= |z| && NoBrackets(y + z) && IsToken(t) && !Occurs(y + z, t)
    ensures Replace(Replace(x + y + z, x + y, t), y + z, u) == t + z
  {
    var v := y + z;
    ReplaceFront(x + y, z, t);
    TooShortToHold(z, x + y, t);
    forall k | 0 <= k < |t| ensures !(v <= t[k..] + z) {
      if v <= t[k..] + z { StartInToken(v, t, z, k); }
    }
    ReplaceKeeps(t, z, v, u);
    TooShortToHold(z, v, u);
  }

  /** Values that overlap without nesting leak, whatever they are: of x + y and y + z in
      x + y + z the tail z stays in the clear behind the first token. */
  lemma OverlapLeaks(x: string, y: string, z: string, first: string, second: string, digest: string -> string)
    requires y != "" && |x| >= |z| && NoBrackets(y + z)
    requires var t := Tokenise(Masked(x + y, first), digest); IsToken(t) && !Occurs(y + z, t)
    ensures var order := [Masked(x + y, first), Masked(y + z, second)];
            && (order[0] != order[1] ==> LongestFirst(order, {order[0], order[1]}))
            && ReplaceAll(x + y + z, order, digest) == Tokenise(order[0], digest) + z
  {
    var a, b := Masked(x + y, first), Masked(y + z, second);
    ReplaceBoth(x + y + z, a, b, digest);
    OverlapReplaced(x, y, z, Tokenise(a, digest), Tokenise(b, digest));
  }

  // ------------------------------------------------- two values, exactly

  /** str.replace is str.join of str.split. */
  lemma {:induction false} ReplaceIsSplitJoin(s: string, v: string, token: string)
    requires v != ""
    ensures Replace(s, v, token) == Join(SplitOn(s, v), token)
    decreases |s|
  {
    if s == "" {
    } else if v <= s {
      var rest := SplitOn(s[|v|..], v);
      ReplaceIsSplitJoin(s[|v|..], v, token);
      assert ([""] + rest)[1..] == rest;
      assert "" + token + Join(rest, token) == token + Join(rest, token);
    } else {
      ReplaceIsSplitJoin(s[1..], v, token);
      JoinPrefix([s[0]], SplitOn(s[1..], v), token);
    }
  }

  /** A value without brackets does not run on into text that starts with one. */
  lemma {:induction false} ReplaceUpTo(x: string, s: string, v: string, token: string)
    requires v != "" && NoBrackets(v) && s != "" && s[0] == '<'
    ensures Replace(x + s, v, token) == Replace(x, v, token) + Replace(s, v, token)
    decreases |x|
  {
    if x == "" {
      assert x + s == s;
    } else {
      StartsBefore(x, s, v);
      if v <= x {
        assert (x + s)[|v|..] == x[|v|..] + s;
        ReplaceUpTo(x[|v|..], s, v, token);
        Regroup(token, Replace(x[|v|..], v, token), Replace(s, v, token));
      } else {
        SplitHead(x, s);
        ReplaceStep(x + s, v, token);
        ReplaceStep(x, v, token);
        ReplaceUpTo(x[1..], s, v, token);
        Regroup([x[0]], Replace(x[1..], v, token), Replace(s, v, token));
      }
    }
  }

  lemma StartsBefore(x: string, s: string, v: string)
    requires NoBrackets(v) && s != "" && s[0] == '<'
    ensures v <= x + s <==> v <= x
  {
    assert (x + s)[|x|] == '<' && (|v| > |x| ==> v[|x|] in v);
    if |v| <= |x| { assert (x + s)[..|v|] == x[..|v|]; }
  }

  /** Every piece split at v and joined with its token. */
  function Each(pieces: seq<string>, v: string, token: string): seq<string>
    requires v != ""
  {
    seq(|pieces|, i requires 0 <= i < |pieces| => Join(SplitOn(pieces[i], v), token))
  }

  lemma TokenKept(t: string, rest: string, v: string, token: string)
    requires IsToken(t) && v != "" && NoBrackets(v) && !Occurs(v, t)
    ensures Replace(t + rest, v, token) == t + Replace(rest, v, token)
  {
    forall k | 0 <= k < |t| ensures !(v <= t[k..] + rest) {
      if v <= t[k..] + rest { StartInToken(v, t, rest, k); }
    }
    ReplaceKeeps(t, rest, v, token);
  }

  lemma {:induction false} ReplaceInPieces(pieces: seq<string>, t: string, v: string, token: string)
    requires pieces != [] && IsToken(t) && v != "" && NoBrackets(v) && !Occurs(v, t)
    ensures Replace(Join(pieces, t), v, token) == Join(Each(pieces, v, token), t)
    decreases |pieces|
  {
    var first, rest := pieces[0], pieces[1..];
    ReplaceIsSplitJoin(first, v, token);
    if rest != [] {
      var later := Join(rest, t);
      ReplaceInPieces(rest, t, v, token);
      ReplaceUpTo(first, t + later, v, token);
      TokenKept(t, later, v, token);
      assert Join(pieces, t) == first + (t + later);
      assert Each(pieces, v, token)[1..] == Each(rest, v, token);
      Regroup(Replace(first, v, token), t, Replace(later, v, token));
    }
  }

  /** Two values, the longer first, in any text: what stays in the clear is exactly what is left
      of the pieces between the hits of the first once the hits of the second inside each piece
      are taken out. An occurrence of the second across a hit of the first stays where it sticks
      out. */
  lemma TwoValuesExactly(text: string, a: Masked, b: Masked, digest: string -> string)
    requires a.value != "" && b.value != "" && NoBrackets(b.value)
    requires IsToken(Tokenise(a, digest)) && !Occurs(b.value, Tokenise(a, digest))
    ensures ReplaceAll(text, [a, b], digest)
            == Join(Each(SplitOn(text, a.value), b.value, Tokenise(b, digest)), Tokenise(a, digest))
  {
    ReplaceBoth(text, a, b, digest);
    ReplaceIsSplitJoin(text, a.value, Tokenise(a, digest));
    ReplaceInPieces(SplitOn(text, a.value), Tokenise(a, digest), b.value, Tokenise(b, digest));
  }
}
