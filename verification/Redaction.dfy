/**
 gate/tokenisation.py: deterministic substring replace-all over the raw text, one masked
 value after another, each replaced by its keyed token.
 */
module Redaction {
  import opened Text

  // --------------------------------------------------------------- str.replace

  /** text.replace(value, token). The empty value matches before every character and at the end. */
  function Replace(text: string, value: string, token: string): string
    decreases |text|
  {
    if value == "" then token + (if text == "" then "" else [text[0]] + Replace(text[1..], "", token))
    else if text == "" then ""
    else if value <= text then token + Replace(text[|value|..], value, token)
    else [text[0]] + Replace(text[1..], value, token)
  }

  predicate NoBrackets(s: string) { '<' !in s && '>' !in s }

  /** The shape tokenise() gives: an opening bracket, bracket-free text, a closing bracket. */
  predicate IsToken(t: string) {
    |t| >= 2 && t[0] == '<' && t[|t| - 1] == '>' && forall i :: 0 < i < |t| - 1 ==> t[i] != '<' && t[i] != '>'
  }

  datatype Masked = Masked(value: string, kind: string)

  /** tokenise(): the label and a truncated keyed digest of "label:value". */
  function Tokenise(m: Masked, digest: string -> string): string {
    "<" + (m.kind + ":" + digest(m.kind + ":" + m.value)) + ">"
  }

  lemma TokeniseShape(m: Masked, digest: string -> string)
    requires NoBrackets(m.kind) && NoBrackets(digest(m.kind + ":" + m.value))
    ensures IsToken(Tokenise(m, digest))
    ensures var t, n := Tokenise(m, digest), |m.kind| + 2;
            t[1..n] == m.kind + ":" && t[n..|t| - 1] == digest(m.kind + ":" + m.value)
  {
    var inner := m.kind + ":" + digest(m.kind + ":" + m.value);
    assert forall i :: 0 < i < |inner| + 1 ==> Tokenise(m, digest)[i] == inner[i - 1];
  }

  // ------------------------------------------------------------- occurrence facts

  lemma OccursShift(sub: string, head: string, tail: string)
    requires Occurs(sub, tail)
    ensures Occurs(sub, head + tail)
  {
    var i: nat :| i <= |tail| && OccursAt(sub, tail, i);
    assert (head + tail)[|head| + i..|head| + i + |sub|] == tail[i..i + |sub|];
    assert OccursAt(sub, head + tail, |head| + i);
  }

  lemma OccursInTail(sub: string, s: string, i: nat)
    requires i <= |s| && Occurs(sub, s[i..])
    ensures Occurs(sub, s)
  {
    assert s == s[..i] + s[i..];
    OccursShift(sub, s[..i], s[i..]);
  }

  /** A string whose only brackets, if any, are its two ends cannot straddle a token's end. */
  lemma NoStraddle(sub: string, token: string, tail: string, i: nat)
    requires IsToken(token) && (NoBrackets(sub) || IsToken(sub))
    requires OccursAt(sub, token + tail, i) && i < |token|
    ensures i + |sub| <= |token|
  {
    var s, last := token + tail, |token| - 1;
    if i + |sub| >= |token| {
      assert sub[last - i] == s[i..i + |sub|][last - i] == s[last] == '>';
    }
  }

  lemma AcrossToken(sub: string, token: string, tail: string)
    requires IsToken(token) && sub != ""
    requires NoBrackets(sub) || IsToken(sub)
    requires Occurs(sub, token + tail)
    ensures Occurs(sub, token) || Occurs(sub, tail)
  {
    var s := token + tail;
    var i: nat :| i <= |s| && OccursAt(sub, s, i);
    if i < |token| {
      NoStraddle(sub, token, tail, i);
      assert token[i..i + |sub|] == s[i..i + |sub|];
      assert OccursAt(sub, token, i);
    } else {
      assert tail[i - |token|..i - |token| + |sub|] == s[i..i + |sub|];
      assert OccursAt(sub, tail, i - |token|);
    }
  }

  // ------------------------------------------------ replacing adds only tokens

  /** A prefix of the replaced text that starts no token is a prefix of the text. */
  lemma {:induction false} PrefixOfReplaced(p: string, text: string, value: string, token: string)
    requires IsToken(token) && '<' !in p && p <= Replace(text, value, token)
    ensures p <= text
    decreases |text|
  {
    if p != "" {
      assert p[0] in p && p[0] == Replace(text, value, token)[0];
      assert text != "" && value != "" && !(value <= text);
      var p' := p[1..];
      assert p' <= Replace(text[1..], value, token);
      PrefixOfReplaced(p', text[1..], value, token);
      assert p == [p[0]] + p' && text == [text[0]] + text[1..];
    }
  }

  /** The same behind a kept first character, which may be an opening bracket. */
  lemma FrontPrefix(sub: string, text: string, value: string, token: string)
    requires IsToken(token) && text != "" && sub != "" && '<' !in sub[1..]
    requires sub <= [text[0]] + Replace(text[1..], value, token)
    ensures sub <= text
  {
    var tail := Replace(text[1..], value, token);
    assert ([text[0]] + tail)[1..] == tail;
    assert sub[1..] <= tail;
    PrefixOfReplaced(sub[1..], text[1..], value, token);
    assert sub == [sub[0]] + sub[1..] && text == [text[0]] + text[1..];
  }

  /** Replacing creates no occurrence of a bracket-free string, nor of another token: any
      occurrence afterwards was there before, or lies inside the inserted token. */
  lemma {:induction false} ReplaceCreatesNothing(sub: string, text: string, value: string, token: string)
    requires IsToken(token) && sub != "" && (NoBrackets(sub) || (IsToken(sub) && sub != token))
    requires Occurs(sub, Replace(text, value, token))
    ensures Occurs(sub, text) || Occurs(sub, token)
    decreases |text|
  {
    var r := Replace(text, value, token);
    if value == "" {
      if text == "" {
        assert r == token + "";
        AcrossToken(sub, token, "");
      } else {
        var tail := [text[0]] + Replace(text[1..], "", token);
        AcrossToken(sub, token, tail);
        if Occurs(sub, tail) { FrontCreatesNothing(sub, text, "", token); }
      }
    } else if text == "" {
    } else if value <= text {
      var tail := Replace(text[|value|..], value, token);
      AcrossToken(sub, token, tail);
      if Occurs(sub, tail) {
        ReplaceCreatesNothing(sub, text[|value|..], value, token);
        if Occurs(sub, text[|value|..]) { OccursInTail(sub, text, |value|); }
      }
    } else {
      FrontCreatesNothing(sub, text, value, token);
    }
  }

  /** The same when the first character of the text is kept. */
  lemma {:induction false} FrontCreatesNothing(sub: string, text: string, value: string, token: string)
    requires IsToken(token) && sub != "" && (NoBrackets(sub) || (IsToken(sub) && sub != token))
    requires text != "" && Occurs(sub, [text[0]] + Replace(text[1..], value, token))
    ensures Occurs(sub, text) || Occurs(sub, token)
    decreases |text|, 0
  {
    var tail := Replace(text[1..], value, token);
    var s := [text[0]] + tail;
    var i: nat :| i <= |s| && OccursAt(sub, s, i);
    if i == 0 {
      FrontPrefix(sub, text, value, token);
      assert OccursAt(sub, text, 0);
    } else {
      assert tail[i - 1..i - 1 + |sub|] == s[i..i + |sub|];
      assert OccursAt(sub, tail, i - 1);
      ReplaceCreatesNothing(sub, text[1..], value, token);
      if Occurs(sub, text[1..]) { OccursInTail(sub, text, 1); }
    }
  }

  /** Replacing removes the value everywhere. */
  lemma {:induction false} ReplaceRemoves(text: string, value: string, token: string)
    requires IsToken(token) && value != "" && NoBrackets(value) && !Occurs(value, token)
    ensures !Occurs(value, Replace(text, value, token))
    decreases |text|
  {
    if text == "" {
    } else if value <= text {
      var tail := Replace(text[|value|..], value, token);
      ReplaceRemoves(text[|value|..], value, token);
      if Occurs(value, token + tail) { AcrossToken(value, token, tail); }
    } else {
      var tail := Replace(text[1..], value, token);
      ReplaceRemoves(text[1..], value, token);
      var s := [text[0]] + tail;
      if Occurs(value, s) {
        var i: nat :| i <= |s| && OccursAt(value, s, i);
        if i == 0 {
          FrontPrefix(value, text, value, token);
        } else {
          assert tail[i - 1..i - 1 + |value|] == s[i..i + |value|];
          assert OccursAt(value, tail, i - 1);
        }
      }
    }
  }

  /** Replacing the token by the value undoes the replacement of the value by the token. */
  lemma {:induction false} ReplaceUndone(text: string, value: string, token: string)
    requires IsToken(token) && !Occurs(token, text)
    ensures Replace(Replace(text, value, token), token, value) == text
    decreases |text|
  {
    var r := Replace(text, value, token);
    if value == "" && text == "" {
      assert token <= r && r[|token|..] == "";
    } else if value == "" {
      var tail := [text[0]] + Replace(text[1..], "", token);
      assert r == token + tail && token <= r && r[|token|..] == tail;
      KeptFrontUndone(text, "", token);
    } else if text == "" {
    } else if value <= text {
      var rest := text[|value|..];
      var tail := Replace(rest, value, token);
      if Occurs(token, rest) { OccursInTail(token, text, |value|); }
      ReplaceUndone(rest, value, token);
      assert token <= r && r[|token|..] == tail && text == value + rest;
    } else {
      KeptFrontUndone(text, value, token);
    }
  }

  lemma {:induction false} KeptFrontUndone(text: string, value: string, token: string)
    requires IsToken(token) && !Occurs(token, text) && text != ""
    ensures Replace([text[0]] + Replace(text[1..], value, token), token, value) == text
    decreases |text|, 0
  {
    var tail := Replace(text[1..], value, token);
    var s := [text[0]] + tail;
    if Occurs(token, text[1..]) { OccursInTail(token, text, 1); }
    if token <= s {
      FrontPrefix(token, text, value, token);
      assert OccursAt(token, text, 0);
    }
    ReplaceUndone(text[1..], value, token);
    assert s[1..] == tail && text == [text[0]] + text[1..];
  }

  // ----------------------------------------------------------------- redact()

  datatype Span = Span(rung: string, masked: Masked)

  predicate MaskRung(rung: string) { rung == "L1" || rung == "L2" || rung == "L3" }

  function MaskedValues(spans: seq<Span>): set<Masked> {
    set i | 0 <= i < |spans| && MaskRung(spans[i].rung) :: spans[i].masked
  }

  /** An order sorted(..., key=len, reverse=True) may produce: the set has no order of its own,
      so ties may come out either way. */
  ghost predicate LongestFirst(order: seq<Masked>, values: set<Masked>) {
    && (forall m :: m in order <==> m in values)
    && (forall i, j :: 0 <= i < j < |order| ==> order[i] != order[j] && |order[i].value| >= |order[j].value|)
  }

  function ReplaceAll(text: string, order: seq<Masked>, digest: string -> string): string
    decreases |order|
  {
    if order == [] then text
    else ReplaceAll(Replace(text, order[0].value, Tokenise(order[0], digest)), order[1..], digest)
  }

  /** Substituting the values back, last token first. */
  function Restore(text: string, order: seq<Masked>, digest: string -> string): string
    decreases |order|
  {
    if order == [] then text
    else
      var last := order[|order| - 1];
      Restore(Replace(text, Tokenise(last, digest), last.value), order[..|order| - 1], digest)
  }

  /** Tokens have the token shape. */
  ghost predicate WellShaped(order: seq<Masked>, digest: string -> string) {
    forall m :: m in order ==> IsToken(Tokenise(m, digest))
  }

  /** No value carries a bracket or occurs inside one of the tokens. */
  ghost predicate Maskable(order: seq<Masked>, digest: string -> string) {
    && (forall m :: m in order ==> NoBrackets(m.value))
    && (forall m, n :: m in order && n in order && m.value != "" ==> !Occurs(m.value, Tokenise(n, digest)))
  }

  lemma {:induction false} AbsentStaysAbsent(sub: string, text: string, order: seq<Masked>, digest: string -> string)
    requires WellShaped(order, digest) && sub != "" && !Occurs(sub, text)
    requires NoBrackets(sub) || IsToken(sub)
    requires forall m :: m in order ==> !Occurs(sub, Tokenise(m, digest))
    ensures !Occurs(sub, ReplaceAll(text, order, digest))
    decreases |order|
  {
    if order != [] {
      var m, token := order[0], Tokenise(order[0], digest);
      assert m in order;
      if sub == token { assert OccursAt(sub, token, 0); }
      if Occurs(sub, Replace(text, m.value, token)) { ReplaceCreatesNothing(sub, text, m.value, token); }
      AbsentStaysAbsent(sub, Replace(text, m.value, token), order[1..], digest);
    }
  }

  /** Whatever the order of the values, none of the non-empty ones is left in the text. */
  lemma {:induction false} NoMaskedValueLeft(text: string, order: seq<Masked>, digest: string -> string, m: Masked)
    requires WellShaped(order, digest) && Maskable(order, digest) && m in order && m.value != ""
    ensures !Occurs(m.value, ReplaceAll(text, order, digest))
    decreases |order|
  {
    var first, token := order[0], Tokenise(order[0], digest);
    assert first in order;
    var text' := Replace(text, first.value, token);
    if first.value == m.value {
      ReplaceRemoves(text, m.value, token);
      AbsentStaysAbsent(m.value, text', order[1..], digest);
    } else {
      NoMaskedValueLeft(text', order[1..], digest, m);
    }
  }

  /** The exact condition: a masked value is gone afterwards unless it is the empty string. */
  lemma MaskedValueGoneIffNonEmpty(text: string, order: seq<Masked>, digest: string -> string, m: Masked)
    requires WellShaped(order, digest) && Maskable(order, digest) && m in order
    ensures !Occurs(m.value, ReplaceAll(text, order, digest)) <==> m.value != ""
  {
    if m.value == "" {
      assert OccursAt(m.value, ReplaceAll(text, order, digest), 0);
    } else {
      NoMaskedValueLeft(text, order, digest, m);
    }
  }

  /** No span that is masked carries a bracket in its value or stands, unless it is empty, inside
      the token of one, and their tokens have the token shape. */
  ghost predicate SafelyMasked(spans: seq<Span>, digest: string -> string) {
    && (forall i :: 0 <= i < |spans| && spans[i].rung in {"L1", "L2", "L3"} ==>
          NoBrackets(spans[i].masked.value) && IsToken(Tokenise(spans[i].masked, digest)))
    && (forall i :: 0 <= i < |spans| && spans[i].rung in {"L1", "L2", "L3"} && spans[i].masked.value != "" ==>
          forall j :: 0 <= j < |spans| && spans[j].rung in {"L1", "L2", "L3"} ==>
            !Occurs(spans[i].masked.value, Tokenise(spans[j].masked, digest)))
  }

  lemma MaskedOfSpan(spans: seq<Span>, m: Masked)
    ensures m in MaskedValues(spans) <==>
            exists i :: 0 <= i < |spans| && spans[i].rung in {"L1", "L2", "L3"} && spans[i].masked == m
  {
  }

  lemma OrderSafe(spans: seq<Span>, order: seq<Masked>, digest: string -> string)
    requires SafelyMasked(spans, digest) && forall m :: m in order ==> m in MaskedValues(spans)
    ensures WellShaped(order, digest) && Maskable(order, digest)
  {
    forall m | m in order
      ensures exists i :: 0 <= i < |spans| && spans[i].rung in {"L1", "L2", "L3"} && spans[i].masked == m
    {
      MaskedOfSpan(spans, m);
    }
  }

  method Redact(content: string, spans: seq<Span>, order: seq<Masked>, digest: string -> string) returns (text: string)
    requires LongestFirst(order, MaskedValues(spans))
    ensures text == ReplaceAll(content, order, digest)
    ensures (forall i :: 0 <= i < |spans| ==> spans[i].rung !in {"L1", "L2", "L3"}) ==> text == content
    ensures forall m :: m in order <==>
            exists i :: 0 <= i < |spans| && spans[i].rung in {"L1", "L2", "L3"} && spans[i].masked == m
    ensures SafelyMasked(spans, digest) ==>
              forall i :: 0 <= i < |spans| && spans[i].rung in {"L1", "L2", "L3"} && spans[i].masked.value != "" ==>
                !Occurs(spans[i].masked.value, text)
  {
    text := content;
    forall m ensures m in order <==>
                       exists i :: 0 <= i < |spans| && spans[i].rung in {"L1", "L2", "L3"} && spans[i].masked == m
    {
      MaskedOfSpan(spans, m);
    }
    for i := 0 to |order|
      invariant ReplaceAll(text, order[i..], digest) == ReplaceAll(content, order, digest)
      invariant i == 0 ==> text == content
    {
      assert order[i..][1..] == order[i + 1..];
      text := Replace(text, order[i].value, Tokenise(order[i], digest));
    }
    assert order != [] ==> order[0] in order;
    if SafelyMasked(spans, digest) {
      OrderSafe(spans, order, digest);
      forall i | 0 <= i < |spans| && spans[i].rung in {"L1", "L2", "L3"} && spans[i].masked.value != ""
        ensures !Occurs(spans[i].masked.value, text)
      {
        NoMaskedValueLeft(content, order, digest, spans[i].masked);
      }
    }
  }

  ghost predicate TokensApart(order: seq<Masked>, digest: string -> string) {
    forall i, j :: 0 <= i < j < |order| ==> Tokenise(order[i], digest) != Tokenise(order[j], digest)
  }

  /** A token can only occur inside another by being it. */
  lemma TokenInsideToken(t: string, u: string)
    requires IsToken(t) && IsToken(u) && Occurs(t, u)
    ensures t == u
  {
    var i: nat :| i <= |u| && OccursAt(t, u, i);
    assert u[i] == u[i..i + |t|][0] == '<';
    assert u[i + |t| - 1] == u[i..i + |t|][|t| - 1] == '>';
    assert u[0..|u|] == u;
  }

  lemma ReplaceAllLast(text: string, order: seq<Masked>, digest: string -> string)
    requires order != []
    ensures ReplaceAll(text, order, digest) ==
            Replace(ReplaceAll(text, order[..|order| - 1], digest), order[|order| - 1].value,
                Tokenise(order[|order| - 1], digest))
    decreases |order|
  {
    var last := |order| - 1;
    if last > 0 {
      var text' := Replace(text, order[0].value, Tokenise(order[0], digest));
      ReplaceAllLast(text', order[1..], digest);
      assert order[1..][..last - 1] == order[..last][1..];
    }
  }

  /** Substituting tokens back in reverse order restores the original exactly, when the tokens
      differ from one another and none occurs in the original. */
  lemma {:induction false} RedactionRestores(text: string, order: seq<Masked>, digest: string -> string)
    requires WellShaped(order, digest) && TokensApart(order, digest)
    requires forall m :: m in order ==> !Occurs(Tokenise(m, digest), text)
    ensures Restore(ReplaceAll(text, order, digest), order, digest) == text
    decreases |order|
  {
    if order != [] {
      var front, last := order[..|order| - 1], order[|order| - 1];
      var token := Tokenise(last, digest);
      ReplaceAllLast(text, order, digest);
      forall m | m in front ensures !Occurs(token, Tokenise(m, digest)) {
        var i :| 0 <= i < |front| && front[i] == m;
        assert order[i] == m;
        if Occurs(token, Tokenise(m, digest)) { TokenInsideToken(token, Tokenise(m, digest)); }
      }
      AbsentStaysAbsent(token, text, front, digest);
      ReplaceUndone(ReplaceAll(text, front, digest), last.value, token);
      RedactionRestores(text, front, digest);
    }
  }
}
