/** str.split, str.join, str(int) and substring search, as the program uses them. */
module Text {

  /** What str.split() and str.strip() take for white space. */
  predicate IsSpace(c: char) {
    || c == ' ' || '\t' <= c <= '\r' || '\U{1c}' <= c <= '\U{1f}' || c == '\U{85}' || c == '\U{a0}'
    || c == '\U{1680}' || '\U{2000}' <= c <= '\U{200a}' || c == '\U{2028}' || c == '\U{2029}'
    || c == '\U{202f}' || c == '\U{205f}' || c == '\U{3000}'
  }

  /** sub occurs in s, starting at index i. */
  predicate OccursAt(sub: string, s: string, i: nat) {
    i + |sub| <= |s| && s[i..i + |sub|] == sub
  }

  predicate Occurs(sub: string, s: string) {
    exists i: nat :: i <= |s| && OccursAt(sub, s, i)
  }

  function Digit(d: nat): char
    requires d < 10
  {
    (d + '0' as int) as char
  }

  /** str(n) */
  function Digits(n: nat): string {
    if n < 10 then [Digit(n)] else Digits(n / 10) + [Digit(n % 10)]
  }

  function Join(parts: seq<string>, sep: string): string {
    if |parts| == 0 then ""
    else if |parts| == 1 then parts[0]
    else parts[0] + sep + Join(parts[1..], sep)
  }

  /** s.split(sep): cut at every leftmost, non-overlapping occurrence of sep. */
  function SplitOn(s: string, sep: string): (parts: seq<string>)
    requires |sep| > 0
    ensures |parts| >= 1
    decreases |s|
  {
    if s == [] then [""]
    else if sep <= s then [""] + SplitOn(s[|sep|..], sep)
    else var rest := SplitOn(s[1..], sep); [[s[0]] + rest[0]] + rest[1..]
  }

  lemma JoinPrefix(x: string, parts: seq<string>, sep: string)
    requires |parts| >= 1
    ensures Join([x + parts[0]] + parts[1..], sep) == x + Join(parts, sep)
  {
    var longer := [x + parts[0]] + parts[1..];
    if |parts| > 1 {
      assert longer[1..] == parts[1..];
    }
  }

  /** Joining the pieces of a split restores the text. */
  lemma {:induction false} JoinSplit(s: string, sep: string)
    requires |sep| > 0
    ensures Join(SplitOn(s, sep), sep) == s
    decreases |s|
  {
    if s == [] {
    } else if sep <= s {
      var rest := SplitOn(s[|sep|..], sep);
      JoinSplit(s[|sep|..], sep);
      assert ([""] + rest)[1..] == rest;
      assert "" + sep + Join(rest, sep) == sep + s[|sep|..] == s;
    } else {
      JoinSplit(s[1..], sep);
      var rest := SplitOn(s[1..], sep);
      JoinPrefix([s[0]], rest, sep);
    }
  }

  // ------------------------------------------------------- when split undoes join

  /** sep starts nowhere in p, even running on into the sep that follows p. */
  predicate KeptApart(p: string, sep: string) {
    forall k :: 0 <= k < |p| ==> !OccursAt(sep, p + sep, k)
  }

  /** Every part but the last is kept apart from the separator after it, and the last is
      free of the separator. */
  predicate Separated(parts: seq<string>, sep: string) {
    && parts != []
    && (forall i :: 0 <= i < |parts| - 1 ==> KeptApart(parts[i], sep))
    && !Occurs(sep, parts[|parts| - 1])
  }

  lemma OccursBehind(sub: string, c: char, s: string)
    ensures Occurs(sub, [c] + s) <==> sub <= [c] + s || Occurs(sub, s)
  {
    var t := [c] + s;
    if sub <= t { assert OccursAt(sub, t, 0); }
    if Occurs(sub, s) {
      var i: nat :| i <= |s| && OccursAt(sub, s, i);
      assert OccursAt(sub, t, i + 1) by { assert t[i + 1..i + 1 + |sub|] == s[i..i + |sub|]; }
    }
    if Occurs(sub, t) && !(sub <= t) {
      var i: nat :| i <= |t| && OccursAt(sub, t, i);
      assert s[i - 1..i - 1 + |sub|] == t[i..i + |sub|];
      assert OccursAt(sub, s, i - 1);
    }
  }

  /** A longer first part is kept apart when its tail is and sep does not start at its head. */
  lemma KeptApartBehind(c: char, p: string, sep: string)
    ensures KeptApart([c] + p, sep) <==> !(sep <= [c] + p + sep) && KeptApart(p, sep)
  {
    var t := [c] + p + sep;
    assert OccursAt(sep, t, 0) <==> sep <= t;
    forall k | 0 <= k < |p| ensures OccursAt(sep, t, k + 1) <==> OccursAt(sep, p + sep, k) {
      assert t[k + 1..k + 1 + |sep|] == (p + sep)[k..k + |sep|];
    }
    assert [c] + p + sep == ([c] + p) + sep;
    if !(sep <= t) && KeptApart(p, sep) {
      forall k | 0 <= k < |[c] + p| ensures !OccursAt(sep, t, k) {
        if k > 0 { assert !OccursAt(sep, p + sep, k - 1); }
      }
    }
  }

  /** The pieces of any split are separated. */
  lemma {:induction false} PiecesSeparated(s: string, sep: string)
    requires |sep| > 0
    ensures Separated(SplitOn(s, sep), sep)
    decreases |s|
  {
    if s == [] {
    } else if sep <= s {
      PiecesSeparated(s[|sep|..], sep);
      PutEmptyFirst(SplitOn(s[|sep|..], sep), sep);
    } else {
      PiecesSeparated(s[1..], sep);
      JoinSplit(s[1..], sep);
      assert s == [s[0]] + s[1..];
      LengthenFirst(s[0], SplitOn(s[1..], sep), sep);
    }
  }

  lemma PutEmptyFirst(parts: seq<string>, sep: string)
    requires Separated(parts, sep)
    ensures Separated([""] + parts, sep)
  {
    var all := [""] + parts;
    assert all[|all| - 1] == parts[|parts| - 1];
    forall i | 0 <= i < |all| - 1 ensures KeptApart(all[i], sep) {
      if i > 0 { assert all[i] == parts[i - 1]; }
    }
  }

  lemma LengthenFirst(c: char, parts: seq<string>, sep: string)
    requires Separated(parts, sep) && !(sep <= [c] + Join(parts, sep))
    ensures Separated([[c] + parts[0]] + parts[1..], sep)
  {
    var all := [[c] + parts[0]] + parts[1..];
    if |parts| == 1 {
      OccursBehind(sep, c, parts[0]);
    } else {
      assert all[|all| - 1] == parts[|parts| - 1];
      assert [c] + Join(parts, sep) == ([c] + parts[0] + sep) + Join(parts[1..], sep);
      KeptApartBehind(c, parts[0], sep);
      assert forall i :: 0 < i < |all| ==> all[i] == parts[i];
    }
  }

  /** Splitting runs over a part that is kept apart, up to the separator behind it. */
  lemma {:induction false} SplitPastPart(p: string, sep: string, s: string)
    requires |sep| > 0 && KeptApart(p, sep)
    ensures SplitOn(p + sep + s, sep) == [p] + SplitOn(s, sep)
    decreases |p|
  {
    var t := p + sep + s;
    if p == "" {
      assert t == sep + s;
      assert t[|sep|..] == s;
    } else {
      assert p == [p[0]] + p[1..];
      KeptApartBehind(p[0], p[1..], sep);
      assert t[1..] == p[1..] + sep + s && t[0] == p[0];
      assert t[..|p + sep|] == p + sep;
      SplitPastPart(p[1..], sep, s);
      var rest := [p[1..]] + SplitOn(s, sep);
      assert rest[1..] == SplitOn(s, sep);
    }
  }

  lemma {:induction false} SplitFree(s: string, sep: string)
    requires |sep| > 0 && !Occurs(sep, s)
    ensures SplitOn(s, sep) == [s]
    decreases |s|
  {
    if s != "" {
      assert s == [s[0]] + s[1..];
      OccursBehind(sep, s[0], s[1..]);
      SplitFree(s[1..], sep);
    }
  }

  lemma {:induction false} SplitSeparated(parts: seq<string>, sep: string)
    requires |sep| > 0 && Separated(parts, sep)
    ensures SplitOn(Join(parts, sep), sep) == parts
    decreases |parts|
  {
    if |parts| == 1 {
      SplitFree(parts[0], sep);
    } else {
      SplitSeparated(parts[1..], sep);
      SplitPastPart(parts[0], sep, Join(parts[1..], sep));
      assert parts == [parts[0]] + parts[1..];
    }
  }

  /** Split undoes join exactly on separated parts: for one character that means a non-empty
      list of parts free of it, for a longer separator it also rules out a part whose end
      runs on into the separator. */
  lemma SplitUndoesJoin(parts: seq<string>, sep: string)
    requires |sep| > 0
    ensures SplitOn(Join(parts, sep), sep) == parts <==> Separated(parts, sep)
  {
    PiecesSeparated(Join(parts, sep), sep);
    if Separated(parts, sep) { SplitSeparated(parts, sep); }
  }

  /** For a one-character separator, separated parts are those free of the character. */
  lemma SeparatedByOne(parts: seq<string>, c: char)
    ensures Separated(parts, [c]) <==> parts != [] && forall i :: 0 <= i < |parts| ==> c !in parts[i]
  {
    forall i | 0 <= i < |parts| ensures KeptApart(parts[i], [c]) <==> c !in parts[i] { FreeOfOne(parts[i], c); }
    forall i | 0 <= i < |parts| ensures Occurs([c], parts[i]) <==> c in parts[i] { FreeOfOne(parts[i], c); }
  }

  lemma FreeOfOne(p: string, c: char)
    ensures KeptApart(p, [c]) <==> c !in p
    ensures Occurs([c], p) <==> c in p
  {
    forall k | 0 <= k < |p| ensures OccursAt([c], p + [c], k) <==> p[k] == c {
      assert (p + [c])[k..k + 1] == [p[k]];
    }
    forall k: nat | k < |p| ensures OccursAt([c], p, k) <==> p[k] == c {
      assert p[k..k + 1] == [p[k]];
    }
  }
}
