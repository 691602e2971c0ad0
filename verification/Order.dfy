/**
 The lexicographic order the program's sorted() calls use on identifiers, and the
 sorted listing of a finite set of them.
 */
module Order {

  /** a < b, comparing strings code point by code point. */
  predicate Less(a: string, b: string) {
    if b == [] then false
    else if a == [] then true
    else a[0] < b[0] || (a[0] == b[0] && Less(a[1..], b[1..]))
  }

  /** a stops before b, or is the smaller one where they first differ. */
  ghost predicate DecidedAt(a: string, b: string, k: int) {
    0 <= k <= |a| && k < |b| && a[..k] == b[..k] && (k == |a| || a[k] < b[k])
  }

  lemma HeadsAgree(a: string, b: string)
    ensures forall k :: DecidedAt(a, b, k) && k > 0 ==> a != [] && b != [] && a[0] == b[0]
  {
    forall k | DecidedAt(a, b, k) && k > 0 ensures a != [] && b != [] && a[0] == b[0] {
      assert a[..k][0] == b[..k][0];
    }
  }

  /** The order is that of the dictionary. */
  lemma {:induction false} LessIffDecided(a: string, b: string)
    ensures Less(a, b) <==> exists k :: DecidedAt(a, b, k)
  {
    HeadsAgree(a, b);
    if a == [] || b == [] || a[0] != b[0] {
      if Less(a, b) { assert DecidedAt(a, b, 0); }
    } else {
      LessIffDecided(a[1..], b[1..]);
      if k :| DecidedAt(a[1..], b[1..], k) {
        assert a[..k + 1] == [a[0]] + a[1..][..k] && b[..k + 1] == [b[0]] + b[1..][..k];
        assert DecidedAt(a, b, k + 1);
      }
      if k :| DecidedAt(a, b, k) {
        assert k > 0 && a[1..][..k - 1] == a[..k][1..] && b[1..][..k - 1] == b[..k][1..];
        assert DecidedAt(a[1..], b[1..], k - 1);
      }
    }
  }

  lemma LessIrreflexive(a: string)
    ensures !Less(a, a)
  {
  }

  lemma LessTransitive(a: string, b: string, c: string)
    requires Less(a, b) && Less(b, c)
    ensures Less(a, c)
  {
  }

  lemma {:induction false} LessTotal(a: string, b: string)
    ensures Less(a, b) || a == b || Less(b, a)
  {
    if a != [] && b != [] && a[0] == b[0] {
      LessTotal(a[1..], b[1..]);
      assert a == [a[0]] + a[1..] && b == [b[0]] + b[1..];
    }
  }

  lemma LessAsymmetric(a: string, b: string)
    requires Less(a, b)
    ensures !Less(b, a) && a != b
  {
    LessIrreflexive(a);
    if Less(b, a) { LessTransitive(a, b, a); }
  }

  ghost predicate StrictlySorted(xs: seq<string>) {
    forall i, j :: 0 <= i < j < |xs| ==> Less(xs[i], xs[j])
  }

  predicate IsLeast(x: string, s: set<string>) {
    x in s && forall y :: y in s && y != x ==> Less(x, y)
  }

  lemma LeastExists(s: set<string>)
    requires s != {}
    ensures exists x :: IsLeast(x, s)
  {
    var y :| y in s;
    var rest := s - {y};
    if rest == {} {
      assert s == {y};
      assert IsLeast(y, s);
    } else {
      LeastExists(rest);
      var x :| IsLeast(x, rest);
      LessTotal(x, y);
      if Less(x, y) {
        assert IsLeast(x, s);
      } else {
        forall z | z in s && z != y ensures Less(y, z) {
          if z != x { LessTransitive(y, x, z); }
        }
        assert IsLeast(y, s);
      }
    }
  }

  lemma LeastUnique(x: string, y: string, s: set<string>)
    requires IsLeast(x, s) && IsLeast(y, s)
    ensures x == y
  {
    if x != y { LessAsymmetric(x, y); }
  }

  function Least(s: set<string>): (x: string)
    requires s != {}
    ensures IsLeast(x, s)
  {
    LeastExists(s);
    assert forall a, b :: IsLeast(a, s) && IsLeast(b, s) ==> a == b by {
      forall a, b | IsLeast(a, s) && IsLeast(b, s) ensures a == b { LeastUnique(a, b, s); }
    }
    var x :| x in s && IsLeast(x, s);
    x
  }

  function SortedOf(s: set<string>): (xs: seq<string>)
    ensures StrictlySorted(xs)
    ensures forall x :: x in xs <==> x in s
    ensures |xs| == |s|
  {
    if s == {} then []
    else var x := Least(s); [x] + SortedOf(s - {x})
  }

  /** A strictly sorted listing is determined by its elements. */
  lemma {:induction false} SortedUnique(a: seq<string>, b: seq<string>)
    requires StrictlySorted(a) && StrictlySorted(b)
    requires forall x :: x in a <==> x in b
    ensures a == b
  {
    assert (|a| > 0 ==> a[0] in a) && (|b| > 0 ==> b[0] in b);
    if a != [] && b != [] {
      assert a[0] in b && b[0] in a;
      if a[0] != b[0] {
        assert Less(b[0], a[0]) && Less(a[0], b[0]);
        LessAsymmetric(a[0], b[0]);
      }
      forall x ensures x in a[1..] <==> x in b[1..] {
        LessIrreflexive(a[0]);
        assert x in a <==> x == a[0] || x in a[1..];
        assert x in b <==> x == b[0] || x in b[1..];
      }
      SortedUnique(a[1..], b[1..]);
    }
  }

  // ------------------------------------------------------- sorted() on a list

  function Insert(x: string, xs: seq<string>): seq<string> {
    if xs == [] || !Less(xs[0], x) then [x] + xs else [xs[0]] + Insert(x, xs[1..])
  }

  function Sort(xs: seq<string>): seq<string> {
    if xs == [] then [] else Insert(xs[0], Sort(xs[1..]))
  }

  ghost predicate Ascending(xs: seq<string>) {
    forall i, j :: 0 <= i < j < |xs| ==> !Less(xs[j], xs[i])
  }

  lemma {:induction false} InsertKeeps(x: string, xs: seq<string>)
    requires Ascending(xs)
    ensures multiset(Insert(x, xs)) == multiset(xs) + multiset{x}
    ensures Ascending(Insert(x, xs))
  {
    if xs != [] && Less(xs[0], x) {
      InsertKeeps(x, xs[1..]);
      assert xs == [xs[0]] + xs[1..];
      forall y | y in Insert(x, xs[1..]) ensures !Less(y, xs[0]) { AfterFirst(x, xs, y); }
      PutLeast(xs[0], Insert(x, xs[1..]));
    } else if xs != [] {
      forall y | y in xs ensures !Less(y, x) { NoneBefore(x, xs, y); }
      PutLeast(x, xs);
    }
  }

  lemma PutLeast(x: string, xs: seq<string>)
    requires Ascending(xs) && forall y :: y in xs ==> !Less(y, x)
    ensures Ascending([x] + xs)
  {
    var all := [x] + xs;
    assert all[0] == x && forall j :: 0 <= j < |xs| ==> all[j + 1] == xs[j] && xs[j] in xs;
  }

  lemma AfterFirst(x: string, xs: seq<string>, y: string)
    requires xs != [] && Ascending(xs) && Less(xs[0], x) && y in Insert(x, xs[1..])
    requires multiset(Insert(x, xs[1..])) == multiset(xs[1..]) + multiset{x}
    ensures !Less(y, xs[0])
  {
    assert y in multiset(Insert(x, xs[1..]));
    if y == x { LessAsymmetric(xs[0], x); } else { assert y in xs[1..]; }
  }

  lemma NoneBefore(x: string, xs: seq<string>, y: string)
    requires xs != [] && Ascending(xs) && !Less(xs[0], x) && y in xs
    ensures !Less(y, x)
  {
    var j :| 0 <= j < |xs| && xs[j] == y;
    if Less(y, x) {
      LessTotal(xs[0], y);
      if Less(xs[0], y) { LessTransitive(xs[0], y, x); }
    }
  }

  lemma {:induction false} SortSorts(xs: seq<string>)
    ensures multiset(Sort(xs)) == multiset(xs) && Ascending(Sort(xs))
  {
    if xs != [] {
      SortSorts(xs[1..]);
      InsertKeeps(xs[0], Sort(xs[1..]));
      assert xs == [xs[0]] + xs[1..];
    }
  }

  lemma TailMultiset(a: seq<string>)
    requires a != []
    ensures multiset(a[1..]) == multiset(a) - multiset{a[0]}
  {
    assert a == [a[0]] + a[1..];
  }

  lemma SameFirst(a: seq<string>, b: seq<string>)
    requires Ascending(a) && Ascending(b) && multiset(a) == multiset(b) && a != [] && b != []
    ensures a[0] == b[0]
  {
    assert a[0] in multiset(b) && b[0] in multiset(a);
    assert a[0] in b && b[0] in a;
    LessTotal(a[0], b[0]);
  }

  lemma {:induction false} AscendingUnique(a: seq<string>, b: seq<string>)
    requires Ascending(a) && Ascending(b) && multiset(a) == multiset(b)
    ensures a == b
  {
    assert |multiset(a)| == |a| && |multiset(b)| == |b|;
    if a != [] {
      SameFirst(a, b);
      TailMultiset(a);
      TailMultiset(b);
      AscendingUnique(a[1..], b[1..]);
      assert a == [a[0]] + a[1..] && b == [b[0]] + b[1..];
    }
  }

  /** Sorting forgets exactly the order of a list. */
  lemma SortForgetsOrder(a: seq<string>, b: seq<string>)
    ensures Sort(a) == Sort(b) <==> multiset(a) == multiset(b)
  {
    SortSorts(a);
    SortSorts(b);
    if multiset(a) == multiset(b) { AscendingUnique(Sort(a), Sort(b)); }
  }
}
