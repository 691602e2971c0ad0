/**
 Nested documents and the dot-path reads and writes of mapping/interpreter.py.
 A write that would descend through a non-dictionary is a crash (Python raises
 AttributeError or TypeError there), modelled by None.
 */
module Documents {
  import opened Wrappers
  import Text

  datatype Value =
    | Null
    | Str(s: string)
    | Num(n: real)
    | Bool(b: bool)
    | Day(day: int)
    | DateTime(clock: int, zone: Option<string>)
    | List(items: seq<Value>)
    | Obj(fields: map<string, Value>)

  const EMPTY: Value := Obj(map[])

  /** The value up to Python's ==, under which True equals 1 and False equals 0. */
  function Canon(v: Value): Value {
    match v
    case Bool(b) => Num(if b then 1.0 else 0.0)
    case List(items) => List(seq(|items|, i requires 0 <= i < |items| => Canon(items[i])))
    case Obj(fields) => Obj(map k | k in fields :: Canon(fields[k]))
    case _ => v
  }

  type Path = seq<string>

  function Parts(path: string): (p: Path)
    ensures |p| >= 1
  {
    Text.SplitOn(path, ".")
  }

  /** read_path: anything missing, or below a non-dictionary, reads as null. */
  function Read(v: Value, p: Path): Value
    decreases |p|
  {
    if p == [] then v
    else if v.Obj? && p[0] in v.fields then Read(v.fields[p[0]], p[1..])
    else Null
  }

  function ReadAt(v: Value, path: Option<string>): Value {
    match path
    case None => Null
    case Some(s) => Read(v, Parts(s))
  }

  /** write_path: create the missing dictionaries, then set the last key. */
  function Write(v: Value, p: Path, w: Value): Option<Value>
    requires |p| >= 1
    decreases |p|
  {
    if !v.Obj? then None
    else if |p| == 1 then Some(Obj(v.fields[p[0] := w]))
    else
      var child := if p[0] in v.fields then v.fields[p[0]] else EMPTY;
      match Write(child, p[1..], w)
      case None => None
      case Some(child') => Some(Obj(v.fields[p[0] := child']))
  }

  function WriteAt(v: Value, path: Option<string>, w: Value): Option<Value> {
    match path
    case None => Some(v)
    case Some(s) => Write(v, Parts(s), w)
  }

  // --------------------------------------------------- what a write leaves at any path

  /** What stands at a path, if anything does: unlike Read it tells null from missing. */
  function Find(v: Value, p: Path): Option<Value>
    decreases |p|
  {
    if p == [] then Some(v)
    else if v.Obj? && p[0] in v.fields then Find(v.fields[p[0]], p[1..])
    else None
  }

  lemma {:induction false} ReadIsFind(v: Value, p: Path)
    ensures Read(v, p) == Find(v, p).GetOr(Null)
    decreases |p|
  {
    if p != [] && v.Obj? && p[0] in v.fields { ReadIsFind(v.fields[p[0]], p[1..]); }
  }

  /** What q holds once w is written at t: a part of w for a t at or above q, the old value
      with w inside it for a t below q, and what it held before for any other. */
  function Seen(before: Option<Value>, q: Path, t: Path, w: Value): Option<Value> {
    if t <= q then Find(w, q[|t|..])
    else if q <= t then Write(before.GetOr(EMPTY), t[|q|..], w)
    else before
  }

  lemma SeenBelowHead(before: Option<Value>, q: Path, t: Path, w: Value)
    requires |t| >= 1 && |q| >= 1 && t[0] == q[0]
    ensures Seen(before, q, t, w) == Seen(before, q[1..], t[1..], w)
  {
    SameHead(t, q);
  }

  lemma SeenElsewhere(before: Option<Value>, q: Path, t: Path, w: Value)
    requires |t| >= 1 && |q| >= 1 && t[0] != q[0]
    ensures Seen(before, q, t, w) == before
  {
  }

  /** Nothing and an empty dictionary are the same to a write. */
  lemma SeenFromEmpty(q: Path, t: Path, w: Value)
    requires |t| >= 1
    ensures Seen(None, q, t, w) == Seen(Find(EMPTY, q), q, t, w)
  {
    if q == [] { assert q <= t && !(t <= q); }
  }

  /** A write read back at any path whatever. */
  lemma {:induction false} FindAfterWrite(v: Value, t: Path, w: Value, q: Path)
    requires |t| >= 1 && Write(v, t, w).Some?
    ensures Find(Write(v, t, w).value, q) == Seen(Find(v, q), q, t, w)
    decreases |t|
  {
    if q == [] {
      assert !(t <= q) && q <= t && t[|q|..] == t;
    } else if t[0] != q[0] {
      SeenElsewhere(Find(v, q), q, t, w);
    } else {
      SeenBelowHead(Find(v, q), q, t, w);
      if |t| == 1 {
        assert t[1..] == [] && q[1..][0..] == q[1..];
      } else {
        var child := if t[0] in v.fields then v.fields[t[0]] else EMPTY;
        WriteDescends(v, child, t, w);
        FindAfterWrite(child, t[1..], w, q[1..]);
        SeenFromEmpty(q[1..], t[1..], w);
      }
    }
  }

  lemma SameHead(t: Path, q: Path)
    requires |t| >= 1 && |q| >= 1 && t[0] == q[0]
    ensures t <= q <==> t[1..] <= q[1..]
    ensures q <= t <==> q[1..] <= t[1..]
    ensures t <= q ==> q[|t|..] == q[1..][|t| - 1..]
    ensures q <= t ==> t[|q|..] == t[1..][|q| - 1..]
  {
    assert t == [t[0]] + t[1..] && q == [q[0]] + q[1..];
  }

  /** A path is open exactly when nothing but dictionaries stands strictly above it. */
  lemma {:induction false} OpenIffDictionariesAbove(v: Value, p: Path)
    ensures Open(v, p) <==> v.Obj? && forall n :: 1 <= n < |p| ==> Find(v, p[..n]).None? || Find(v, p[..n]).value.Obj?
    decreases |p|
  {
    if v.Obj? && |p| >= 2 && p[0] in v.fields {
      var child := v.fields[p[0]];
      OpenIffDictionariesAbove(child, p[1..]);
      forall n | 1 <= n < |p| ensures Find(v, p[..n]) == Find(child, p[1..][..n - 1]) {
        assert p[..n][1..] == p[1..][..n - 1];
      }
      assert Find(v, p[..1]) == Some(child);
      if forall n :: 1 <= n < |p| ==> Find(v, p[..n]).None? || Find(v, p[..n]).value.Obj? {
        forall n | 1 <= n < |p[1..]| ensures Find(child, p[1..][..n]).None? || Find(child, p[1..][..n]).value.Obj? {
          assert Find(v, p[..n + 1]) == Find(child, p[1..][..n]);
        }
      }
    }
  }

  lemma {:induction false} OpenThrough(v: Value, q: Path, r: Path)
    requires |q| >= 1 && r != [] && Find(v, q).Some?
    ensures Open(v, q + r) <==> Open(v, q) && Open(Find(v, q).value, r)
    decreases |q|
  {
    assert (q + r)[1..] == q[1..] + r;
    if |q| == 1 {
      assert q[1..] + r == r;
    } else {
      OpenThrough(v.fields[q[0]], q[1..], r);
    }
  }

  lemma {:induction false} FoundIsOpen(v: Value, q: Path)
    requires |q| >= 1 && Find(v, q).Some?
    ensures Open(v, q)
    decreases |q|
  {
    if |q| >= 2 { FoundIsOpen(v.fields[q[0]], q[1..]); }
  }

  ghost predicate Incomparable(p: Path, q: Path) {
    !(p <= q) && !(q <= p)
  }

  /** Everything strictly above p is absent or a dictionary. */
  ghost predicate Open(v: Value, p: Path)
    decreases |p|
  {
    v.Obj? && (|p| >= 2 && p[0] in v.fields ==> Open(v.fields[p[0]], p[1..]))
  }

  /** A write crashes exactly when some non-dictionary is in the way. */
  lemma {:induction false} WriteSucceedsIffOpen(v: Value, p: Path, w: Value)
    requires |p| >= 1
    ensures Write(v, p, w).Some? <==> Open(v, p)
    decreases |p|
  {
    if v.Obj? && |p| >= 2 {
      var child := if p[0] in v.fields then v.fields[p[0]] else EMPTY;
      WriteSucceedsIffOpen(child, p[1..], w);
    }
  }

  /** What was written is read back. */
  lemma {:induction false} ReadAfterWrite(v: Value, p: Path, w: Value)
    requires |p| >= 1 && Write(v, p, w).Some?
    ensures Read(Write(v, p, w).value, p) == w
    decreases |p|
  {
    if |p| >= 2 {
      ReadAfterWrite(if p[0] in v.fields then v.fields[p[0]] else EMPTY, p[1..], w);
    }
  }

  /** A written path can be written again, and only the later value stays. */
  lemma {:induction false} WriteTwice(v: Value, p: Path, w: Value, w': Value)
    requires |p| >= 1 && Write(v, p, w).Some?
    ensures Write(Write(v, p, w).value, p, w') == Write(v, p, w')
    decreases |p|
  {
    if |p| == 1 {
      UpdateTwice(v.fields, p[0], w, w');
    } else {
      var child := if p[0] in v.fields then v.fields[p[0]] else EMPTY;
      WriteTwice(child, p[1..], w, w');
      WriteSucceedsIffOpen(child, p[1..], w);
      WriteSucceedsIffOpen(child, p[1..], w');
      UpdateTwice(v.fields, p[0], Write(child, p[1..], w).value, Write(child, p[1..], w').value);
    }
  }

  /** A write changes nothing at a path that is neither above nor below it. */
  lemma {:induction false} WriteFrame(v: Value, p: Path, w: Value, q: Path)
    requires |p| >= 1 && Write(v, p, w).Some? && Incomparable(p, q)
    ensures Read(Write(v, p, w).value, q) == Read(v, q)
    ensures Open(Write(v, p, w).value, q) == Open(v, q)
    decreases |p|
  {
    assert [] <= p && |q| >= 1;
    if p[0] == q[0] {
      IncomparableTails(p, q);
      WriteFrame(if p[0] in v.fields then v.fields[p[0]] else EMPTY, p[1..], w, q[1..]);
    }
  }

  /** A write only looks at, and only replaces, what sits under its first key. */
  lemma WriteUnderHead(v: Value, u: Value, p: Path, x: Value)
    requires |p| >= 1 && Write(v, p, x).Some? && v.Obj? && u.Obj?
    requires p[0] in v.fields <==> p[0] in u.fields
    requires p[0] in v.fields ==> v.fields[p[0]] == u.fields[p[0]]
    ensures p[0] in Write(v, p, x).value.fields
    ensures Write(u, p, x) == Some(Obj(u.fields[p[0] := Write(v, p, x).value.fields[p[0]]]))
  {
  }

  /** Writes at unrelated paths commute. */
  lemma {:induction false} WritesCommute(v: Value, p: Path, x: Value, q: Path, y: Value)
    requires |p| >= 1 && |q| >= 1 && Incomparable(p, q)
    requires Write(v, p, x).Some? && Write(v, q, y).Some?
    ensures Write(Write(v, p, x).value, q, y).Some?
    ensures Write(Write(v, p, x).value, q, y) == Write(Write(v, q, y).value, p, x)
    decreases |p|
  {
    if p[0] == q[0] {
      IncomparableTails(p, q);
      var child := if p[0] in v.fields then v.fields[p[0]] else EMPTY;
      WritesCommute(child, p[1..], x, q[1..], y);
      var a, b := Write(child, p[1..], x).value, Write(child, q[1..], y).value;
      WriteDescends(v, child, p, x);
      WriteDescends(v, child, q, y);
      WriteDescends(Obj(v.fields[p[0] := a]), a, q, y);
      WriteDescends(Obj(v.fields[p[0] := b]), b, p, x);
      UpdateTwice(v.fields, p[0], a, Write(a, q[1..], y).value);
      UpdateTwice(v.fields, p[0], b, Write(a, q[1..], y).value);
    } else {
      WritesCommuteApart(v, p, x, q, y);
    }
  }

  lemma IncomparableTails(p: Path, q: Path)
    requires |p| >= 1 && |q| >= 1 && Incomparable(p, q) && p[0] == q[0]
    ensures |p| >= 2 && |q| >= 2 && Incomparable(p[1..], q[1..])
  {
    assert p == [p[0]] + p[1..] && q == [q[0]] + q[1..];
  }

  lemma WriteDescends(v: Value, child: Value, p: Path, w: Value)
    requires |p| >= 2 && v.Obj? && Write(child, p[1..], w).Some?
    requires child == if p[0] in v.fields then v.fields[p[0]] else EMPTY
    ensures Write(v, p, w) == Some(Obj(v.fields[p[0] := Write(child, p[1..], w).value]))
  {
  }

  lemma UpdateTwice(m: map<string, Value>, k: string, x: Value, y: Value)
    ensures m[k := x][k := y] == m[k := y]
  {
  }

  lemma WritesCommuteApart(v: Value, p: Path, x: Value, q: Path, y: Value)
    requires |p| >= 1 && |q| >= 1 && p[0] != q[0]
    requires Write(v, p, x).Some? && Write(v, q, y).Some?
    ensures Write(Write(v, p, x).value, q, y).Some?
    ensures Write(Write(v, p, x).value, q, y) == Write(Write(v, q, y).value, p, x)
  {
    var vp, vq := Write(v, p, x).value, Write(v, q, y).value;
    WriteUnderHead(v, v, p, x);
    WriteUnderHead(v, v, q, y);
    WriteUnderHead(v, vp, q, y);
    WriteUnderHead(v, vq, p, x);
    UpdatesCommute(v.fields, p[0], vp.fields[p[0]], q[0], vq.fields[q[0]]);
  }

  lemma UpdatesCommute(m: map<string, Value>, k: string, x: Value, l: string, y: Value)
    requires k != l
    ensures m[k := x][l := y] == m[l := y][k := x]
  {
  }
}
