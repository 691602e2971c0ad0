/**
 Documents as the program holds them: every dictionary has an identity, what a transform hands
 on is the dictionary itself, and an assignment to a dictionary shows wherever it stands.
 */
module Objects {
  import opened Wrappers
  import opened Documents

  /** Where a dictionary comes from: the instance, the start of a run, a path a step had to
      open, or a value a step's chain made. */
  datatype Source = Given | Root | Created(step: nat) | Made(step: nat)

  /** The dictionary that source had, or put, at that path. */
  datatype Id = Id(run: nat, source: Source, path: Path)

  type Atom = v: Value | !v.Obj? witness Null

  datatype Object = Leaf(value: Atom) | Dict(id: Id, fields: map<string, Object>)

  /** The value an object shows. */
  function Erase(o: Object): Value {
    match o
    case Leaf(v) => v
    case Dict(_, fields) => Obj(map k | k in fields :: Erase(fields[k]))
  }

  /** A value whose dictionaries are all new. */
  function Mark(v: Value, run: nat, source: Source, at: Path): Object {
    match v
    case Obj(fields) => Dict(Id(run, source, at), map k | k in fields :: Mark(fields[k], run, source, at + [k]))
    case _ => Leaf(v)
  }

  function At(o: Object, p: Path): Option<Object>
    decreases |p|
  {
    if p == [] then Some(o)
    else if o.Dict? && p[0] in o.fields then At(o.fields[p[0]], p[1..])
    else None
  }

  /** read_path: anything missing, or below a non-dictionary, reads as null. */
  function ReadObject(o: Object, path: Option<string>): Object {
    if path.None? then Leaf(Null) else At(o, Parts(path.value)).GetOr(Leaf(Null))
  }

  method ReadPath(instance: Object, path: Option<string>) returns (current: Object)
    ensures current == ReadObject(instance, path) && Erase(current) == ReadAt(Erase(instance), path)
  {
    ReadErases(instance, path);
    if path.None? { return Leaf(Null); }
    var parts := Parts(path.value);
    current := instance;
    for i := 0 to |parts|
      invariant At(current, parts[i..]) == At(instance, parts)
    {
      if !current.Dict? || parts[i] !in current.fields { return Leaf(Null); }
      current := current.fields[parts[i]];
      assert parts[i..][1..] == parts[i + 1..];
    }
  }

  lemma {:induction false} EraseAt(o: Object, p: Path)
    ensures At(o, p).Some? ==> Find(Erase(o), p) == Some(Erase(At(o, p).value))
    ensures At(o, p).None? ==> Find(Erase(o), p).None?
    decreases |p|
  {
    if p != [] && o.Dict? && p[0] in o.fields { EraseAt(o.fields[p[0]], p[1..]); }
  }

  lemma ReadErases(o: Object, path: Option<string>)
    ensures Erase(ReadObject(o, path)) == ReadAt(Erase(o), path)
  {
    if path.Some? {
      EraseAt(o, Parts(path.value));
      ReadIsFind(Erase(o), Parts(path.value));
    }
  }

  lemma EraseMark(v: Value, run: nat, source: Source, at: Path)
    ensures Erase(Mark(v, run, source, at)) == v
  {
    match v
    case Obj(fields) =>
      forall k | k in fields ensures Erase(Mark(fields[k], run, source, at + [k])) == fields[k] {
        EraseMark(fields[k], run, source, at + [k]);
      }
      assert (map k | k in fields :: Erase(Mark(fields[k], run, source, at + [k]))) == fields;
    case _ =>
  }

  lemma {:induction false} MarkAt(v: Value, run: nat, source: Source, at: Path, p: Path)
    ensures var o := At(Mark(v, run, source, at), p);
            if Find(v, p).Some? then o == Some(Mark(Find(v, p).value, run, source, at + p)) else o.None?
    decreases |p|
  {
    if p == [] {
      assert at + p == at;
    } else if v.Obj? && p[0] in v.fields {
      MarkAt(v.fields[p[0]], run, source, at + [p[0]], p[1..]);
      assert at + [p[0]] + p[1..] == at + p;
    }
  }

  // ------------------------------------------------------------- which dictionary where

  /** The dictionary stands at this path. */
  predicate Stands(o: Object, p: Path, id: Id) {
    var found := At(o, p); found.Some? && found.value.Dict? && found.value.id == id
  }

  ghost predicate Absent(o: Object, id: Id) { forall p :: !Stands(o, p, id) }

  predicate Has(o: Object, id: Id) {
    o.Dict? && (o.id == id || exists k :: k in o.fields && Has(o.fields[k], id))
  }

  lemma StandsBelow(o: Object, k: string, p: Path, id: Id)
    requires o.Dict? && k in o.fields
    ensures Stands(o, [k] + p, id) <==> Stands(o.fields[k], p, id)
  {
    assert ([k] + p)[1..] == p;
  }

  lemma AbsentBelow(o: Object, k: string, id: Id)
    requires o.Dict? && k in o.fields && Absent(o, id)
    ensures Absent(o.fields[k], id)
  {
    forall p ensures !Stands(o.fields[k], p, id) {
      StandsBelow(o, k, p, id);
      assert !Stands(o, [k] + p, id);
    }
  }

  lemma HasIffStands(o: Object, id: Id)
    ensures Has(o, id) <==> !Absent(o, id)
  {
    if o.Dict? {
      if o.id == id {
        assert Stands(o, [], id);
      } else {
        if k :| k in o.fields && Has(o.fields[k], id) {
          HasIffStands(o.fields[k], id);
          if Absent(o, id) { AbsentBelow(o, k, id); }
        }
        if p :| Stands(o, p, id) {
          assert p != [];
          HasIffStands(o.fields[p[0]], id);
          assert p == [p[0]] + p[1..];
          StandsBelow(o, p[0], p[1..], id);
        }
      }
    } else {
      assert forall p :: At(o, p).Some? ==> p == [];
    }
  }

  lemma MarkStands(v: Value, run: nat, source: Source, at: Path, p: Path, id: Id)
    requires Stands(Mark(v, run, source, at), p, id)
    ensures id == Id(run, source, at + p)
  {
    MarkAt(v, run, source, at, p);
  }

  lemma {:induction false} AtBelow(o: Object, q: Path, p: Path)
    ensures At(o, q + p) == if At(o, q).Some? then At(At(o, q).value, p) else None
    decreases |q|
  {
    if q == [] {
      assert q + p == p;
    } else {
      assert (q + p)[1..] == q[1..] + p;
      if o.Dict? && q[0] in o.fields { AtBelow(o.fields[q[0]], q[1..], p); }
    }
  }

  // ------------------------------------------------------------------- assignment

  /** d[key] = w for the dictionary d: it changes wherever it stands. */
  function Assign(o: Object, id: Id, key: string, w: Object): Object {
    match o
    case Leaf(_) => o
    case Dict(i, fields) =>
      var below := map k | k in fields :: Assign(fields[k], id, key, w);
      Dict(i, if i == id then below[key := w] else below)
  }

  lemma AssignAbsent(o: Object, id: Id, key: string, w: Object)
    requires Absent(o, id)
    ensures Assign(o, id, key, w) == o
  {
    if o.Dict? {
      assert !Stands(o, [], id);
      forall k | k in o.fields ensures Assign(o.fields[k], id, key, w) == o.fields[k] {
        AbsentBelow(o, k, id);
        AssignAbsent(o.fields[k], id, key, w);
      }
      assert (map k | k in o.fields :: Assign(o.fields[k], id, key, w)) == o.fields;
    }
  }

  /** The assignment is not on the way to q. */
  ghost predicate Beside(o: Object, id: Id, key: string, q: Path) {
    forall n :: 0 <= n < |q| && Stands(o, q[..n], id) ==> q[n] != key
  }

  /** Then what stands at q is what stood there, itself changed wherever the dictionary occurs. */
  lemma {:induction false} AssignBeside(o: Object, id: Id, key: string, w: Object, q: Path)
    requires Beside(o, id, key, q)
    ensures var before, after := At(o, q), At(Assign(o, id, key, w), q);
            if before.Some? then after == Some(Assign(before.value, id, key, w)) else after.None?
    decreases |q|
  {
    if q != [] && o.Dict? {
      assert q[..0] == [];
      assert Stands(o, q[..0], id) ==> q[0] != key;
      if q[0] in o.fields {
        BesideBelow(o, id, key, q);
        AssignBeside(o.fields[q[0]], id, key, w, q[1..]);
      }
    }
  }

  lemma BesideBelow(o: Object, id: Id, key: string, q: Path)
    requires q != [] && o.Dict? && q[0] in o.fields && Beside(o, id, key, q)
    ensures Beside(o.fields[q[0]], id, key, q[1..])
  {
    forall n | 0 <= n < |q[1..]| && Stands(o.fields[q[0]], q[1..][..n], id) ensures q[1..][n] != key {
      StandsBelow(o, q[0], q[1..][..n], id);
      assert [q[0]] + q[1..][..n] == q[..n + 1];
    }
  }

  // -------------------------------------------------------------------- write_path

  /** The deepest dictionary on the way to t, as its identity and how many keys lead to it. */
  datatype Spot = Spot(id: Id, depth: nat)

  function Deepest(o: Object, t: Path): (spot: Option<Spot>)
    requires |t| >= 1
    ensures spot.Some? ==> spot.value.depth < |t|
    decreases |t|
  {
    if !o.Dict? then None
    else if |t| == 1 || t[0] !in o.fields then Some(Spot(o.id, 0))
    else match Deepest(o.fields[t[0]], t[1..])
      case None => None
      case Some(s) => Some(Spot(s.id, s.depth + 1))
  }

  /** The dictionaries setdefault creates for the keys that are left, down to w. */
  function Nest(rest: Path, w: Object, run: nat, step: nat, at: Path): Object {
    if rest == [] then w
    else Dict(Id(run, Created(step), at), map[rest[0] := Nest(rest[1..], w, run, step, at + [rest[0]])])
  }

  /** The documents alive during a round trip: forward reads the instance and builds the canonical
      document, reverse reads that and builds another while the instance is still there. */
  datatype World = World(instance: Object, canonical: Object, back: Object)

  datatype Way = There | Back

  function ReadFrom(way: Way, world: World): Object { if way.There? then world.instance else world.canonical }

  function Built(way: Way, world: World): Object { if way.There? then world.canonical else world.back }

  function AssignAll(world: World, id: Id, key: string, w: Object): World {
    World(Assign(world.instance, id, key, w), Assign(world.canonical, id, key, w), Assign(world.back, id, key, w))
  }

  /** A write goes through, meets something other than a dictionary, or would put a dictionary
      inside itself, of which the model says no more. */
  datatype Put = Wrote(world: World) | Blocked | Knotted

  function RunNumber(way: Way): nat { if way.There? then 1 else 2 }

  /** write_path on the document being built: the others change where they share the dictionary. */
  function WritePath(world: World, way: Way, t: Path, w: Object, step: nat): Put
    requires |t| >= 1
  {
    match Deepest(Built(way, world), t)
    case None => Blocked
    case Some(spot) =>
      var put := Nest(t[spot.depth + 1..], w, RunNumber(way), step, t[..spot.depth + 1]);
      if Has(put, spot.id) then Knotted else Wrote(AssignAll(world, spot.id, t[spot.depth], put))
  }

  lemma {:induction false} DeepestStands(o: Object, t: Path)
    requires |t| >= 1 && Deepest(o, t).Some?
    ensures var spot := Deepest(o, t).value; Stands(o, t[..spot.depth], spot.id)
    decreases |t|
  {
    var spot := Deepest(o, t).value;
    if spot.depth > 0 {
      DeepestStands(o.fields[t[0]], t[1..]);
      StandsBelow(o, t[0], t[1..][..spot.depth - 1], spot.id);
      assert [t[0]] + t[1..][..spot.depth - 1] == t[..spot.depth];
    }
  }

  lemma {:induction false} DeepestIffOpen(o: Object, t: Path)
    requires |t| >= 1
    ensures Deepest(o, t).Some? <==> Open(Erase(o), t)
    decreases |t|
  {
    if o.Dict? && |t| >= 2 && t[0] in o.fields { DeepestIffOpen(o.fields[t[0]], t[1..]); }
  }

  lemma EraseUpdate(id: Id, fields: map<string, Object>, k: string, o: Object)
    ensures Erase(Dict(id, fields[k := o])) == Obj(Erase(Dict(id, fields)).fields[k := Erase(o)])
  {
    var all := fields[k := o];
    assert (map x | x in all :: Erase(all[x])) == (map x | x in fields :: Erase(fields[x]))[k := Erase(o)];
  }

  lemma {:induction false} NestErases(rest: Path, w: Object, run: nat, step: nat, at: Path)
    requires rest != []
    ensures Write(EMPTY, rest, Erase(w)) == Some(Erase(Nest(rest, w, run, step, at)))
    decreases |rest|
  {
    var inner := Nest(rest[1..], w, run, step, at + [rest[0]]);
    if |rest| > 1 { NestErases(rest[1..], w, run, step, at + [rest[0]]); }
    var id := Id(run, Created(step), at);
    EraseUpdate(id, map[], rest[0], inner);
    assert map[][rest[0] := inner] == map[rest[0] := inner];
    assert Erase(Dict(id, map[])) == EMPTY;
  }

  /** The dictionary occurs in the document at this path at most. */
  ghost predicate OnlyAt(o: Object, id: Id, s: Path) { forall p :: Stands(o, p, id) ==> p == s }

  /** A write to t would change one dictionary, and that in one place. */
  ghost predicate Alone(o: Object, t: Path)
    requires |t| >= 1
  {
    Deepest(o, t).Some? && var spot := Deepest(o, t).value; OnlyAt(o, spot.id, t[..spot.depth])
  }

  lemma OnlyAtBelow(o: Object, id: Id, s: Path, k: string)
    requires o.Dict? && k in o.fields && OnlyAt(o, id, s)
    ensures if s != [] && s[0] == k then OnlyAt(o.fields[k], id, s[1..]) else Absent(o.fields[k], id)
  {
    forall p | Stands(o.fields[k], p, id) ensures s == [k] + p { StandsBelow(o, k, p, id); }
    forall p | Stands(o.fields[k], p, id) ensures s != [] && s[0] == k && p == s[1..] { assert s == [k] + p; }
  }

  /** Where its dictionary stands alone, a write to the objects is a write to their values. */
  lemma {:induction false} PutErases(o: Object, t: Path, w: Object, run: nat, step: nat, at: Path)
    requires |t| >= 1 && Alone(o, t)
    ensures var spot := Deepest(o, t).value;
            Write(Erase(o), t, Erase(w))
            == Some(Erase(Assign(o, spot.id, t[spot.depth], Nest(t[spot.depth + 1..], w, run, step, at))))
    decreases |t|
  {
    var spot := Deepest(o, t).value;
    var key, put := t[spot.depth], Nest(t[spot.depth + 1..], w, run, step, at);
    forall k | k in o.fields && (spot.depth == 0 || k != t[0])
      ensures Assign(o.fields[k], spot.id, key, put) == o.fields[k]
    {
      OnlyAtBelow(o, spot.id, t[..spot.depth], k);
      AssignAbsent(o.fields[k], spot.id, key, put);
    }
    if spot.depth == 0 {
      assert (map k | k in o.fields :: Assign(o.fields[k], spot.id, key, put)) == o.fields;
      EraseUpdate(o.id, o.fields, key, put);
      if |t| > 1 { NestErases(t[1..], w, run, step, at); }
    } else {
      var child := o.fields[t[0]];
      assert o.id == spot.id ==> Stands(o, [], spot.id);
      OnlyAtBelow(o, spot.id, t[..spot.depth], t[0]);
      assert t[..spot.depth][1..] == t[1..][..spot.depth - 1];
      assert t[spot.depth + 1..] == t[1..][spot.depth..];
      PutErases(child, t[1..], w, run, step, at);
      AssignDescends(o, spot.id, key, put, t[0]);
    }
  }

  lemma AssignDescends(o: Object, id: Id, key: string, w: Object, k: string)
    requires o.Dict? && o.id != id && k in o.fields
    requires forall j :: j in o.fields && j != k ==> Assign(o.fields[j], id, key, w) == o.fields[j]
    ensures Erase(Assign(o, id, key, w)) == Obj(Erase(o).fields[k := Erase(Assign(o.fields[k], id, key, w))])
  {
    var below := map j | j in o.fields :: Assign(o.fields[j], id, key, w);
    assert below == o.fields[k := Assign(o.fields[k], id, key, w)];
    EraseUpdate(o.id, o.fields, k, Assign(o.fields[k], id, key, w));
  }

  // ------------------------------------------------------ what stands where after a write

  /** Past the assigned key stands the new object. */
  lemma {:induction false} AssignThrough(o: Object, id: Id, key: string, w: Object, s: Path, r: Path)
    requires Stands(o, s, id) && forall n :: 0 <= n < |s| ==> !Stands(o, s[..n], id)
    ensures At(Assign(o, id, key, w), s + [key] + r) == At(w, r)
    decreases |s|
  {
    if s == [] {
      assert ([key] + r)[1..] == r && s + [key] + r == [key] + r;
    } else {
      assert !Stands(o, s[..0], id) && s[..0] == [];
      var child := o.fields[s[0]];
      assert s == [s[0]] + s[1..];
      StandsBelow(o, s[0], s[1..], id);
      forall n | 0 <= n < |s[1..]| ensures !Stands(child, s[1..][..n], id) {
        StandsBelow(o, s[0], s[1..][..n], id);
        assert [s[0]] + s[1..][..n] == s[..n + 1];
      }
      AssignThrough(child, id, key, w, s[1..], r);
      assert (s + [key] + r)[1..] == s[1..] + [key] + r;
    }
  }

  lemma {:induction false} NestStands(rest: Path, w: Object, run: nat, step: nat, at: Path, r: Path, e: Id)
    requires Stands(Nest(rest, w, run, step, at), r, e)
    ensures (rest <= r && Stands(w, r[|rest|..], e)) || (r < rest && e == Id(run, Created(step), at + r))
    decreases |rest|
  {
    if rest == [] {
      assert r[0..] == r;
    } else if r == [] {
      assert at + r == at;
    } else {
      var inner := Nest(rest[1..], w, run, step, at + [rest[0]]);
      assert r[0] == rest[0] && Stands(inner, r[1..], e);
      NestStands(rest[1..], w, run, step, at + [rest[0]], r[1..], e);
      SameHead(rest, r);
      assert at + [rest[0]] + r[1..] == at + r;
    }
  }

  /** After a write a dictionary stands where it stood, inside what was written, or on the way
      there, just created. */
  lemma PutStands(o: Object, t: Path, w: Object, run: nat, step: nat, p: Path, e: Id)
    requires |t| >= 1 && Alone(o, t)
    requires var spot := Deepest(o, t).value;
             Stands(Assign(o, spot.id, t[spot.depth], Nest(t[spot.depth + 1..], w, run, step, t[..spot.depth + 1])), p,
                 e)
    ensures || (Stands(o, p, e) && !(t <= p))
            || (t <= p && Stands(w, p[|t|..], e))
            || (p < t && e == Id(run, Created(step), p))
  {
    var spot := Deepest(o, t).value;
    var s, key, rest := t[..spot.depth], t[spot.depth], t[spot.depth + 1..];
    var put := Nest(rest, w, run, step, t[..spot.depth + 1]);
    DeepestStands(o, t);
    assert t <= p ==> p[..spot.depth] == s && p[spot.depth] == key;
    if Beside(o, spot.id, key, p) {
      AssignBeside(o, spot.id, key, put, p);
    } else {
      var r := PastSpot(o, spot.id, key, s, p);
      AssignThrough(o, spot.id, key, put, s, r);
      NestStands(rest, w, run, step, t[..spot.depth + 1], r, e);
      assert t == s + [key] + rest && t[..spot.depth + 1] == s + [key];
      AfterPrefix(s + [key], rest, r);
    }
  }

  lemma PastSpot(o: Object, id: Id, key: string, s: Path, p: Path) returns (r: Path)
    requires OnlyAt(o, id, s) && !Beside(o, id, key, p)
    ensures p == s + [key] + r
  {
    var n :| 0 <= n < |p| && Stands(o, p[..n], id) && p[n] == key;
    r := p[n + 1..];
    assert p == p[..n] + [p[n]] + p[n + 1..];
  }

  lemma AfterPrefix(a: Path, b: Path, c: Path)
    ensures a + b <= a + c <==> b <= c
    ensures a + c < a + b <==> c < b
    ensures b <= c ==> (a + c)[|a + b|..] == c[|b|..]
  {
    assert (a + b)[|a|..] == b && (a + c)[|a|..] == c;
    if a + b <= a + c { assert b == (a + c)[|a|..|a| + |b|]; }
    if a + c < a + b { assert c == (a + b)[|a|..|a| + |c|]; }
  }

  lemma {:induction false} DeepestMissing(o: Object, t: Path)
    requires |t| >= 1 && Deepest(o, t).Some?
    ensures var d := Deepest(o, t).value.depth; d + 1 < |t| ==> At(o, t[..d + 1]).None?
    decreases |t|
  {
    if Deepest(o, t).value.depth > 0 {
      DeepestMissing(o.fields[t[0]], t[1..]);
      var d := Deepest(o, t).value.depth;
      if d + 1 < |t| { assert t[..d + 1][1..] == t[1..][..d]; }
    }
  }

  /** A write that is not at or above q changes what stands at q only from within. */
  lemma AssignOff(o: Object, t: Path, w: Object, q: Path)
    requires |t| >= 1 && Alone(o, t) && At(o, q).Some? && !(t <= q)
    ensures var spot := Deepest(o, t).value;
            At(Assign(o, spot.id, t[spot.depth], w), q) == Some(Assign(At(o, q).value, spot.id, t[spot.depth], w))
  {
    var spot := Deepest(o, t).value;
    DeepestMissing(o, t);
    forall m | 0 <= m < |q| && Stands(o, q[..m], spot.id) ensures q[m] != t[spot.depth] {
      assert m == spot.depth && q[..m] == t[..m];
      AtBelow(o, q[..m + 1], q[m + 1..]);
      assert q[..m + 1] + q[m + 1..] == q && q[..m + 1] == q[..m] + [q[m]];
      assert t[..m + 1] == t[..m] + [t[m]];
    }
    AssignBeside(o, spot.id, t[spot.depth], w, q);
  }

  lemma {:induction false} NestAt(rest: Path, w: Object, run: nat, step: nat, at: Path)
    ensures At(Nest(rest, w, run, step, at), rest) == Some(w)
    decreases |rest|
  {
    if rest != [] { NestAt(rest[1..], w, run, step, at + [rest[0]]); }
  }

  /** What is written stands at the target. */
  lemma PutAt(o: Object, t: Path, w: Object, run: nat, step: nat)
    requires |t| >= 1 && Alone(o, t)
    ensures var spot := Deepest(o, t).value;
            var put := Nest(t[spot.depth + 1..], w, run, step, t[..spot.depth + 1]);
            At(Assign(o, spot.id, t[spot.depth], put), t) == Some(w)
  {
    var spot := Deepest(o, t).value;
    var s, key, rest := t[..spot.depth], t[spot.depth], t[spot.depth + 1..];
    DeepestStands(o, t);
    forall m | 0 <= m < |s| ensures !Stands(o, s[..m], spot.id) { assert s[..m] != s; }
    AssignThrough(o, spot.id, key, Nest(rest, w, run, step, t[..spot.depth + 1]), s, rest);
    NestAt(rest, w, run, step, t[..spot.depth + 1]);
    assert s + [key] + rest == t;
  }
}
