/**
 Plans run forward and back over values, whatever their canonical paths: the compiler does not
 check that they are prefix-free. What each path holds is a fold of the steps' own results, and a step
 comes back exactly when undoing its chain on what its path holds gives its value.
 */
module SharedPaths {
  import opened Wrappers
  import opened Documents
  import opened Objects
  import opened Transforms
  import opened Interpreter
  import opened Compiler
  import opened RoundTrip

  // ------------------------------------------------------------- what a path holds

  /** What an action writes, if it writes at all. */
  function Writes(a: Action): Option<Value> {
    match a.outcome
    case Ok(v) => Some(v)
    case Failed => if a.step.onFailure.OnDefault? then Some(Null) else None
    case Crashed => None
  }

  /** What q holds after the action when it held `before`. */
  function Hold(a: Action, q: Path, before: Option<Value>): Option<Value> {
    if a.target.None? || Writes(a).None? then before
    else Seen(before, q, Parts(a.target.value), Writes(a).value)
  }

  /** What q holds of the steps' results, step by step. */
  function Held(lib: Library, steps: seq<Step>, x: Value, q: Path): Option<Value> {
    if steps == [] then Find(EMPTY, q)
    else
      var before := Held(lib, steps[..|steps| - 1], x, q);
      if Mapped(steps[|steps| - 1]) then Hold(ForwardAction(lib, x, steps[|steps| - 1]), q, before) else before
  }

  lemma PerformHolds(a: Action, out: Value, q: Path)
    requires Perform(a, out).ending.Done?
    ensures Find(Perform(a, out).ending.out, q) == Hold(a, q, Find(out, q))
  {
    if a.target.Some? && Writes(a).Some? {
      FindAfterWrite(out, Parts(a.target.value), Writes(a).value, q);
    }
  }

  lemma ForwardLast(lib: Library, steps: seq<Step>, x: Value)
    requires steps != []
    ensures var front, last := ForwardRun(lib, steps[..|steps| - 1], x).ending, steps[|steps| - 1];
            ForwardRun(lib, steps, x).ending
            == if front.Done? && Mapped(last) then Perform(ForwardAction(lib, x, last), front.out).ending else front
  {
    RunLast(There, lib, x, steps);
  }

  /** After a completed forward run every path holds what the fold says, whatever the
      canonical paths. */
  lemma {:induction false} RunHolds(lib: Library, steps: seq<Step>, x: Value, q: Path)
    requires ForwardRun(lib, steps, x).ending.Done?
    ensures Find(ForwardRun(lib, steps, x).ending.out, q) == Held(lib, steps, x, q)
    decreases |steps|
  {
    if steps != [] {
      ForwardLast(lib, steps, x);
      var front, last := steps[..|steps| - 1], steps[|steps| - 1];
      RunHolds(lib, front, x, q);
      if Mapped(last) { PerformHolds(ForwardAction(lib, x, last), ForwardRun(lib, front, x).ending.out, q); }
    }
  }

  // ------------------------------------------------------------------ when a run breaks

  /** Something other than a dictionary stands strictly above p. */
  ghost predicate Blocked(lib: Library, steps: seq<Step>, x: Value, p: Path) {
    exists n :: 1 <= n < |p| && Held(lib, steps, x, p[..n]).Some? && !Held(lib, steps, x, p[..n]).value.Obj?
  }

  /** The steps before this one complete, and its chain raises or its write is blocked. */
  ghost predicate BreaksAt(lib: Library, steps: seq<Step>, x: Value, k: nat) {
    && k < |steps| && ForwardRun(lib, steps[..k], x).ending.Done? && Mapped(steps[k])
    && var a := ForwardAction(lib, x, steps[k]);
       || a.outcome.Crashed?
       || (Writes(a).Some? && a.target.Some? && Blocked(lib, steps[..k], x, Parts(a.target.value)))
  }

  lemma BlockedIffShut(lib: Library, steps: seq<Step>, x: Value, p: Path)
    requires ForwardRun(lib, steps, x).ending.Done?
    ensures Open(ForwardRun(lib, steps, x).ending.out, p) <==> !Blocked(lib, steps, x, p)
  {
    var out := ForwardRun(lib, steps, x).ending.out;
    OutIsObject(lib, steps, x);
    OpenIffDictionariesAbove(out, p);
    forall n | 1 <= n < |p| ensures Find(out, p[..n]) == Held(lib, steps, x, p[..n]) {
      RunHolds(lib, steps, x, p[..n]);
    }
  }

  lemma {:induction false} OutIsObject(lib: Library, steps: seq<Step>, x: Value)
    requires ForwardRun(lib, steps, x).ending.Done?
    ensures ForwardRun(lib, steps, x).ending.out.Obj?
    decreases |steps|
  {
    if steps != [] {
      ForwardLast(lib, steps, x);
      OutIsObject(lib, steps[..|steps| - 1], x);
    }
  }

  lemma LastBreaks(lib: Library, steps: seq<Step>, x: Value)
    requires steps != [] && ForwardRun(lib, steps[..|steps| - 1], x).ending.Done?
    ensures ForwardRun(lib, steps, x).ending.Broke? <==> BreaksAt(lib, steps, x, |steps| - 1)
  {
    var front, last := steps[..|steps| - 1], steps[|steps| - 1];
    ForwardLast(lib, steps, x);
    var a, out := ForwardAction(lib, x, last), ForwardRun(lib, front, x).ending.out;
    if a.target.Some? && Writes(a).Some? {
      WriteSucceedsIffOpen(out, Parts(a.target.value), Writes(a).value);
      BlockedIffShut(lib, front, x, Parts(a.target.value));
    }
  }

  lemma BreaksEarlier(lib: Library, steps: seq<Step>, x: Value, k: nat)
    requires k < |steps| - 1
    ensures BreaksAt(lib, steps, x, k) <==> BreaksAt(lib, steps[..|steps| - 1], x, k)
  {
    assert steps[..|steps| - 1][..k] == steps[..k];
  }

  /** A forward run raises something other than MappingRejected exactly at a step whose chain
      does, or whose path runs through what an earlier step left there. */
  lemma {:induction false} RunBreaksIff(lib: Library, steps: seq<Step>, x: Value)
    ensures ForwardRun(lib, steps, x).ending.Broke? <==> exists k: nat :: BreaksAt(lib, steps, x, k)
    decreases |steps|
  {
    if steps != [] {
      var n := |steps| - 1;
      RunBreaksIff(lib, steps[..n], x);
      LastDecides(lib, steps, x);
      if k: nat :| BreaksAt(lib, steps, x, k) {
        if k < n { BreaksEarlier(lib, steps, x, k); }
      }
      if k: nat :| BreaksAt(lib, steps[..n], x, k) { BreaksEarlier(lib, steps, x, k); }
    }
  }

  lemma LastDecides(lib: Library, steps: seq<Step>, x: Value)
    requires steps != []
    ensures ForwardRun(lib, steps, x).ending.Broke?
            <==> ForwardRun(lib, steps[..|steps| - 1], x).ending.Broke? || BreaksAt(lib, steps, x, |steps| - 1)
  {
    ForwardLast(lib, steps, x);
    if ForwardRun(lib, steps[..|steps| - 1], x).ending.Done? { LastBreaks(lib, steps, x); }
  }

  // -------------------------------------------------------------- what a step gets back

  /** What reverse reads for the step. */
  function Offered(lib: Library, steps: seq<Step>, x: Value, s: Step): Value {
    match s.canonicalPath
    case None => Null
    case Some(p) => Held(lib, steps, x, Parts(p)).GetOr(Null)
  }

  /** The chain undone, or null where it does not come undone. */
  function Undo(lib: Library, chain: seq<Call>, v: Value): Value {
    var back := RunReverse(lib, chain, v);
    if back.Ok? then back.value else Null
  }

  function Recovered(lib: Library, steps: seq<Step>, x: Value, s: Step): Value {
    if s.reversible then Undo(lib, s.chain, Offered(lib, steps, x, s)) else Null
  }

  lemma OfferedIsRead(lib: Library, steps: seq<Step>, x: Value, s: Step)
    requires ForwardRun(lib, steps, x).ending.Done?
    ensures ReadAt(ForwardRun(lib, steps, x).ending.out, s.canonicalPath) == Offered(lib, steps, x, s)
  {
    if s.canonicalPath.Some? {
      RunHolds(lib, steps, x, Parts(s.canonicalPath.value));
      ReadIsFind(ForwardRun(lib, steps, x).ending.out, Parts(s.canonicalPath.value));
    }
  }

  ghost predicate Completes(lib: Library, steps: seq<Step>, x: Value) { ValueTrip(lib, steps, x).Some? }

  /** The document a completed trip comes back with. */
  function CameBack(lib: Library, steps: seq<Step>, x: Value): Value
    requires Completes(lib, steps, x)
  {
    ValueTrip(lib, steps, x).value
  }

  lemma ReverseLeavesAlone(lib: Library, steps: seq<Step>, y: Value, i: nat)
    requires RegionFree(steps) && i < |steps| && Mapped(steps[i]) && !steps[i].reversible && steps[i].regionPath.Some?
    requires ReverseRun(lib, steps, y).ending.Done?
    ensures ReadAt(ReverseRun(lib, steps, y).ending.out, steps[i].regionPath) == Null
  {
    var actions := ReverseActions(lib, y, steps);
    ReverseActionsOf(lib, y, steps);
    ReverseTargetsFree(lib, y, steps);
    forall k | 0 <= k < |actions|
      ensures TargetOpen(EMPTY, actions[k].target) && Separate(actions[k].target, steps[i].regionPath)
    {
      assert actions[k] in actions;
      EmptyIsOpen(actions[k].target);
    }
    RunPointwise(actions, EMPTY);
    EmptyIsOpen(steps[i].regionPath);
  }

  /** A completed trip over separate region paths leaves, at each of them, the step's chain
      undone on what its canonical path held: no law, and no condition on canonical paths. */
  lemma TripGivesBack(lib: Library, steps: seq<Step>, x: Value, i: nat)
    requires RegionFree(steps) && Completes(lib, steps, x)
    requires i < |steps| && Mapped(steps[i]) && steps[i].regionPath.Some?
    ensures ReadAt(CameBack(lib, steps, x), steps[i].regionPath) == Recovered(lib, steps, x, steps[i])
  {
    var out := ForwardRun(lib, steps, x).ending.out;
    if steps[i].reversible {
      ReversePointwise(lib, steps, out);
      OfferedIsRead(lib, steps, x, steps[i]);
    } else {
      ReverseLeavesAlone(lib, steps, out, i);
    }
  }

  // ------------------------------------------------------- steps that share a path

  /** The step's canonical path is neither at, above nor below q. */
  ghost predicate Clear(s: Step, q: Path) {
    Mapped(s) && s.canonicalPath.Some? ==> Incomparable(Parts(s.canonicalPath.value), q)
  }

  ghost predicate ClearFrom(steps: seq<Step>, k: nat, q: Path) {
    forall m :: k <= m < |steps| ==> Clear(steps[m], q)
  }

  lemma {:induction false} UntouchedFrom(lib: Library, steps: seq<Step>, x: Value, q: Path, k: nat)
    requires k <= |steps| && ClearFrom(steps, k, q)
    ensures Held(lib, steps, x, q) == Held(lib, steps[..k], x, q)
    decreases |steps|
  {
    if k == |steps| {
      assert steps[..k] == steps;
    } else {
      var front := steps[..|steps| - 1];
      UntouchedFrom(lib, front, x, q, k);
      assert front[..k] == steps[..k] && Clear(steps[|steps| - 1], q);
    }
  }

  /** Step k's chain succeeds on the instance and gives w. */
  ghost predicate Delivers(lib: Library, steps: seq<Step>, x: Value, k: nat, w: Value) {
    && k < |steps| && Mapped(steps[k]) && steps[k].canonicalPath.Some?
    && RunForward(lib, steps[k].chain, ReadAt(x, steps[k].regionPath)) == Ok(w)
  }

  function Target(s: Step): Path
    requires s.canonicalPath.Some?
  {
    Parts(s.canonicalPath.value)
  }

  lemma HeldAfterStep(lib: Library, steps: seq<Step>, x: Value, q: Path, k: nat, w: Value)
    requires Delivers(lib, steps, x, k, w) && ClearFrom(steps, k + 1, q)
    ensures Held(lib, steps, x, q) == Seen(Held(lib, steps[..k], x, q), q, Target(steps[k]), w)
  {
    UntouchedFrom(lib, steps, x, q, k + 1);
    assert steps[..k + 1][..k] == steps[..k];
  }

  /** When a later step writes at or above step i's path, step i is handed that part of the
      later value: i comes back exactly when undoing its chain on it gives i's own value. */
  lemma LaterAtOrAbove(lib: Library, steps: seq<Step>, x: Value, i: nat, j: nat, w: Value)
    requires RegionFree(steps) && Completes(lib, steps, x)
    requires i <= j && i < |steps| && Undoable(steps[i]) && steps[i].canonicalPath.Some? && steps[i].regionPath.Some?
    requires Delivers(lib, steps, x, j, w) && Target(steps[j]) <= Target(steps[i])
    requires ClearFrom(steps, j + 1, Target(steps[i]))
    ensures ReadAt(CameBack(lib, steps, x), steps[i].regionPath)
            == Undo(lib, steps[i].chain, Read(w, Target(steps[i])[|Target(steps[j])|..]))
  {
    HeldAfterStep(lib, steps, x, Target(steps[i]), j, w);
    ReadIsFind(w, Target(steps[i])[|Target(steps[j])|..]);
    TripGivesBack(lib, steps, x, i);
  }

  /** Of any number of steps onto one path the last decides: an earlier one comes back exactly
      when undoing its chain on the last one's result gives its own value. */
  lemma SharedPathIff(lib: Library, steps: seq<Step>, x: Value, i: nat, j: nat, w: Value)
    requires RegionFree(steps) && Completes(lib, steps, x)
    requires i <= j < |steps| && Undoable(steps[i]) && steps[i].regionPath.Some?
    requires steps[i].canonicalPath == steps[j].canonicalPath && Delivers(lib, steps, x, j, w)
    requires ClearFrom(steps, j + 1, Target(steps[j]))
    ensures ReadAt(CameBack(lib, steps, x), steps[i].regionPath) == ReadAt(x, steps[i].regionPath)
            <==> Undo(lib, steps[i].chain, w) == ReadAt(x, steps[i].regionPath)
    ensures ReadAt(CameBack(lib, steps, x), steps[i].regionPath) == Undo(lib, steps[i].chain, w)
  {
    var t := Target(steps[j]);
    LaterAtOrAbove(lib, steps, x, i, j, w);
    assert t[|t|..] == [] && Read(w, []) == w;
  }

  ghost predicate OneBelow(lib: Library, steps: seq<Step>, x: Value, i: nat, u: Value, j: nat, w: Value, r: Path) {
    && i < j && Delivers(lib, steps, x, i, u) && Delivers(lib, steps, x, j, w)
    && r != [] && Target(steps[j]) == Target(steps[i]) + r
    && (forall m :: i < m < j ==> Clear(steps[m], Target(steps[i])))
    && ClearFrom(steps, j + 1, Target(steps[i]))
  }

  lemma HeldBeforeBelow(lib: Library, steps: seq<Step>, x: Value, i: nat, u: Value, j: nat, w: Value, r: Path)
    requires OneBelow(lib, steps, x, i, u, j, w, r)
    ensures Held(lib, steps[..j], x, Target(steps[i])) == Some(u)
  {
    var front, q := steps[..j], Target(steps[i]);
    assert front[i] == steps[i] && front[..i] == steps[..i];
    HeldAfterStep(lib, front, x, q, i, u);
    assert q[|q|..] == [] && Find(u, []) == Some(u);
  }

  /** The step that writes below step i's path goes through exactly when i's value is a
      dictionary that is open there. */
  lemma BelowNeedsDictionary(lib: Library, steps: seq<Step>, x: Value, i: nat, u: Value, j: nat, w: Value, r: Path)
    requires OneBelow(lib, steps, x, i, u, j, w, r) && ForwardRun(lib, steps[..j], x).ending.Done?
    ensures ForwardRun(lib, steps[..j + 1], x).ending.Done? <==> Open(u, r)
  {
    var front, q, t := steps[..j], Target(steps[i]), Target(steps[j]);
    var out := ForwardRun(lib, front, x).ending.out;
    HeldBeforeBelow(lib, steps, x, i, u, j, w, r);
    RunHolds(lib, front, x, q);
    OpenThrough(out, q, r);
    FoundIsOpen(out, q);
    BlockedIffShut(lib, front, x, t);
    WriteSucceedsIffOpen(out, t, w);
    assert steps[..j + 1][..j] == front;
    ForwardLast(lib, steps[..j + 1], x);
  }

  /** And where it does not go through, the run raises. */
  lemma BelowBreaks(lib: Library, steps: seq<Step>, x: Value, i: nat, u: Value, j: nat, w: Value, r: Path)
    requires OneBelow(lib, steps, x, i, u, j, w, r) && ForwardRun(lib, steps[..j], x).ending.Done?
    ensures ForwardRun(lib, steps[..j + 1], x).ending.Broke? <==> !Open(u, r)
    ensures !Open(u, r) ==> ForwardRun(lib, steps, x).ending.Broke?
  {
    var upTo := steps[..j + 1];
    assert upTo[..j] == steps[..j];
    BelowNeedsDictionary(lib, steps, x, i, u, j, w, r);
    ForwardLast(lib, upTo, x);
    LastBreaks(lib, upTo, x);
    if !Open(u, r) {
      assert BreaksAt(lib, steps, x, j);
      RunBreaksIff(lib, steps, x);
    }
  }

  lemma {:induction false} CompletesEarlier(lib: Library, steps: seq<Step>, x: Value, k: nat)
    requires k <= |steps| && ForwardRun(lib, steps, x).ending.Done?
    ensures ForwardRun(lib, steps[..k], x).ending.Done?
    decreases |steps|
  {
    if k == |steps| {
      assert steps[..k] == steps;
    } else {
      ForwardLast(lib, steps, x);
      CompletesEarlier(lib, steps[..|steps| - 1], x, k);
      assert steps[..|steps| - 1][..k] == steps[..k];
    }
  }

  /** When a later step writes below step i's path, i is handed its own result with the later
      one put into it. */
  lemma LaterBelow(lib: Library, steps: seq<Step>, x: Value, i: nat, u: Value, j: nat, w: Value, r: Path)
    requires RegionFree(steps) && Completes(lib, steps, x)
    requires OneBelow(lib, steps, x, i, u, j, w, r) && steps[i].reversible && steps[i].regionPath.Some?
    ensures Write(u, r, w).Some?
    ensures ReadAt(CameBack(lib, steps, x), steps[i].regionPath) == Undo(lib, steps[i].chain, Write(u, r, w).value)
  {
    var q, t := Target(steps[i]), Target(steps[j]);
    CompletesEarlier(lib, steps, x, j);
    BelowBreaks(lib, steps, x, i, u, j, w, r);
    WriteSucceedsIffOpen(u, r, w);
    HeldBeforeBelow(lib, steps, x, i, u, j, w, r);
    HeldAfterStep(lib, steps, x, q, j, w);
    assert !(t <= q) && q <= t && t[|q|..] == r;
    TripGivesBack(lib, steps, x, i);
  }

  // ------------------------------------------------------ prefix-free canonical paths

  /** What the step alone makes of a value, there and back. */
  function AloneTrip(lib: Library, s: Step, v: Value): Value {
    if !s.reversible then Null
    else
      var there := RunForward(lib, s.chain, v);
      Undo(lib, s.chain, if s.canonicalPath.Some? && there.Ok? then there.value else Null)
  }

  lemma OthersClear(steps: seq<Step>, i: nat, m: nat)
    requires CanonicalFree(steps) && i < |steps| && m < |steps| && m != i
    requires Mapped(steps[i]) && steps[i].canonicalPath.Some?
    ensures Clear(steps[m], Target(steps[i]))
  {
    if Mapped(steps[m]) {
      assert Separate(steps[if m < i then m else i].canonicalPath, steps[if m < i then i else m].canonicalPath);
    }
  }

  lemma FreeHeld(lib: Library, steps: seq<Step>, x: Value, i: nat)
    requires CanonicalFree(steps) && i < |steps| && Mapped(steps[i]) && steps[i].canonicalPath.Some?
    ensures Held(lib, steps, x, Target(steps[i])) == Writes(ForwardAction(lib, x, steps[i]))
  {
    var q := Target(steps[i]);
    forall m | 0 <= m < |steps| && m != i ensures Clear(steps[m], q) { OthersClear(steps, i, m); }
    UntouchedFrom(lib, steps, x, q, i + 1);
    assert steps[..i + 1][..i] == steps[..i];
    UntouchedFrom(lib, steps[..i], x, q, 0);
    assert q[|q|..] == [];
  }

  lemma FreeStepIsAlone(lib: Library, steps: seq<Step>, x: Value, i: nat)
    requires CanonicalFree(steps) && i < |steps| && Mapped(steps[i])
    ensures Recovered(lib, steps, x, steps[i]) == AloneTrip(lib, steps[i], ReadAt(x, steps[i].regionPath))
  {
    if steps[i].canonicalPath.Some? { FreeHeld(lib, steps, x, i); }
  }
}
