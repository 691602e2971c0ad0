/**
 agents/model_gateway.py: the run's budget. Each call is checked against its stage's cap and
 the cost ceiling before it is made, and charged with what it really used afterwards.
 */
module Budgets {
  import opened Numeric
  import opened Wrappers
  import opened Sequences

  datatype Limits = Limits(totalTokens: int, costCeiling: real, perStage: map<string, real>)

  /** One call's charge, with the estimate it was let through on. */
  datatype Charge = Charge(stage: string, estimate: nat, tokens: nat)

  function Fraction(l: Limits, stage: string): real { if stage in l.perStage then l.perStage[stage] else 1.0 }

  function Cap(l: Limits, stage: string): int { Truncate(l.totalTokens as real * Fraction(l, stage)) }

  function CostOf(tokens: int): real { tokens as real / 1000.0 * 0.001 }

  function Tokens(h: seq<Charge>): nat { if h == [] then 0 else Tokens(h[..|h| - 1]) + h[|h| - 1].tokens }

  function Cost(h: seq<Charge>): real { if h == [] then 0.0 else Cost(h[..|h| - 1]) + CostOf(h[|h| - 1].tokens) }

  function StageTokens(h: seq<Charge>, stage: string): nat {
    if h == [] then 0
    else StageTokens(h[..|h| - 1], stage) + if h[|h| - 1].stage == stage then h[|h| - 1].tokens else 0
  }

  type Caps = string -> int

  function CapsOf(l: Limits): Caps { (stage: string) => Cap(l, stage) }

  predicate Allowed(caps: Caps, ceiling: real, h: seq<Charge>, stage: string, estimate: nat) {
    StageTokens(h, stage) + estimate <= caps(stage) && Cost(h) < ceiling
  }

  /** Every charge passed the check when its call was made. */
  ghost predicate AdmittedBy(caps: Caps, ceiling: real, h: seq<Charge>) {
    h != [] ==>
      && AdmittedBy(caps, ceiling, h[..|h| - 1])
      && Allowed(caps, ceiling, h[..|h| - 1], h[|h| - 1].stage, h[|h| - 1].estimate)
  }

  ghost predicate Admitted(l: Limits, h: seq<Charge>) { AdmittedBy(CapsOf(l), l.costCeiling, h) }

  function Spent(byStage: map<string, int>, stage: string): int { if stage in byStage then byStage[stage] else 0 }

  class Budget {
    const limits: Limits
    var spentTokens: int
    var spentCost: real
    var spentByStage: map<string, int>
    ghost var history: seq<Charge>

    /** The running totals are those of the charges made so far. */
    ghost predicate Valid()
      reads this
    {
      && spentTokens == Tokens(history) && spentCost == Cost(history)
      && forall s :: Spent(spentByStage, s) == StageTokens(history, s)
    }

    constructor (limits: Limits)
      ensures Valid() && this.limits == limits && history == []
    {
      this.limits := limits;
      spentTokens, spentCost, spentByStage, history := 0, 0.0, map[], [];
    }

    /** None when the call may go ahead, otherwise the scope that ran out: the stage's cap is
        looked at before the run's cost. */
    method Check(stage: string, estimate: nat) returns (exceeded: Option<string>)
      requires Valid()
      ensures exceeded == if StageTokens(history, stage) + estimate > Cap(limits, stage) then Some(stage)
                          else if Cost(history) >= limits.costCeiling then Some("run")
                          else None
    {
      if Spent(spentByStage, stage) + estimate > Cap(limits, stage) { return Some(stage); }
      if spentCost >= limits.costCeiling { return Some("run"); }
      return None;
    }

    method Record(stage: string, tokens: nat, ghost estimate: nat)
      requires Valid()
      modifies this
      ensures Valid() && history == old(history) + [Charge(stage, estimate, tokens)]
    {
      spentByStage := spentByStage[stage := Spent(spentByStage, stage) + tokens];
      spentTokens := spentTokens + tokens;
      spentCost := spentCost + CostOf(tokens);
      history := history + [Charge(stage, estimate, tokens)];
      assert history[..|history| - 1] == old(history);
    }
  }

  lemma AdmittedExtends(caps: Caps, ceiling: real, h: seq<Charge>, c: Charge)
    requires AdmittedBy(caps, ceiling, h) && Allowed(caps, ceiling, h, c.stage, c.estimate)
    ensures AdmittedBy(caps, ceiling, h + [c])
  {
    assert (h + [c])[..|h|] == h;
  }

  /** A stage's cap is its fraction of the total, or all of it when the stage is not listed, cut to
      whole tokens towards zero. */
  lemma CapIsFraction(l: Limits, stage: string)
    ensures var share := l.totalTokens as real * (if stage in l.perStage then l.perStage[stage] else 1.0);
            if share >= 0.0 then Cap(l, stage) as real <= share < Cap(l, stage) as real + 1.0
            else Cap(l, stage) as real - 1.0 < share <= Cap(l, stage) as real
  {
  }

  /** A run costs 0.001 for a thousand tokens. */
  lemma {:induction false} CostIsPerThousand(h: seq<Charge>)
    ensures Cost(h) * 1000000.0 == Tokens(h) as real
  {
    if h != [] { CostIsPerThousand(h[..|h| - 1]); }
  }

  // ------------------------------------------------------------------ whole runs

  function StageSum(h: seq<Charge>, stages: seq<string>): nat {
    if stages == [] then 0 else StageTokens(h, stages[0]) + StageSum(h, stages[1..])
  }

  lemma {:induction false} StageSumAfter(h: seq<Charge>, stages: seq<string>)
    requires h != [] && NoRepeats(stages)
    ensures StageSum(h, stages)
            == StageSum(h[..|h| - 1], stages) + if h[|h| - 1].stage in stages then h[|h| - 1].tokens else 0
  {
    if stages != [] {
      assert forall i :: 0 <= i < |stages[1..]| ==> stages[1..][i] == stages[i + 1];
      StageSumAfter(h, stages[1..]);
    }
  }

  ghost predicate Within(h: seq<Charge>, stages: seq<string>) { forall i :: 0 <= i < |h| ==> h[i].stage in stages }

  /** The run's tokens are the sum over its stages. */
  lemma {:induction false} TotalIsSumOverStages(h: seq<Charge>, stages: seq<string>)
    requires NoRepeats(stages) && Within(h, stages)
    ensures Tokens(h) == StageSum(h, stages)
  {
    if h == [] {
      NothingSpent(stages);
    } else {
      StageSumAfter(h, stages);
      assert h[|h| - 1].stage in stages;
      TotalIsSumOverStages(h[..|h| - 1], stages);
    }
  }

  lemma {:induction false} NothingSpent(stages: seq<string>)
    ensures StageSum([], stages) == 0
  {
    if stages != [] { NothingSpent(stages[1..]); }
  }

  /** By how much the stage's last call outran its estimate; negative when it stayed under. */
  function LastExcess(h: seq<Charge>, stage: string): int {
    if h == [] then 0
    else if h[|h| - 1].stage == stage then h[|h| - 1].tokens - h[|h| - 1].estimate
    else LastExcess(h[..|h| - 1], stage)
  }

  /** A stage overspends its cap by no more than its last call outran its estimate. */
  lemma {:induction false} StageWithinCap(caps: Caps, ceiling: real, h: seq<Charge>, stage: string)
    requires AdmittedBy(caps, ceiling, h)
    ensures StageTokens(h, stage) == 0 || StageTokens(h, stage) <= caps(stage) + LastExcess(h, stage)
  {
    if h != [] { StageWithinCap(caps, ceiling, h[..|h| - 1], stage); }
  }

  /** The run's cost passes the ceiling by less than its last call. */
  lemma CostWithinCeiling(caps: Caps, ceiling: real, h: seq<Charge>)
    requires AdmittedBy(caps, ceiling, h) && h != []
    ensures Cost(h) < ceiling + CostOf(h[|h| - 1].tokens)
  {
    assert Cost(h) == Cost(h[..|h| - 1]) + CostOf(h[|h| - 1].tokens);
  }

  function CapSum(caps: Caps, stages: seq<string>): int {
    if stages == [] then 0 else caps(stages[0]) + CapSum(caps, stages[1..])
  }

  ghost predicate NonNegative(caps: Caps) { forall stage :: caps(stage) >= 0 }

  /** By how much the last calls outran their estimates, over the stages where they did. */
  function ExcessSum(h: seq<Charge>, stages: seq<string>): int {
    if stages == [] then 0
    else (if LastExcess(h, stages[0]) > 0 then LastExcess(h, stages[0]) else 0) + ExcessSum(h, stages[1..])
  }

  lemma {:induction false} StageSumWithinCaps(caps: Caps, ceiling: real, h: seq<Charge>, stages: seq<string>)
    requires NonNegative(caps) && AdmittedBy(caps, ceiling, h)
    ensures StageSum(h, stages) <= CapSum(caps, stages) + ExcessSum(h, stages)
  {
    if stages != [] {
      StageWithinCap(caps, ceiling, h, stages[0]);
      StageSumWithinCaps(caps, ceiling, h, stages[1..]);
    }
  }

  /** Any admitted run, whatever its calls used: it passes its stages' caps by no more than
      each stage's last call outran its estimate. */
  lemma RunWithinCaps(caps: Caps, ceiling: real, h: seq<Charge>, stages: seq<string>)
    requires NonNegative(caps) && NoRepeats(stages) && AdmittedBy(caps, ceiling, h) && Within(h, stages)
    ensures Tokens(h) <= CapSum(caps, stages) + ExcessSum(h, stages)
  {
    TotalIsSumOverStages(h, stages);
    StageSumWithinCaps(caps, ceiling, h, stages);
  }

  // ------------------------------------------------- when no run passes the total

  /** Every call was estimated at a token or more, and outran its estimate by at most `over`. */
  ghost predicate Sized(h: seq<Charge>, over: nat) {
    forall i :: 0 <= i < |h| ==> 1 <= h[i].estimate && h[i].tokens <= h[i].estimate + over
  }

  /** The most a stage can use: nothing without a cap, else its cap and one overrun. */
  function Room(cap: int, over: nat): nat { if cap >= 1 then cap + over else 0 }

  function RoomSum(caps: Caps, stages: seq<string>, over: nat): nat {
    if stages == [] then 0 else RoomSum(caps, stages[..|stages| - 1], over) + Room(caps(stages[|stages| - 1]), over)
  }

  function BiggestCap(caps: Caps, stages: seq<string>): (cap: nat)
    ensures forall s :: s in stages ==> caps(s) <= cap
    ensures cap > 0 ==> exists s :: s in stages && caps(s) == cap
  {
    if stages == [] then 0
    else
      var front, last := BiggestCap(caps, stages[..|stages| - 1]), stages[|stages| - 1];
      assert stages == stages[..|stages| - 1] + [last];
      if caps(last) > front then caps(last) else front
  }

  /** No run over these stages uses more than so many tokens. */
  ghost predicate NeverExceeds(caps: Caps, ceiling: real, stages: seq<string>, over: nat, total: int) {
    forall h :: AdmittedBy(caps, ceiling, h) && Sized(h, over) && Within(h, stages) ==> Tokens(h) <= total
  }

  /** The tokens that must already be spent for the largest call to pass the total. */
  function Threshold(caps: Caps, stages: seq<string>, over: nat, total: int): nat {
    var before := total + 1 - Room(BiggestCap(caps, stages), over);
    if before > 0 then before else 0
  }

  lemma {:induction false} NotYetUsed(h: seq<Charge>, stages: seq<string>, stage: string)
    requires Within(h, stages) && stage !in stages
    ensures StageTokens(h, stage) == 0
  {
    if h != [] { NotYetUsed(h[..|h| - 1], stages, stage); }
  }

  lemma {:induction false} CostOfTokens(h: seq<Charge>)
    ensures Cost(h) == CostOf(Tokens(h))
  {
    if h != [] { CostOfTokens(h[..|h| - 1]); }
  }

  lemma CostMonotone(a: int, b: int)
    requires a <= b
    ensures CostOf(a) <= CostOf(b)
  {
  }

  /** Without a cap of its own a stage is never used. */
  lemma {:induction false} StageWithinRoom(caps: Caps, ceiling: real, h: seq<Charge>, over: nat, stage: string)
    requires AdmittedBy(caps, ceiling, h) && Sized(h, over)
    ensures StageTokens(h, stage) <= Room(caps(stage), over)
    decreases |h|
  {
    if h != [] {
      var front, last := h[..|h| - 1], h[|h| - 1];
      assert last.tokens <= last.estimate + over;
      StageWithinRoom(caps, ceiling, front, over, stage);
    }
  }

  lemma {:induction false} StageSumAppend(h: seq<Charge>, stages: seq<string>)
    requires stages != []
    ensures StageSum(h, stages) == StageSum(h, stages[..|stages| - 1]) + StageTokens(h, stages[|stages| - 1])
  {
    if |stages| > 1 {
      assert stages[1..][..|stages| - 2] == stages[..|stages| - 1][1..];
      StageSumAppend(h, stages[1..]);
    }
  }

  lemma {:induction false} StageSumWithinRoom(caps: Caps, ceiling: real, h: seq<Charge>, over: nat, stages: seq<string>)
    requires AdmittedBy(caps, ceiling, h) && Sized(h, over)
    ensures StageSum(h, stages) <= RoomSum(caps, stages, over)
  {
    if stages != [] {
      StageSumAppend(h, stages);
      StageWithinRoom(caps, ceiling, h, over, stages[|stages| - 1]);
      StageSumWithinRoom(caps, ceiling, h, over, stages[..|stages| - 1]);
    }
  }

  /** Where the ceiling is reached before the threshold, no call takes the run past the total. */
  lemma {:induction false} CeilingHolds(caps: Caps, ceiling: real, h: seq<Charge>, stages: seq<string>, over: nat,
        total: nat)
    requires AdmittedBy(caps, ceiling, h) && Sized(h, over) && Within(h, stages)
    requires ceiling <= CostOf(Threshold(caps, stages, over, total))
    ensures Tokens(h) <= total
    decreases |h|
  {
    if h != [] {
      var front, last := h[..|h| - 1], h[|h| - 1];
      CeilingHolds(caps, ceiling, front, stages, over, total);
      assert last.stage in stages && 1 <= last.estimate <= BiggestCap(caps, stages) &&
             last.tokens <= last.estimate + over;
      CostOfTokens(front);
      if Tokens(front) >= Threshold(caps, stages, over, total) {
        CostMonotone(Threshold(caps, stages, over, total), Tokens(front));
      }
    }
  }

  /** A run over these stages that uses exactly so many tokens. */
  lemma {:induction false} RunOf(caps: Caps, ceiling: real, stages: seq<string>, over: nat, tokens: nat)
    returns (h: seq<Charge>)
    requires NonNegative(caps) && NoRepeats(stages) && tokens <= RoomSum(caps, stages, over) && CostOf(tokens) < ceiling
    ensures AdmittedBy(caps, ceiling, h) && Sized(h, over) && Within(h, stages) && Tokens(h) == tokens
    decreases |stages|
  {
    if stages == [] { return []; }
    var front, last := stages[..|stages| - 1], stages[|stages| - 1];
    var first := if tokens <= RoomSum(caps, front, over) then tokens else RoomSum(caps, front, over);
    CostMonotone(first, tokens);
    h := RunOf(caps, ceiling, front, over, first);
    if first < tokens {
      NotYetUsed(h, front, last);
      CostOfTokens(h);
      h := OneMore(caps, ceiling, h, stages, over, Charge(last, caps(last), tokens - first));
    } else {
      WithinMore(h, front, stages);
    }
  }

  lemma WithinMore(h: seq<Charge>, front: seq<string>, stages: seq<string>)
    requires Within(h, front) && forall s :: s in front ==> s in stages
    ensures Within(h, stages)
  {
  }

  lemma OneMore(caps: Caps, ceiling: real, before: seq<Charge>, stages: seq<string>, over: nat, c: Charge)
    returns (h: seq<Charge>)
    requires AdmittedBy(caps, ceiling, before) && Sized(before, over) && c.stage in stages
    requires forall i :: 0 <= i < |before| ==> before[i].stage in stages
    requires Allowed(caps, ceiling, before, c.stage, c.estimate) && 1 <= c.estimate && c.tokens <= c.estimate + over
    ensures AdmittedBy(caps, ceiling, h) && Sized(h, over) && Within(h, stages) &&
            Tokens(h) == Tokens(before) + c.tokens
  {
    h := before + [c];
    AdmittedExtends(caps, ceiling, before, c);
    assert h[..|before|] == before;
  }

  function Without(caps: Caps, stage: string): Caps { (s: string) => if s == stage then 0 else caps(s) }

  lemma {:induction false} RoomWithout(caps: Caps, stages: seq<string>, over: nat, stage: string)
    requires NoRepeats(stages)
    ensures RoomSum(Without(caps, stage), stages, over)
            == RoomSum(caps, stages, over) - if stage in stages then Room(caps(stage), over) else 0
  {
    if stages != [] {
      RoomWithout(caps, stages[..|stages| - 1], over, stage);
      assert stages == stages[..|stages| - 1] + [stages[|stages| - 1]];
    }
  }

  lemma {:induction false} AdmittedWithMore(caps: Caps, ceiling: real, h: seq<Charge>, stage: string)
    requires caps(stage) >= 0 && AdmittedBy(Without(caps, stage), ceiling, h)
    ensures AdmittedBy(caps, ceiling, h)
  {
    if h != [] { AdmittedWithMore(caps, ceiling, h[..|h| - 1], stage); }
  }

  /** The worst run: the other stages spend up to the threshold, then one call takes the whole
      of the biggest cap. */
  lemma WorstRun(caps: Caps, ceiling: real, stages: seq<string>, over: nat, total: nat) returns (h: seq<Charge>)
    requires NonNegative(caps) && NoRepeats(stages)
    requires RoomSum(caps, stages, over) > total && CostOf(Threshold(caps, stages, over, total)) < ceiling
    ensures AdmittedBy(caps, ceiling, h) && Sized(h, over) && Within(h, stages) && Tokens(h) > total
  {
    SomeRoom(caps, stages, over);
    var cap := BiggestCap(caps, stages);
    var stage :| stage in stages && caps(stage) == cap;
    RoomWithout(caps, stages, over, stage);
    h := RunOf(Without(caps, stage), ceiling, stages, over, Threshold(caps, stages, over, total));
    StageWithinRoom(Without(caps, stage), ceiling, h, over, stage);
    AdmittedWithMore(caps, ceiling, h, stage);
    CostOfTokens(h);
    h := OneMore(caps, ceiling, h, stages, over, Charge(stage, cap, cap + over));
  }

  lemma {:induction false} SomeRoom(caps: Caps, stages: seq<string>, over: nat)
    requires RoomSum(caps, stages, over) > 0
    ensures BiggestCap(caps, stages) > 0
  {
    var front, last := stages[..|stages| - 1], stages[|stages| - 1];
    if RoomSum(caps, front, over) > 0 { SomeRoom(caps, front, over); }
  }

  lemma KeptIff(caps: Caps, ceiling: real, stages: seq<string>, over: nat, total: nat)
    requires NonNegative(caps) && NoRepeats(stages)
    ensures NeverExceeds(caps, ceiling, stages, over, total)
            <==> RoomSum(caps, stages, over) <= total || ceiling <= CostOf(Threshold(caps, stages, over, total))
  {
    forall h | AdmittedBy(caps, ceiling, h) && Sized(h, over) && Within(h, stages)
      ensures Tokens(h) <= RoomSum(caps, stages, over)
      ensures ceiling <= CostOf(Threshold(caps, stages, over, total)) ==> Tokens(h) <= total
    {
      TotalIsSumOverStages(h, stages);
      StageSumWithinRoom(caps, ceiling, h, over, stages);
      if ceiling <= CostOf(Threshold(caps, stages, over, total)) {
        CeilingHolds(caps, ceiling, h, stages, over, total);
      }
    }
    if RoomSum(caps, stages, over) > total && CostOf(Threshold(caps, stages, over, total)) < ceiling {
      var h := WorstRun(caps, ceiling, stages, over, total);
    }
  }

  /** The run manifest's schema: nothing negative. */
  ghost predicate ValidLimits(l: Limits) {
    l.totalTokens >= 0 && forall s :: s in l.perStage ==> l.perStage[s] >= 0.0
  }

  lemma CapNonNegative(l: Limits, stage: string)
    requires ValidLimits(l)
    ensures Cap(l, stage) >= 0
  {
    assert l.totalTokens as real * Fraction(l, stage) >= 0.0;
  }

  /** The total is no check of its own. For calls that outrun their estimates by at most `over`,
      a run keeps to it exactly when its stages have no more room than the total, or the cost
      ceiling stops it before the largest call could pass the total. */
  lemma TotalKeptIff(l: Limits, stages: seq<string>, over: nat)
    requires ValidLimits(l) && NoRepeats(stages)
    ensures NeverExceeds(CapsOf(l), l.costCeiling, stages, over, l.totalTokens)
            <==> || RoomSum(CapsOf(l), stages, over) <= l.totalTokens
                 || l.costCeiling <= CostOf(Threshold(CapsOf(l), stages, over, l.totalTokens))
  {
    forall stage ensures CapsOf(l)(stage) >= 0 { CapNonNegative(l, stage); }
    KeptIff(CapsOf(l), l.costCeiling, stages, over, l.totalTokens);
  }

  lemma FullCap(l: Limits, stage: string)
    requires stage !in l.perStage && l.totalTokens >= 0
    ensures Cap(l, stage) == l.totalTokens
  {
    assert l.totalTokens as real * 1.0 == l.totalTokens as real;
    assert (l.totalTokens as real).Floor == l.totalTokens;
  }

  /** Two stages without a fraction of their own keep to the total only under a ceiling that
      one token uses up, or, where a call can outrun its estimate, under one that admits no call. */
  lemma UnlistedStagesOverrun(l: Limits, a: string, b: string, over: nat)
    requires ValidLimits(l) && l.totalTokens >= 1 && a != b && a !in l.perStage && b !in l.perStage
    ensures NeverExceeds(CapsOf(l), l.costCeiling, [a, b], over, l.totalTokens)
            <==> l.costCeiling <= CostOf(if over == 0 then 1 else 0)
  {
    FullCap(l, a);
    FullCap(l, b);
    var caps, stages, total := CapsOf(l), [a, b], l.totalTokens;
    assert stages[..1] == [a] && stages[..1][..0] == [];
    assert RoomSum(caps, [a], over) == Room(total, over);
    assert RoomSum(caps, stages, over) == 2 * Room(total, over);
    assert a in stages && caps(a) == total;
    assert BiggestCap(caps, stages) == total;
    TotalKeptIff(l, stages, over);
  }
}
