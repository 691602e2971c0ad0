/**
 agents/model_gateway.py and agents/base.py: the provider's retry loop, the gateway call that
 checks and charges the budget, and the invocation loop over the validation ladder.
 */
module Agents {
  import opened Wrappers
  import opened Text
  import opened Budgets
  import opened Sequences
  import Documents

  /** A parsed JSON document. */
  type Json = Documents.Value

  datatype Failure =
    | TierHasNoModel | UnknownTier | ModelNotConfigured
    | OverBudget(scope: string)
    | ProviderOverloaded(detail: string) | ProviderBroken(detail: string)
    | SchemaValidationFailed(detail: string)
    | PromptNotRendered
    | WorkItemFailed(violations: seq<string>)
    | GuardrailViolation(violations: seq<string>)

  datatype Result<+T> = Ok(value: T) | Raised(failure: Failure)

  // ------------------------------------------------------------------- the provider

  /** Overloaded is the retried ModelProviderError, Broken any other exception. */
  datatype Reply =
    | Response(text: string, tokensIn: nat, tokensOut: nat)
    | Overloaded(detail: string)
    | Broken(detail: string)

  /** The model service: what the n-th request of the run would be answered. */
  class Provider {
    const answer: (nat, string, string) -> Reply
    var requests: nat

    constructor (answer: (nat, string, string) -> Reply)
      ensures this.answer == answer && requests == 0
    {
      this.answer := answer;
      requests := 0;
    }

    method Request(modelId: string, prompt: string) returns (reply: Reply)
      modifies this
      ensures requests == old(requests) + 1 && reply == answer(old(requests), modelId, prompt)
    {
      reply := answer(requests, modelId, prompt);
      requests := requests + 1;
    }
  }

  // -------------------------------------------------------------------- the gateway

  datatype TierConfig = TierConfig(modelId: Option<string>)

  /** One use of the gateway, as its caller saw it. */
  datatype GatewayCall = GatewayCall(tier: string, stage: string, prompt: string, result: Result<Json>)

  /** A token for every four characters, rounded down, and one at least. */
  function Estimate(prompt: string): (n: nat)
    ensures if |prompt| < 8 then n == 1 else 4 * n <= |prompt| < 4 * (n + 1)
  {
    if |prompt| / 4 > 1 then |prompt| / 4 else 1
  }

  /** How often one call may ask the provider. */
  function Tries(maxRetries: int): nat { if maxRetries > 0 then maxRetries + 1 else 1 }

  const NO_MODEL := "n/a"
  const NOT_JSON := SchemaValidationFailed("model output was not valid JSON")

  /** Why a call is refused before any provider request, with the checks in their order. */
  function Refusal(tiers: map<string, TierConfig>, tier: string, l: Limits, h: seq<Charge>, stage: string,
        prompt: string): Option<Failure>
  {
    if tier == "n/a" then Some(TierHasNoModel)
    else if tier !in tiers then Some(UnknownTier)
    else if tiers[tier].modelId.None? then Some(ModelNotConfigured)
    else if StageTokens(h, stage) + Estimate(prompt) > Cap(l, stage) then Some(OverBudget(stage))
    else if Cost(h) >= l.costCeiling then Some(OverBudget("run"))
    else None
  }

  datatype Settings = Settings(tiers: map<string, TierConfig>, maxProviderRetries: int, loads: string -> Option<Json>)

  /** What one call does to the charges (h to h') and to the request count (n to n'): refused, it
      touches neither; let through, it is charged for any answer, whatever its text turns out
      to be, and text that is not JSON then fails the call. */
  ghost predicate Serves(k: Settings, answer: (nat, string, string) -> Reply, tier: string, prompt: string,
        stage: string, l: Limits, h: seq<Charge>, h': seq<Charge>, n: nat, n': nat, r: Result<Json>) {
    var refusal := Refusal(k.tiers, tier, l, h, stage, prompt);
    if refusal.Some? then r == Raised(refusal.value) && n' == n && h' == h
    else
      && n < n' <= n + Tries(k.maxProviderRetries)
      && match answer(n' - 1, k.tiers[tier].modelId.value, prompt) {
           case Response(text, tokensIn, tokensOut) =>
             && h' == h + [Charge(stage, Estimate(prompt), tokensIn + tokensOut)]
             && r == (if k.loads(text).Some? then Ok(k.loads(text).value)
                else Raised(SchemaValidationFailed("model output was not valid JSON")))
           case Overloaded(detail) =>
             h' == h && r == Raised(ProviderOverloaded(detail)) && n' == n + Tries(k.maxProviderRetries)
           case Broken(detail) => h' == h && r == Raised(ProviderBroken(detail))
         }
  }

  class ModelGateway {
    const settings: Settings
    const provider: Provider
    ghost var calls: seq<GatewayCall>

    constructor (settings: Settings, provider: Provider)
      ensures this.settings == settings && this.provider == provider && calls == []
    {
      this.settings, this.provider := settings, provider;
      calls := [];
    }

    /** Asks until an answer is not an overload or the tries are used up. */
    method CallWithRetry(modelId: string, prompt: string) returns (reply: Reply)
      modifies provider
      ensures old(provider.requests) < provider.requests <= old(provider.requests) + Tries(settings.maxProviderRetries)
      ensures reply == provider.answer(provider.requests - 1, modelId, prompt)
      ensures forall n :: old(provider.requests) <= n < provider.requests - 1 ==>
              provider.answer(n, modelId, prompt).Overloaded?
      ensures reply.Overloaded? ==> provider.requests == old(provider.requests) + Tries(settings.maxProviderRetries)
    {
      var attempt := 0;
      while true
        invariant 0 <= attempt && provider.requests == old(provider.requests) + attempt
        invariant attempt < Tries(settings.maxProviderRetries)
        invariant forall n :: old(provider.requests) <= n < provider.requests ==>
                  provider.answer(n, modelId, prompt).Overloaded?
        decreases settings.maxProviderRetries - attempt
      {
        reply := provider.Request(modelId, prompt);
        if !reply.Overloaded? || attempt >= settings.maxProviderRetries { return; }
        attempt := attempt + 1;
      }
    }

    method Call(tier: string, prompt: string, stage: string, budget: Budget) returns (r: Result<Json>)
      requires budget.Valid()
      modifies this, provider, budget
      ensures budget.Valid() && calls == old(calls) + [GatewayCall(tier, stage, prompt, r)]
      ensures Serves(settings, provider.answer, tier, prompt, stage,
                     budget.limits, old(budget.history), budget.history, old(provider.requests), provider.requests, r)
    {
      r := Answer(tier, prompt, stage, budget);
      calls := calls + [GatewayCall(tier, stage, prompt, r)];
    }

    method Answer(tier: string, prompt: string, stage: string, budget: Budget) returns (r: Result<Json>)
      requires budget.Valid()
      modifies provider, budget
      ensures budget.Valid()
      ensures Serves(settings, provider.answer, tier, prompt, stage,
                     budget.limits, old(budget.history), budget.history, old(provider.requests), provider.requests, r)
    {
      if tier == NO_MODEL { return Raised(TierHasNoModel); }
      if tier !in settings.tiers { return Raised(UnknownTier); }
      var modelId := settings.tiers[tier].modelId;
      if modelId.None? { return Raised(ModelNotConfigured); }
      var estimate := Estimate(prompt);
      var exceeded := budget.Check(stage, estimate);
      if exceeded.Some? { return Raised(OverBudget(exceeded.value)); }
      var reply := CallWithRetry(modelId.value, prompt);
      match reply {
        case Overloaded(detail) => return Raised(ProviderOverloaded(detail));
        case Broken(detail) => return Raised(ProviderBroken(detail));
        case Response(text, tokensIn, tokensOut) =>
          budget.Record(stage, tokensIn + tokensOut, estimate);
          var parsed := settings.loads(text);
          if parsed.None? { return Raised(NOT_JSON); }
          return Ok(parsed.value);
      }
    }
  }

  // ------------------------------------------------------------ the validation ladder

  datatype Checks = Checks(
    schemaErrors: Json -> Option<string>, semantics: Json -> seq<string>, guardrails: Json -> seq<string>)

  datatype Verdict =
    | Failed(failure: Failure)
    | BadSchema(detail: string)
    | BadSemantics(violations: seq<string>)
    | Breach(violations: seq<string>)
    | Passed(output: Json)

  function Judge(k: Checks, r: Result<Json>): Verdict {
    match r
    case Raised(f) => Failed(f)
    case Ok(raw) =>
      if k.schemaErrors(raw).Some? then BadSchema(k.schemaErrors(raw).value)
      else if k.semantics(raw) != [] then BadSemantics(k.semantics(raw))
      else if k.guardrails(raw) != [] then Breach(k.guardrails(raw))
      else Passed(raw)
  }

  function SchemaFailures(k: Checks, calls: seq<GatewayCall>): nat {
    if calls == [] then 0
    else SchemaFailures(k, calls[..|calls| - 1]) + if Judge(k, calls[|calls| - 1].result).BadSchema? then 1 else 0
  }

  function SemanticFailures(k: Checks, calls: seq<GatewayCall>): nat {
    if calls == [] then 0
    else SemanticFailures(k, calls[..|calls| - 1]) + if Judge(k, calls[|calls| - 1].result).BadSemantics? then 1 else 0
  }

  /** The correction the next prompt carries. */
  function Correction(v: Verdict): Option<string> {
    match v
    case BadSchema(detail) => Some("Your previous output failed schema validation: " + detail +
        ". Correct it and try again.")
    case BadSemantics(violations) => Some("The following values were rejected: " + Join(violations, "; ") +
        ". Correct them and try again.")
    case _ => None
  }

  function NoteAfter(k: Checks, calls: seq<GatewayCall>): Option<string> {
    if calls == [] then None else Correction(Judge(k, calls[|calls| - 1].result))
  }

  /** What a call's verdict leads to, given the schema and semantic failures before it: None for
      another try, otherwise the invocation's result. */
  function Ending(v: Verdict, schemaFailures: nat, semanticFailures: nat): Option<Result<Json>> {
    match v
    case Failed(failure) => Some(Raised(failure))
    case BadSchema(_) => if schemaFailures < 2 then None else Some(Raised(WorkItemFailed([])))
    case BadSemantics(violations) => if semanticFailures < 1 then None else Some(Raised(WorkItemFailed(violations)))
    case Breach(violations) => Some(Raised(GuardrailViolation(violations)))
    case Passed(output) => Some(Ok(output))
  }

  /** The ending after the last of some calls; each prompt carries the correction of the call
      before it. */
  ghost predicate Reaches(k: Checks, render: Option<string> -> Option<string>, calls: seq<GatewayCall>,
        ending: Option<Result<Json>>)
    requires calls != []
    decreases |calls|, 0
  {
    var front, last := calls[..|calls| - 1], calls[|calls| - 1];
    && Retried(k, render, front) && render(NoteAfter(k, front)) == Some(last.prompt)
    && ending == Ending(Judge(k, last.result), SchemaFailures(k, front), SemanticFailures(k, front))
  }

  /** Every one of these calls was followed by another try. */
  ghost predicate Retried(k: Checks, render: Option<string> -> Option<string>, calls: seq<GatewayCall>)
    decreases |calls|, 1
  {
    calls == [] || Reaches(k, render, calls, None)
  }

  /** How an invocation ends after those calls. */
  ghost predicate Concludes(k: Checks, render: Option<string> -> Option<string>, calls: seq<GatewayCall>,
        r: Result<Json>)
  {
    || (Retried(k, render, calls) && render(NoteAfter(k, calls)).None? && r == Raised(PromptNotRendered))
    || (calls != [] && Reaches(k, render, calls, Some(r)))
  }

  ghost predicate AllFor(tier: string, stage: string, calls: seq<GatewayCall>) {
    forall i :: 0 <= i < |calls| ==> calls[i].tier == tier && calls[i].stage == stage
  }

  class ToolGateway {
    var writes: seq<(string, Json)>

    constructor ()
      ensures writes == []
    {
      writes := [];
    }

    method Write(agentId: string, output: Json)
      modifies this
      ensures writes == old(writes) + [(agentId, output)]
    {
      writes := writes + [(agentId, output)];
    }
  }

  /** What so many gateway calls may have done: each asked the provider Tries times at most and
      was charged at most once, to this stage and only after passing the budget's check. */
  ghost predicate Accounted(maxRetries: int, l: Limits, stage: string, calls: nat, h: seq<Charge>, h': seq<Charge>,
        n: nat, n': nat)
  {
    && n <= n' <= n + calls * Tries(maxRetries)
    && h <= h' && |h'| <= |h| + calls
    && (forall i :: |h| <= i < |h'| ==> h'[i].stage == stage && h'[i].estimate >= 1)
    && (Admitted(l, h) ==> Admitted(l, h'))
  }

  class Agent {
    const agentId: string
    const tier: string
    const checks: Checks
    const render: Option<string> -> Option<string>

    constructor (agentId: string, tier: string, checks: Checks, render: Option<string> -> Option<string>)
      ensures this.agentId == agentId && this.tier == tier && this.checks == checks && this.render == render
    {
      this.agentId, this.tier, this.checks, this.render := agentId, tier, checks, render;
    }

    /** The one write is of an output that passed every check. */
    method Invoke(stage: string, gateway: ModelGateway, budget: Budget, tools: ToolGateway)
      returns (r: Result<Json>, ghost made: seq<GatewayCall>)
      requires budget.Valid()
      modifies gateway, gateway.provider, budget, tools
      ensures budget.Valid() && gateway.calls == old(gateway.calls) + made
      ensures Concludes(checks, render, made, r) && |made| <= 4 && AllFor(tier, stage, made)
      ensures Accounted(gateway.settings.maxProviderRetries, budget.limits, stage, |made|, old(budget.history),
              budget.history, old(gateway.provider.requests), gateway.provider.requests)
      ensures tools.writes == old(tools.writes) + if r.Ok? then [(agentId, r.value)] else []
    {
      r, made := Climb(stage, gateway, budget);
      FourCallsAtMost(checks, render, made, r);
      if r.Ok? { tools.Write(agentId, r.value); }
    }

    /** The gateway call stands outside the retried part: whatever it raises ends the
        invocation. */
    method Climb(stage: string, gateway: ModelGateway, budget: Budget)
      returns (r: Result<Json>, ghost made: seq<GatewayCall>)
      requires budget.Valid()
      modifies gateway, gateway.provider, budget
      ensures budget.Valid() && gateway.calls == old(gateway.calls) + made
      ensures Concludes(checks, render, made, r) && AllFor(tier, stage, made)
      ensures Accounted(gateway.settings.maxProviderRetries, budget.limits, stage, |made|, old(budget.history),
              budget.history, old(gateway.provider.requests), gateway.provider.requests)
    {
      var schemaRetriesLeft, semanticRetriesLeft := 2, 1;
      var note: Option<string> := None;
      made := [];
      while true
        invariant budget.Valid() && gateway.calls == old(gateway.calls) + made
        invariant Retried(checks, render, made) && AllFor(tier, stage, made) && note == NoteAfter(checks, made)
        invariant SchemaFailures(checks, made) == 2 - schemaRetriesLeft &&
                  SemanticFailures(checks, made) == 1 - semanticRetriesLeft
        invariant schemaRetriesLeft >= 0 && semanticRetriesLeft >= 0
        invariant Accounted(gateway.settings.maxProviderRetries, budget.limits, stage, |made|, old(budget.history),
                  budget.history, old(gateway.provider.requests), gateway.provider.requests)
        decreases schemaRetriesLeft + semanticRetriesLeft
      {
        var prompt := render(note);
        if prompt.None? { return Raised(PromptNotRendered), made; }
        var v, ending;
        v, made := Rung(prompt.value, stage, gateway, budget, old(gateway.calls), made, old(budget.history),
            old(gateway.provider.requests));
        ending, schemaRetriesLeft, semanticRetriesLeft := Rule(v, schemaRetriesLeft, semanticRetriesLeft);
        if ending.Some? { return ending.value, made; }
        note := Correction(v);
      }
    }

    method Rule(v: Verdict, schemaLeft: int, semanticLeft: int)
      returns (ending: Option<Result<Json>>, schemaRetriesLeft: int, semanticRetriesLeft: int)
      requires 0 <= schemaLeft <= 2 && 0 <= semanticLeft <= 1
      ensures ending == Ending(v, 2 - schemaLeft, 1 - semanticLeft)
      ensures ending.None? ==>
                && schemaRetriesLeft == schemaLeft - (if v.BadSchema? then 1 else 0) && schemaRetriesLeft >= 0
                && semanticRetriesLeft == semanticLeft - (if v.BadSemantics? then 1 else 0) && semanticRetriesLeft >= 0
                && (v.BadSchema? || v.BadSemantics?)
    {
      schemaRetriesLeft, semanticRetriesLeft, ending := schemaLeft, semanticLeft, None;
      match v {
        case Failed(failure) => ending := Some(Raised(failure));
        case BadSchema(detail) =>
          if schemaLeft > 0 {
            schemaRetriesLeft := schemaLeft - 1;
          } else {
            ending := Some(Raised(WorkItemFailed([])));
          }
        case BadSemantics(violations) =>
          if semanticLeft > 0 {
            semanticRetriesLeft := semanticLeft - 1;
          } else {
            ending := Some(Raised(WorkItemFailed(violations)));
          }
        case Breach(violations) => ending := Some(Raised(GuardrailViolation(violations)));
        case Passed(output) => ending := Some(Ok(output));
      }
    }

    /** One more call of an invocation that has made some: what it adds to the record. */
    method Rung(prompt: string, stage: string, gateway: ModelGateway, budget: Budget,
                ghost before: seq<GatewayCall>, ghost made: seq<GatewayCall>, ghost h: seq<Charge>, ghost n: nat)
      returns (v: Verdict, ghost now: seq<GatewayCall>)
      requires budget.Valid() && gateway.calls == before + made
      requires Retried(checks, render, made) && AllFor(tier, stage, made) &&
               render(NoteAfter(checks, made)) == Some(prompt)
      requires Accounted(gateway.settings.maxProviderRetries, budget.limits, stage, |made|, h, budget.history, n,
               gateway.provider.requests)
      modifies gateway, gateway.provider, budget
      ensures budget.Valid() && gateway.calls == before + now && |now| == |made| + 1 && AllFor(tier, stage, now)
      ensures Accounted(gateway.settings.maxProviderRetries, budget.limits, stage, |now|, h, budget.history, n,
              gateway.provider.requests)
      ensures var ending := Ending(v, SchemaFailures(checks, made), SemanticFailures(checks, made));
              if ending.None? then Retried(checks, render, now) else Concludes(checks, render, now, ending.value)
      ensures NoteAfter(checks, now) == Correction(v)
      ensures SchemaFailures(checks, now) == SchemaFailures(checks, made) + if v.BadSchema? then 1 else 0
      ensures SemanticFailures(checks, now) == SemanticFailures(checks, made) + if v.BadSemantics? then 1 else 0
    {
      ghost var raw;
      v, raw := Consult(prompt, stage, gateway, budget, |made|, h, n);
      AfterCall(checks, render, made, GatewayCall(tier, stage, prompt, raw));
      Regroup(before, made, [GatewayCall(tier, stage, prompt, raw)]);
      now := made + [GatewayCall(tier, stage, prompt, raw)];
    }

    /** One gateway call and the checks on what it returns, in their order. */
    method Consult(prompt: string, stage: string, gateway: ModelGateway, budget: Budget, ghost calls: nat,
          ghost h: seq<Charge>, ghost n: nat)
      returns (v: Verdict, ghost raw: Result<Json>)
      requires budget.Valid()
      requires Accounted(gateway.settings.maxProviderRetries, budget.limits, stage, calls, h, budget.history, n,
               gateway.provider.requests)
      modifies gateway, gateway.provider, budget
      ensures budget.Valid() && gateway.calls == old(gateway.calls) + [GatewayCall(tier, stage, prompt, raw)] &&
              v == Judge(checks, raw)
      ensures Accounted(gateway.settings.maxProviderRetries, budget.limits, stage, calls + 1, h, budget.history, n,
              gateway.provider.requests)
    {
      var answer := gateway.Call(tier, prompt, stage, budget);
      raw := answer;
      OneCharge(gateway.settings, gateway.provider.answer, tier, prompt, stage, budget.limits,
                old(budget.history), budget.history, old(gateway.provider.requests), gateway.provider.requests, answer);
      AccountsAddUp(gateway.settings.maxProviderRetries, budget.limits, stage, calls, h, old(budget.history),
          budget.history, n, old(gateway.provider.requests), gateway.provider.requests);
      if answer.Raised? { return Failed(answer.failure), answer; }
      var schemaError := checks.schemaErrors(answer.value);
      if schemaError.Some? { return BadSchema(schemaError.value), answer; }
      var semanticViolations := checks.semantics(answer.value);
      if semanticViolations != [] { return BadSemantics(semanticViolations), answer; }
      var guardrailViolations := checks.guardrails(answer.value);
      if guardrailViolations != [] { return Breach(guardrailViolations), answer; }
      return Passed(answer.value), answer;
    }
  }

  /** A call that is charged was let through by the budget's check. */
  lemma OneCharge(k: Settings, answer: (nat, string, string) -> Reply, tier: string, prompt: string, stage: string,
                  l: Limits, h: seq<Charge>, h': seq<Charge>, n: nat, n': nat, r: Result<Json>)
    requires Serves(k, answer, tier, prompt, stage, l, h, h', n, n', r)
    ensures Accounted(k.maxProviderRetries, l, stage, 1, h, h', n, n')
  {
    if h' != h && Admitted(l, h) { AdmittedExtends(CapsOf(l), l.costCeiling, h, h'[|h|]); }
  }

  lemma AccountsAddUp(maxRetries: int, l: Limits, stage: string, calls: nat, h: seq<Charge>, mid: seq<Charge>,
        h': seq<Charge>, n: nat, m: nat, n': nat)
    requires Accounted(maxRetries, l, stage, calls, h, mid, n, m) && Accounted(maxRetries, l, stage, 1, mid, h', m, n')
    ensures Accounted(maxRetries, l, stage, calls + 1, h, h', n, n')
  {
    assert (calls + 1) * Tries(maxRetries) == calls * Tries(maxRetries) + Tries(maxRetries);
    forall i | |h| <= i < |h'| ensures h'[i].stage == stage && h'[i].estimate >= 1 {
      if i < |mid| { assert h'[i] == mid[i]; }
    }
  }

  lemma AfterCall(k: Checks, render: Option<string> -> Option<string>, made: seq<GatewayCall>, call: GatewayCall)
    requires Retried(k, render, made) && render(NoteAfter(k, made)) == Some(call.prompt)
    ensures var now, v := made + [call], Judge(k, call.result);
            var ending := Ending(v, SchemaFailures(k, made), SemanticFailures(k, made));
            && (if ending.None? then Retried(k, render, now) else Concludes(k, render, now, ending.value))
            && NoteAfter(k, now) == Correction(v)
            && SchemaFailures(k, now) == SchemaFailures(k, made) + (if v.BadSchema? then 1 else 0)
            && SemanticFailures(k, now) == SemanticFailures(k, made) + if v.BadSemantics? then 1 else 0
  {
    var now, v := made + [call], Judge(k, call.result);
    assert now[..|made|] == made;
    assert Reaches(k, render, now, Ending(v, SchemaFailures(k, made), SemanticFailures(k, made)));
  }

  // ------------------------------------------------------------------- consequences

  /** Retried calls failed the schema twice at most and the semantic checks once at most. */
  lemma {:induction false} RetriedBounds(k: Checks, render: Option<string> -> Option<string>, calls: seq<GatewayCall>)
    requires Retried(k, render, calls)
    ensures SchemaFailures(k, calls) <= 2 && SemanticFailures(k, calls) <= 1
    ensures |calls| == SchemaFailures(k, calls) + SemanticFailures(k, calls)
  {
    if calls != [] { RetriedBounds(k, render, calls[..|calls| - 1]); }
  }

  lemma FourCallsAtMost(k: Checks, render: Option<string> -> Option<string>, calls: seq<GatewayCall>, r: Result<Json>)
    requires Concludes(k, render, calls, r)
    ensures |calls| <= 4
  {
    if Retried(k, render, calls) {
      RetriedBounds(k, render, calls);
    } else {
      RetriedBounds(k, render, calls[..|calls| - 1]);
    }
  }

  lemma {:induction false} NotedPrompt(k: Checks, render: Option<string> -> Option<string>, calls: seq<GatewayCall>,
        ending: Option<Result<Json>>, i: nat)
    requires calls != [] && Reaches(k, render, calls, ending) && i < |calls|
    ensures render(NoteAfter(k, calls[..i])) == Some(calls[i].prompt)
    ensures i > 0 ==> Judge(k, calls[i - 1].result).BadSchema? || Judge(k, calls[i - 1].result).BadSemantics?
    decreases |calls|
  {
    if i < |calls| - 1 {
      assert calls[..|calls| - 1][..i] == calls[..i];
      NotedPrompt(k, render, calls[..|calls| - 1], None, i);
    } else if i > 0 {
      RetriedEach(k, render, calls[..i], i - 1);
    }
  }

  /** The first prompt carries no correction; every later one names what the checks found in the
      reply before it, the schema's complaint first. */
  lemma PromptsCarry(k: Checks, render: Option<string> -> Option<string>, calls: seq<GatewayCall>, r: Result<Json>,
        i: nat)
    requires Concludes(k, render, calls, r) && i < |calls|
    ensures i == 0 ==> render(None) == Some(calls[i].prompt)
    ensures i > 0 ==>
              && calls[i - 1].result.Ok?
              && var raw := calls[i - 1].result.value;
                 var note :=
                   if k.schemaErrors(raw).Some? then
                     "Your previous output failed schema validation: " + k.schemaErrors(raw).value +
                     ". Correct it and try again."
                   else
                     "The following values were rejected: " + Join(k.semantics(raw), "; ") +
                     ". Correct them and try again.";
                 && (k.schemaErrors(raw).None? ==> k.semantics(raw) != [])
                 && render(Some(note)) == Some(calls[i].prompt)
  {
    if Retried(k, render, calls) {
      NotedPrompt(k, render, calls, None, i);
    } else {
      NotedPrompt(k, render, calls, Some(r), i);
    }
    assert i > 0 ==> calls[..i][i - 1] == calls[i - 1];
  }

  /** An invocation gives up on the schema at the third failure and on the semantic checks at
      the second; what it returns is its last reply and passed every check. */
  lemma ConcludesExactly(k: Checks, render: Option<string> -> Option<string>, calls: seq<GatewayCall>, r: Result<Json>)
    requires Concludes(k, render, calls, r) && r != Raised(PromptNotRendered)
    ensures calls != []
    ensures r.Ok? ==>
              && calls[|calls| - 1].result == r && k.schemaErrors(r.value).None? && k.semantics(r.value) == []
              && k.guardrails(r.value) == []
    ensures Judge(k, calls[|calls| - 1].result).BadSchema? ==> SchemaFailures(k, calls) == 3
    ensures Judge(k, calls[|calls| - 1].result).BadSemantics? ==> SemanticFailures(k, calls) == 2
  {
    RetriedBounds(k, render, calls[..|calls| - 1]);
  }

  lemma {:induction false} RetriedEach(k: Checks, render: Option<string> -> Option<string>, calls: seq<GatewayCall>,
        i: nat)
    requires Retried(k, render, calls) && i < |calls|
    ensures Judge(k, calls[i].result).BadSchema? || Judge(k, calls[i].result).BadSemantics?
    decreases |calls|
  {
    if i < |calls| - 1 { RetriedEach(k, render, calls[..|calls| - 1], i); }
  }

  /** Whatever the gateway raises, a reply that is not JSON included, is never retried: it can
      only be the last call, and it is the invocation's own failure. */
  lemma RaisedIsNeverRetried(k: Checks, render: Option<string> -> Option<string>, calls: seq<GatewayCall>,
        r: Result<Json>, i: nat)
    requires Concludes(k, render, calls, r) && i < |calls| && calls[i].result.Raised?
    ensures i == |calls| - 1 && r == calls[i].result
  {
    if Retried(k, render, calls) {
      RetriedEach(k, render, calls, i);
    } else if i < |calls| - 1 {
      RetriedEach(k, render, calls[..|calls| - 1], i);
    }
  }

  /** A breach of the guardrails gets no retry either. */
  lemma BreachIsNeverRetried(k: Checks, render: Option<string> -> Option<string>, calls: seq<GatewayCall>,
        r: Result<Json>, i: nat)
    requires Concludes(k, render, calls, r) && i < |calls| && Judge(k, calls[i].result).Breach?
    ensures i == |calls| - 1 && r == Raised(GuardrailViolation(k.guardrails(calls[i].result.value)))
  {
    if Retried(k, render, calls) {
      RetriedEach(k, render, calls, i);
    } else if i < |calls| - 1 {
      RetriedEach(k, render, calls[..|calls| - 1], i);
    }
  }
}
