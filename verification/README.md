# A verified model of the mapping platform's core

The repository turns regional interface descriptions into a canonical model: it profiles attributes, clusters them
deterministically, scores coverage, compiles mappings that run in both directions, and keeps an egress ledger beside
everything that leaves a region. This project models that core in Dafny and proves what it promises.
`dafny verify dfyconfig.toml` checks the whole of it.

| files | what they model |
|---|---|
| `Documents`, `Objects`, `Transforms`, `TransformResults`, `TransformParser`, `TransformPrinter`, `Interpreter`, `Compiler`, `CompileRules`, `TypeFit` | the mapping language: nested documents as values and as dictionaries with identity, fourteen transforms and what each gives, the hand-written parser, the static checks and what they let through, plans run forward and in reverse |
| `RoundTrip`, `SharedPaths`, `Aliasing`, `InstanceAfter`, `RoundTripTests`, `CanonicalDocument`, `LossySpecs` | the round trip over values, plans whose paths meet, when runs over shared dictionaries are runs over values, what forward leaves in the instance, the round-trip gate, what the canonical document holds path by path, and two specs that lose data |
| `Attributes`, `Similarity`, `ScoreParts`, `Graph`, `Signals`, `Conflict`, `Clustering` | pair scoring and what each weight pays for, connected components, the homonym signals, the cut that silences them, cluster assembly |
| `Ledger`, `EntryIds`, `Manifest` | the per-region hash chain, its independent verifier, entry ids read back, the sequencer that caches a chain's head during a run |
| `Redaction`, `RedactionOrder` | iterated replacement of masked values by tokens |
| `Coverage`, `Gates` | the concept universe, the weighted score, the three gates, the gap register |
| `Retrieval`, `Chunking` | the tie-broken ranking, reciprocal-rank fusion, overlapping word windows |
| `Budget`, `Agents` | the run's budget, the provider's retry loop, the invocation loop over the validation ladder |
| `Wrappers`, `Sequences`, `Text`, `Order`, `Numeric` | optional values, facts about sequences, `split`/`join`/`str`, `sorted`, `int` |

Code that updates state is modelled by methods with loops, and by classes where the program has objects that change
(`Plan`, `LedgerStore`, `LedgerSequencer`, `Budget`, `ModelGateway`, `ToolGateway`, `Agent`). Each such method is tied
to a function of its inputs or of the old state, and the results below are about those functions. A `Provider` object
stands for the model service: its `answer` says what the n-th request of the run would be answered.

`identity` hands on the instance's own dictionary, and a later write below it changes the instance too. So plans are run
over objects: a dictionary carries its identity, and assigning to it shows wherever it stands (`Objects.Assign`). Values
are what objects show (`Objects.Erase`), and the theorems say when a run over objects is a run over values.

Exceptions are values: `Failed` is a `TransformError`, `Crashed`, `Broke` and `CompileBroke` are any other Python
exception (a missing keyword argument, an unknown transform name, a write through a non-dictionary). Dates, time zones,
regular expressions, case folding, embeddings, blocking, SHA-256 and HMAC are parameters. Where a result needs a law of
one of them (a digest without collisions, tokens that differ, a format that prints what it parsed) the law is a
hypothesis of that result. Numbers are reals.

## Where the code differs from its documentation

The model follows the code.

- `mapping/transforms.py` says that the separator of `concat` is checked statically; the compiler has no such check.
  `Transforms.ConcatInverts` gives the exact condition under which `concat` comes back, for separators of any length:
  strings, no part but the last letting the separator start inside it, and the last free of it.
- An unknown transform name is never a compile error. In a bidirectional spec it raises `KeyError`; in any other it
  does so in the plan builder, unless a call without a reverse stands before it and hides it. A mapping with neither a
  disposition nor a transform passes every check and then raises `KeyError` too. `Compiler.CompilesIffAcceptable` says
  which specs compile.
- `coalesce` is documented as `[T] -> T`, but type inference passes over it: a chain that ends in it is taken for the
  type of the list it is given (`TypeFit.CoalesceMisleads`). Where no `coalesce` follows the last call that fixes a
  type, the inferred type is the type of what the chain gives (`TypeFit.InferredTypeFits`).
- Nothing checks that canonical paths are prefix-free: two entries onto one path compile
  (`LossySpecs.TwoOntoOneCompiles`), and the round-trip gate sees an undeclared loss wherever the two values differ
  (`LossySpecs.TwoOntoOneLoses`). In any plan over separate region paths a step gets back its chain undone on what its
  path ended up holding (`SharedPaths.TripGivesBack`): of steps onto one path the last decides
  (`SharedPaths.SharedPathIff`), a later write above replaces the value by a part of its own
  (`SharedPaths.LaterAtOrAbove`), and a later write below is put into it, or raises where it is no dictionary
  (`SharedPaths.LaterBelow`, `InstanceAfter.ForwardBelowRaises`).
- The round-trip gate promises that no undeclared loss passes. The differ compares with the instance as forward has left
  it, and a write below a copied dictionary has changed both sides. A spec that copies `whole` to `c` and `part` to `c.k`
  compiles (`LossySpecs.IntoACopyCompiles`); its gate opens on every set of instances with a dictionary at `whole`, as
  all the generated ones have (`LossySpecs.GatePassesLossySpec`), and what comes back at `whole.k` is the value of `part`
  (`LossySpecs.LossUnseen`). Exactly which losses are reported is `RoundTripTests.LossesExact`: a step that only copies
  never is while no later write covers its path (`RoundTripTests.CopyNeverReported`), any other exactly when its value
  does not come back (`RoundTripTests.OthersReportedIff`).
- Nothing checks that region paths are separate either. Where one lies below another, a later step can read what an
  earlier one wrote into the instance (`LossySpecs.OverlappingRegions`).
- `has_absent_in_sibling_region` is described as looking at a member from a different region; the code does not compare
  regions. It fires without such a pair exactly on groups of one region that hold both kinds of level
  (`Signals.FiresWithoutSiblingIff`, and `Signals.OneRegionFires` for a group of two).
- A comment in `_interval_overlap` takes two intervals unbounded on the same side for identical; they score 1 whatever
  their other bounds. `Similarity.FullOverlapIff` says exactly when two sides score 1: inverted bounds such as 3 to 2
  beside 3 to 3 do as well.
- A comment in `redact()` says that a value contained in a longer one is gone once the longer one is replaced, and so it
  is. The comment does not speak of values that overlap without nesting: of two such values the tail of the second
  stays in the text (`RedactionOrder.OverlapLeaks`); `RedactionOrder.TwoValuesExactly` says what is left of any text. The
  empty value never goes away
  (`Redaction.MaskedValueGoneIffNonEmpty`).
- Adding a concept can raise the coverage score even when it is a gap, if it is evidenced, ratified and the gap weight
  is positive (`Coverage.RatifiedGapCanRaise`); `Coverage.AddingRaisesIff` says exactly when a score rises.
- Gate 2 compares the unrounded domain score but the rounded region scores, and a region nobody contributes to closes it
  (`Gates.EmptyRegionClosesGate2`).
- The ledger's verifier catches every deletion, duplication, swap and alteration of interior entries; it cannot see
  entries cut off the end (`Ledger.RearrangementCaught`).
- `Budget` promises that a run cannot exceed its ceiling. Only stage caps and, before each call, the cost ceiling are
  checked; `total_tokens` bounds nothing by itself. `Budgets.RunWithinCaps` bounds every admitted run by its stages' caps
  and what their last calls used beyond their estimates; for calls that outrun their estimates by no more than a given
  number, `Budgets.TotalKeptIff` says exactly when no run passes the total.
- The retry table promises two retries for a schema failure. A reply that is not JSON raises the same exception from
  the gateway call, which stands outside the `try`, and ends the invocation at once (`Agents.RaisedIsNeverRetried`).

## Model

| member | source | states |
|---|---|---|
| `Objects.ReadPath` | mapping/interpreter.py:140-148 | the loop finds the object at the path, which shows the value there; a missing key, a non-dictionary and a null all read as null |
| `Documents.WriteSucceedsIffOpen` | mapping/interpreter.py:151-158 | a write raises exactly when something other than a dictionary stands above its last key |
| `Documents.ReadAfterWrite` | mapping/interpreter.py:140-158 | what was written at a path is read back there |
| `Documents.WriteTwice` | mapping/interpreter.py:151-158 | a second write to the same path leaves what it alone would have left |
| `Documents.WriteFrame` | mapping/interpreter.py:140-158 | a write changes neither the value nor the writability of any path that is not above or below its own |
| `Documents.WritesCommute` | mapping/interpreter.py:151-158 | writes to two such paths give the same document in either order |
| `Documents.FindAfterWrite` | mapping/interpreter.py:140-158 | what any path holds after any write: a part of the value for a path at or below the one written, the old value with the new one inside for a path above, the old value elsewhere |
| `Documents.OpenIffDictionariesAbove` | mapping/interpreter.py:151-158 | a path can be written exactly when nothing but dictionaries stands above it |
| `Objects.AssignBeside` | mapping/interpreter.py:151-158 | an assignment to a dictionary that is not on the way to a path changes what stands there only from within, wherever the dictionary occurs in it |
| `Objects.PutErases` | mapping/interpreter.py:151-158 | where the dictionary it assigns to stands only once, a write to the objects is a write to their values |
| `Objects.PutStands` | mapping/interpreter.py:151-158 | after a write every dictionary stands where it stood, inside what was written, or on the way there, just created |
| `TransformParser.SplitTopLevel` | mapping/parser.py:114-157 | the scanner's pieces are those of the specification, for any separator that is not empty |
| `TransformParser.PiecesRestoreText` | mapping/parser.py:114-157 | for any text, joining the pieces with the separator restores it |
| `TransformParser.FillArgs` | mapping/parser.py:65-85 | the argument loop: keyword arguments, one positional value at most, and where it raises |
| `TransformPrinter.ValueParses` | mapping/parser.py:98-111 | a printed string, integer, decimal, boolean, bare word or nested `constant(...)` of any of them parses to its meaning, whatever commas, brackets or arrows the string holds |
| `TransformPrinter.ArgParses` | mapping/parser.py:88-95 | a printed keyword argument parses to its key and value, and the positional one of `constant` to its value |
| `TransformPrinter.CallsParse` | mapping/parser.py:56-85 | a printed list of calls parses call by call |
| `TransformPrinter.PrintThenParse` | mapping/parser.py:56-157 | printing a chain of one to three calls and parsing it gives the chain back |
| `Transforms.ValueMapInverts` | mapping/transforms.py:154-189 | a value comes back exactly when it is a string that is the last key with its target, or passes through and is nobody's target |
| `Transforms.InjectiveMapRecovers` | mapping/transforms.py:154-189 | for an injective map the only loss left is a passed-through value that is some key's target |
| `Transforms.ConcatInverts` | mapping/transforms.py:271-289 | `concat` comes back exactly for lists of strings, not empty, in which the separator starts nowhere in a part read together with the separator after it and does not occur in the last part |
| `Transforms.ScaleInverts` | mapping/transforms.py:319-330 | with a non-zero factor and no other, numbers come back as they were, and booleans as the numbers Python takes them for |
| `Transforms.InvertibleExactly` | mapping/transforms.py:348-475 | for each of the fourteen transforms and every value: reverse undoes forward, exactly or up to Python's `==`, if and only if the stated guard or library law holds there |
| `Transforms.ChainRoundTrips` | mapping/interpreter.py:75-104 | a chain undone from its last call to its first recovers the value it was given |
| `TransformResults.ForwardExact` | mapping/transforms.py:94-345 | for each transform, every call and every value, what it gives (date or moment, first row of the map, amount and currency, value with scheme and issuer, pattern's parts, joined text, first item not null, literal, product, case), which values it refuses with a `TransformError`, and that everything else is another exception |
| `TransformResults.ReverseExact` | mapping/transforms.py:94-475 | the same for undoing each of them: the last row with the target, the amount, the value field, the parts the separator keeps apart, the quotient; always refused for `coalesce` and `constant` |
| `TransformResults.ChainPasses` | mapping/interpreter.py:75-87 | a chain hands each call's result to the next, from the given value to its own result |
| `Interpreter.Plan.RunChain` | mapping/interpreter.py:75-87 | the forward fold of a chain, stopping at the first failure |
| `Interpreter.Plan.UndoChain` | mapping/interpreter.py:89-104 | the reverse fold, from the last call to the first |
| `Interpreter.Plan.Attempt` | mapping/interpreter.py:106-113 | the four failure policies: what is written, what is recorded, what is raised |
| `Interpreter.Plan.Forward` | mapping/interpreter.py:75-87 | the canonical document and the instance as the loop leaves them, how it ended, and exactly which escalations it appends |
| `Interpreter.Plan.Reverse` | mapping/interpreter.py:89-104 | the same for reverse, over the reversible mapped steps, with the documents still alive |
| `Interpreter.RunPointwise` | mapping/interpreter.py:75-113 | over prefix-free targets a run that ends normally leaves at each target just what its own step left, and every separate path unchanged |
| `Interpreter.EscalationsExact` | mapping/interpreter.py:106-113 | the recorded escalations are the failed steps that asked for it, all of them on a normal end |
| `Interpreter.ForwardStep` | mapping/interpreter.py:75-113 | one step more: a step without a disposition reads the instance at its region path, runs its chain and writes at its canonical path, null under the default policy; reject ends the run, escalate records the step, skip leaves everything |
| `Interpreter.ReverseStep` | mapping/interpreter.py:89-113 | the same from the canonical path back to the region path, for the reversible steps alone |
| `Compiler.InferOutputType` | mapping/compiler.py:75-86 | the type is the one fixed by the last call that fixes one, none for `constant`, and the source's when no call does |
| `TypeFit.InferredTypeFits` | mapping/compiler.py:75-86 | the value a chain gives has the type inferred for the chain, for every chain in which no `coalesce` follows the last call that fixes a type |
| `TypeFit.CoalesceMisleads` | mapping/compiler.py:75-86 | with such a `coalesce` it need not: a chain, a list and the text it gives, inferred to be an array |
| `CompileRules.CompileSpec` | mapping/compiler.py:95-233 | errors or a plan, and nothing else, unless a name cannot be looked up or an entry has no chain: the errors are exactly the uncovered records and the rules each entry breaks, and the plan has one step for each entry that takes from it what `StepsFollowEntries` says |
| `Compiler.InjectiveByCount` | mapping/compiler.py:161-168 | comparing the number of distinct targets with the number of entries decides injectivity |
| `Compiler.CompilesIffAcceptable` | mapping/compiler.py:95-233 | a spec compiles if and only if every path is covered and every mapping meets every rule |
| `CompileRules.ErrorsExact` | mapping/compiler.py:95-186 | which errors a failed compilation reports: T1 for each record no entry claims, and under each entry's canonical path PARSE, T2 (weight 5 with skip or default), T3 (a type that neither is the expected one nor widens to it), T4 (no map, a value without a row or a policy, two rows for one target both ways) and D1 (`coalesce` or `constant` both ways), each exactly where it holds |
| `CompileRules.OutcomeExact` | mapping/compiler.py:95-233 | when compiling ends with errors and when with a plan; otherwise it raises, at a name D1 looks up or where the builder finds no chain or meets an unknown name before any call without a reverse |
| `CompileRules.LastRecordFound` | mapping/compiler.py:101-138 | of several records with one path the last is the entry's source; a missing or empty path has none |
| `CompileRules.StepsFollowEntries` | mapping/compiler.py:189-247 | one step for each entry, in order, with its weight (0 when none), canonical path (none for a disposition), region path, disposition, note and failure policy (escalate when none), its calls' names and arguments, each `valueMap` with the rows and the policy of the map it names (escalate when none), reversible exactly without `coalesce` and `constant`, and the loss kind that follows |
| `Compiler.AcceptedPlanSound` | mapping/compiler.py:125-247 | an accepted plan has a step for each entry, in order; the step of an entry of weight 5 rejects or escalates, and in a bidirectional spec every call is known and reversible and every map injective |
| `RoundTrip.ForwardPointwise` | mapping/interpreter.py:75-113 | what a completed forward run leaves at each mapped step's canonical path, in any order of steps |
| `RoundTrip.ReversePointwise` | mapping/interpreter.py:89-113 | the same for the region paths of the reversible steps |
| `RoundTrip.CriticalStepNeverSilentlyLost` | mapping/compiler.py:125-131 | every entry of weight 5 in an accepted spec is written at its canonical path, escalated, or stops the run |
| `RoundTrip.StepRoundTrips` | mapping/interpreter.py:75-104 | an invertible step's value comes back through both runs |
| `RoundTrip.AcceptedSpecRoundTrips` | mapping/interpreter.py:75-158 | for every accepted bidirectional spec with prefix-free paths and every instance, reverse after forward agrees with the instance at every invertible step |
| `RoundTrip.DiffAttributes` | mapping/roundtrip.py:99-115 | the losses reported between the two documents given, and that there are none exactly when no mapped path differs |
| `RoundTripTests.EveryLossLiesElsewhere` | mapping/roundtrip.py:99-115 | for accepted bidirectional specs over prefix-free paths every reported loss belongs to a step that is not invertible on the instance |
| `RoundTripTests.InvertiblePlanIsLossless` | mapping/roundtrip.py:118-140 | with every mapped step invertible both runs end normally, nothing is escalated and nothing is reported |
| `Aliasing.FreeRunIsValues` | mapping/interpreter.py:75-158 | where no target lies at, above or below another, a run over objects is the run over values and changes no other document |
| `InstanceAfter.CanonicalFreeForward` | mapping/interpreter.py:75-158 | over prefix-free canonical paths, whatever the regions, forward over objects is forward over values and leaves the instance as it was |
| `InstanceAfter.ForwardIsValues` | mapping/interpreter.py:75-158 | over separate region paths, whatever the canonical ones, forward over objects ends as forward over values does, with the same document and escalations |
| `InstanceAfter.CanonicalHolds` | mapping/interpreter.py:75-158 | after it every path holds the fold of the steps' results |
| `InstanceAfter.InstanceHolds` | mapping/interpreter.py:75-158 | and each region of the instance what it held at first, or, where the step only copies, what its canonical path held until a later write covered it |
| `InstanceAfter.ForwardRaisesIff` | mapping/interpreter.py:75-158 | over separate region paths forward raises something other than `MappingRejected` exactly at a step whose chain does or whose path runs through a value that is no dictionary |
| `CanonicalDocument.EntryLeaves` | mapping/interpreter.py:75-87 | after a completed forward of an accepted spec with separate paths, each entry's canonical path holds what its chain gives on its region's value, or nothing where the chain is refused |
| `CanonicalDocument.LastCallLeaves` | mapping/transforms.py:94-345 | told by its last call: what that transform gives on the value it is handed, or nothing when it refuses it |
| `CanonicalDocument.IdentifierRead` | mapping/transforms.py:214-217 | after `toIdentifier` the paths `<canonical>.value`, `.scheme` and `.issuer` read the value, the scheme and the issuer |
| `CanonicalDocument.AmountRead` | mapping/transforms.py:192-202 | after `toMonetaryAmount` `<canonical>.amount` reads the number the value stands for and `.currency` the currency |
| `CanonicalDocument.PartRead` | mapping/transforms.py:238-244 | after `decompose` each part of the pattern is read below the canonical path under its name |
| `CanonicalDocument.ScaledRead` | mapping/transforms.py:319-322 | after `scale` the number times the factor |
| `CanonicalDocument.DateRead` | mapping/transforms.py:101-110 | after `parseDate` the day, or with a zone the moment in it |
| `CanonicalDocument.ChosenRead` | mapping/transforms.py:293-313 | after `coalesce` the first item that is not null, after `constant` the literal |
| `CanonicalDocument.TypedRead` | mapping/compiler.py:133-146 | the value at a canonical path has the type T3 inferred for its entry, unless nothing was written |
| `SharedPaths.TripGivesBack` | mapping/interpreter.py:75-113 | over separate region paths every mapped step gets back its chain undone on what its canonical path held, with no condition on canonical paths or transforms |
| `RoundTripTests.TripIsValues` | mapping/roundtrip.py:118-127 | over separate region paths a trip returns exactly when it does over values, with what it brings back there |
| `RoundTripTests.LossesExact` | mapping/roundtrip.py:99-127 | over separate region paths a loss is reported exactly for the steps that get back something else, up to Python's `==`, than their region of the instance holds by then, with the step's path, weight and loss kind, declared when it has one |
| `RoundTripTests.CopyNeverReported` | mapping/roundtrip.py:99-127 | a reversible step that only copies is never reported while no later write covers its canonical path, whatever is written below it |
| `RoundTripTests.OthersReportedIff` | mapping/roundtrip.py:99-127 | a step that does more than copy is reported exactly when its value does not come back |
| `RoundTripTests.FreeLossesExact` | mapping/roundtrip.py:99-115 | over prefix-free paths on both sides the reported steps are those whose own chain, there and back, does not give the value |
| `SharedPaths.SharedPathIff` | mapping/interpreter.py:75-158 | of any steps onto one canonical path the last decides: an earlier one comes back exactly when undoing its chain on the last one's result gives its own value |
| `SharedPaths.LaterAtOrAbove` | mapping/interpreter.py:75-158 | a step whose path a later write covers gets back its chain undone on that part of the later value |
| `SharedPaths.LaterBelow` | mapping/interpreter.py:75-158 | a step below whose path a later one writes gets back its chain undone on its own result with the later one put into it |
| `InstanceAfter.ForwardBelowRaises` | mapping/interpreter.py:75-158 | over separate region paths such a later write raises exactly when the earlier result is not a dictionary open at that place, and that ends the run |
| `LossySpecs.TwoOntoOneCompiles` | mapping/compiler.py:95-233 | a bidirectional spec with two copying entries onto one canonical path compiles, with the plan named |
| `LossySpecs.TwoOntoOneLoses` | mapping/roundtrip.py:99-140 | its trip completes on every instance with one undeclared loss exactly where the two places differ |
| `LossySpecs.IntoACopyCompiles` | mapping/compiler.py:95-233 | a bidirectional spec that copies a dictionary and then writes into the copy compiles, with the plan named |
| `LossySpecs.LossUnseen` | mapping/roundtrip.py:99-140 | on every instance with a dictionary there its trip reports no loss, and brings back one region's value in place of another's |
| `LossySpecs.GatePassesLossySpec` | mapping/roundtrip.py:118-140 | so the gate opens on any number of such instances |
| `LossySpecs.OverlappingRegions` | mapping/interpreter.py:75-158 | a step that reads below a copied region gets what an intermediate step wrote there |
| `RoundTripTests.GenerateRoundTripTests` | mapping/roundtrip.py:118-140 | one case for each seed, in order, that splits its losses into declared and undeclared and passes exactly when no undeclared one weighs 5 or more; the failure is raised exactly when some case has an undeclared loss; a trip that stops ends the generator, as the first of them does |
| `RoundTripTests.GateOpensIffSeedsClean` | mapping/roundtrip.py:118-140 | the gate opens exactly when every seed's trip completes and every step found changed declares its loss |
| `RoundTripTests.SeedCleanIff` | mapping/roundtrip.py:99-140 | over separate region paths, in terms of values alone: when that is so |
| `Similarity.PathSymmetric` | algorithms/similarity.py:73-76 | path similarity ignores the order of its arguments |
| `Similarity.OverlapInUnit` | algorithms/similarity.py:111-138 | one-sided and inverted bounds included, interval overlap lies in [0, 1] and is symmetric |
| `Similarity.FullOverlapIff` | algorithms/similarity.py:111-138 | two sides that declare a bound score 1 exactly when both are open above, both are open below, their outermost bounds meet, or they are one proper interval |
| `Similarity.NumericBounds` | algorithms/similarity.py:92-108 | each bound is the one stated by the last constraint of the kind to state one for its key, and is missing exactly when none does |
| `Similarity.PatternRangeInUnit` | algorithms/similarity.py:141-179 | the mean over the constraint kinds lies in [0, 1] and is symmetric |
| `Similarity.ConstraintsInUnit` | algorithms/similarity.py:182-193 | the constraint feature lies in [0, 1] and is symmetric |
| `Similarity.TruncatedCauchySchwarz` | algorithms/similarity.py:56-64 | for vectors of any two lengths the truncated dot product's square is at most the product of the full squared norms |
| `Similarity.CosineAtMostOne` | algorithms/similarity.py:56-64 | cosine never exceeds 1, also for vectors of different lengths |
| `Similarity.ScoreSymmetric` | algorithms/similarity.py:196-221 | neither the five features nor the score depend on which attribute comes first |
| `Similarity.ScoreAtMostOne` | algorithms/similarity.py:196-221 | with non-negative weights that sum to 1 no pair scores above 1 |
| `ScoreParts.FiveParts` | algorithms/similarity.py:196-221 | the score is the sum of the five configured weights, a missing one counting nothing, each times its own overlap: tokens, vectors, types, constraints, and parents and siblings half and half |
| `ScoreParts.TokensPay` | algorithms/similarity.py:211-220 | pairs that differ only in their tokens differ in score by the lexical weight times the difference of the token overlaps |
| `ScoreParts.VectorsPay` | algorithms/similarity.py:211-220 | pairs that differ only in their vectors: the embedding weight times the difference of the cosines |
| `ScoreParts.TypesPay` | algorithms/similarity.py:211-220 | pairs that differ only in their types: the type weight times the difference of the compatibilities |
| `ScoreParts.ConstraintsPay` | algorithms/similarity.py:211-220 | pairs that differ only in code lists and constraints: the constraint weight times the difference of the constraint overlaps |
| `ScoreParts.ParentsPay` | algorithms/similarity.py:211-220 | pairs that differ only in their parent paths: half the context weight times the difference of the path overlaps |
| `ScoreParts.SiblingsPay` | algorithms/similarity.py:211-220 | pairs that differ only in their siblings: the other half, in the same way |
| `ScoreParts.AlikeScoresAll` | algorithms/similarity.py:196-221 | a pair alike in everything scores all five weights |
| `ScoreParts.UnlikeScoresNothing` | algorithms/similarity.py:196-221 | a pair alike in nothing scores nothing |
| `ScoreParts.JaccardCounts` | algorithms/similarity.py:67-70 | shared elements over all elements; 1 exactly for one non-empty set, 0 exactly for disjoint ones |
| `ScoreParts.PathCounts` | algorithms/similarity.py:73-76 | the same of the dot-separated parts of two paths, and 0 when one is missing |
| `ScoreParts.TypeByFirstRow` | algorithms/similarity.py:79-86 | a type fits itself fully; two types fit as the first table row that names both says, and not at all without one |
| `ScoreParts.CodesDecide` | algorithms/similarity.py:182-193 | two code lists decide alone, by the codes they share over all codes, whatever their case |
| `ScoreParts.ConstraintsDecide` | algorithms/similarity.py:141-193 | otherwise the constraints do: 0.5 when nobody has any, 0.3 when one side has |
| `ScoreParts.MeanOverKinds` | algorithms/similarity.py:154-179 | and else the mean over the kinds both sides constrain and that compare, each once, or 0 without any |
| `ScoreParts.BoundsDecide` | algorithms/similarity.py:92-173 | ranges and lengths compare as the intervals between the bounds stated last for minimum and maximum, minLength and maxLength |
| `ScoreParts.ExpressionsDecide` | algorithms/similarity.py:174-177 | constraints of the other kinds agree fully when both sides express the same, and otherwise not at all |
| `ScoreParts.IntervalByLength` | algorithms/similarity.py:111-138 | two intervals bounded on all sides: the length they share over the length they span, or 1 when that is nothing |
| `ScoreParts.OpenIntervals` | algorithms/similarity.py:111-138 | with a side open the overlap is 1 when both are open on one side and 0 otherwise; without any bound on one side there is none |
| `ScoreParts.CosineIsDot` | algorithms/similarity.py:56-64 | the cosine times both norms is the dot product; it is 0 for a zero vector and for orthogonal ones |
| `ScoreParts.DotAddsUp` | algorithms/similarity.py:56-64 | the dot product adds up the products of the components the vectors share |
| `Graph.Explore` | algorithms/graph.py:33-49 | breadth-first search from a start collects its reachability class, each id once |
| `Graph.ConnectedComponents` | algorithms/graph.py:20-50 | the result is a function of the set of ids and the set of edges alone |
| `Graph.ComponentsExact` | algorithms/graph.py:20-50 | two ids share a component if and only if a path within the ids joins them; every id is in one component; components are sorted, and ordered by their first id |
| `Graph.ClassesAgree` | algorithms/graph.py:20-50 | two ids reach each other exactly when they have one class |
| `Signals.DisjointEnumsMeaning` | algorithms/conflict.py:46-62 | the disjoint-enumerations signal fires exactly on two or more code lists with no value common to all |
| `Signals.FiredNames` | algorithms/conflict.py:104-121 | the list of fired signals is empty exactly when none fires |
| `Signals.NamesTell` | algorithms/conflict.py:87-110 | which names fire and for what: a pair of types that fit by less than 0.35, two or more code lists without a common code, a mandatory member beside one that is not, two given parent paths more than 0.8 apart; the documentation signal never |
| `Signals.FiresIgnoresOrder` | algorithms/conflict.py:33-121 | the signals depend on which members a group has, not on their order |
| `Signals.LoneMemberSilent` | algorithms/conflict.py:33-121 | no signal fires on a lone member |
| `Signals.FiresWithoutSiblingIff` | algorithms/conflict.py:69-78 | obligation inversion fires on any pair of levels across regions, and without one exactly on groups of a single region |
| `Signals.OneRegionFires` | algorithms/conflict.py:65-107 | two members of one region with different levels make it fire |
| `Signals.SignalsAreNotMonotone` | algorithms/conflict.py:46-62 | a part of a silent group can fire, so every part has to be looked at again |
| `Conflict.MinCutUntil` | algorithms/conflict.py:124-155 | terminates, and for any choice among weakest edges returns a partition into silent parts; from a connected group each part is still connected by surviving edges, no cut edge outranks a surviving edge of a part it touches, and every cut edge had a firing group, held together by edges no weaker, to be cut for |
| `Conflict.SplitOnHomonymSignals` | algorithms/conflict.py:158-175 | a silent group is returned whole; a firing one in two parts or more, each labelled with the signals that fired |
| `Conflict.FiringGroupSplits` | algorithms/conflict.py:124-175 | whenever a signal fires on the input there are at least two parts |
| `Clustering.ScoreUnique` | algorithms/clustering.py:156-174 | a pair of ids has one score, whichever block and order it is met in |
| `Clustering.ScanPairExact` | algorithms/clustering.py:156-174 | one pair of the double loop keeps the edges and the review list exact for the pairs seen |
| `Clustering.ScanBlocks` | algorithms/clustering.py:156-174 | after all blocks the edges are exactly the pairs at or above the threshold and the review list exactly those in the band, each once |
| `Clustering.PickCore` | algorithms/clustering.py:54-73 | the core is a member that no other member precedes in the selection order |
| `Clustering.CoreUnique` | algorithms/clustering.py:54-73 | the selection order leaves no choice of core |
| `Clustering.AssembledUnique` | algorithms/clustering.py:89-136 | a group and its edges determine the cluster, whoever assembles it |
| `Clustering.ConfidenceBounds` | algorithms/clustering.py:76-86 | a connected group of two or more has confidence at or above the threshold, and at most 1 where no edge is higher |
| `Clustering.EdgeAboveConfidence` | algorithms/clustering.py:76-86 | confidence is no higher than any edge inside the group |
| `Clustering.BuildCluster` | algorithms/clustering.py:89-136 | the group's members in their order with their regions, one core, preferred to every other by evidence tier, then by mean edge score within the group, then by id; the core scores 1, each other member its edge to the core or else the confidence, which is the weakest edge inside, or 1 for a lone member; no member but the core scores below the confidence, and where no edge passes 1 nothing does |
| `Clustering.MeanIsAverage` | algorithms/clustering.py:64-71 | the mean similarity of a member is the total of its edges within the group over their number, nothing without any |
| `Clustering.CorePreferred` | algorithms/clustering.py:54-73 | the core is preferred to every other member: lower tier, or the same and a higher mean, or the same in both and first in the dictionary |
| `Clustering.ConfidenceIsWeakest` | algorithms/clustering.py:76-86 | the confidence of a connected group of two or more is the score of its weakest edge |
| `Clustering.ReviewNeverLinked` | algorithms/clustering.py:156-174 | a pair under review is never an edge |
| `Clustering.RunClustering` | algorithms/clustering.py:139-183 | for any weights: edges are exactly the scanned pairs at or above the threshold; clusters are disjoint, hold exactly the linked ids and tell their groups as `BuildCluster` says, one for each part of each component's cut, and a component on which no signal fires stays whole; review pairs lie in the band and are never edges; weights that make a mean keep every score at 1 or below |
| `Ledger.CheckChain` | contracts/validators.py:300-378 | the verifier's loop reports nothing exactly for an unbroken chain |
| `Ledger.VerifierExact` | contracts/validators.py:300-378 | no violation if and only if one region, every link right, every hash and signature genuine |
| `Ledger.SameBodyIff` | contracts/validators.py:275-297 | two entries have one body exactly when they agree in every field but the hash and the signature, labels up to order |
| `Ledger.HashFixesHistory` | contracts/validators.py:275-297 | without digest collisions an entry's hash fixes its position and every body up to it |
| `Ledger.SameHeadSameHistory` | contracts/validators.py:342-378 | two verified chains with the same last hash have the same length and bodies, labels up to order |
| `Ledger.RearrangementCaught` | contracts/validators.py:342-378 | a selection, repetition or reordering of a verified chain's entries verifies if and only if it is a prefix |
| `Ledger.DeletionCaughtUnlessLast` | contracts/validators.py:342-378 | without one entry the chain is unbroken exactly when it was the last |
| `Ledger.SwapCaught` | contracts/validators.py:342-378 | with two entries swapped the chain is broken |
| `Ledger.AlterationCaught` | contracts/validators.py:342-378 | with any entry in place of another the chain is unbroken exactly when the new one is genuine and has the old one's body or, at the end, is itself a successor in the region |
| `Ledger.RearrangementReported` | contracts/validators.py:300-378 | of a selection, repetition or reordering of a verified chain's entries the verifier reports something exactly when it is not a prefix |
| `Ledger.DeletionReportedUnlessLast` | contracts/validators.py:300-378 | a deletion is reported exactly when it is not of the last entry |
| `Ledger.SwapReported` | contracts/validators.py:300-378 | a swap is always reported |
| `Ledger.AlterationReported` | contracts/validators.py:300-378 | an entry put in place of another is reported exactly unless it is genuine and fits there |
| `Manifest.LedgerStore.Append` | gate/ledger.py:87-95 | the entry is appended to its region's file and no other region changes |
| `Manifest.LedgerStore.ReadAll` | gate/ledger.py:97-107 | a region's entries in the order they were appended, none for an unknown region |
| `Manifest.LedgerStore.LatestHash` | gate/ledger.py:109-116 | the hash of the last stored entry, or none |
| `Manifest.LedgerSequencer.NextEntryId` | connectors/manifest.py:115-119 | the id of the entry one past what re-reading the store would count: ledger, the region, and that number in decimal digits, six or more, with zeros in front only up to six |
| `Manifest.LedgerSequencer.PrevHash` | connectors/manifest.py:121-124 | the cached head is what re-reading the store would give |
| `Manifest.LedgerSequencer.Record` | connectors/manifest.py:126-127 | the head of one region is replaced and no other |
| `Manifest.CachesAfterAppend` | connectors/manifest.py:102-127 | counting up and recording the new head keeps the caches equal to the store once the entry is in |
| `Manifest.LedgerDecision` | connectors/manifest.py:167-194 | one turn of the loop keeps the caches coherent and appends the entry an uncached run would have appended |
| `Manifest.AssembleManifest` | connectors/manifest.py:130-194 | a whole run with the caching sequencer leaves the store as the run that re-reads it for every entry: behind the old entries of each region one entry for each of its decisions, in order, that records it, and, from a store so numbered, every region numbered from one without a gap and no id twice |
| `Manifest.RunKeepsSound` | gate/ledger.py:33-71 | a run over sound files leaves every region verified, of its own region, and with ids that read back as 1, 2, 3 and so on |
| `Manifest.RunExtends` | connectors/manifest.py:167-194 | a region's file only grows, by one entry for each of its decisions, in order, with the artefact, hashes, labels, verdict, approver, policy, time and run of that decision, whatever the interleaving |
| `EntryIds.EntryIdNumbered` | connectors/manifest.py:115-119 | the id built for the n-th entry of a region is ledger, the region and decimal digits that read back as n, at least six of them |
| `EntryIds.NumberedOnce` | connectors/manifest.py:115-119 | an id tells one region and one number, whatever dashes the regions hold |
| `Manifest.NumbersTellApart` | connectors/manifest.py:115-119 | in a store so numbered no two entries share an id |
| `Manifest.RunAll` | connectors/manifest.py:130-194 | after any number of runs the verifier reports nothing for any region, nothing old has changed, every region is numbered from one without a gap and no two entries of the store share an id |
| `Redaction.TokeniseShape` | gate/tokenisation.py:27-32 | a token is an opening bracket, bracket-free text and a closing bracket, and the text is the label, a colon and the digest of label and value |
| `Redaction.ReplaceCreatesNothing` | gate/tokenisation.py:63-84 | replacing creates no occurrence of another value or another token |
| `Redaction.ReplaceRemoves` | gate/tokenisation.py:63-84 | replacing removes every occurrence, also across what was put in |
| `Redaction.ReplaceUndone` | gate/tokenisation.py:63-84 | replacing the token by the value undoes the replacement when the token was not in the text |
| `Redaction.Redact` | gate/tokenisation.py:42-84 | the loop is the iterated replacement, for any order sorted by length, of exactly the values of spans of rung L1, L2 or L3; afterwards no non-empty value of such a span occurs in the text, for values without brackets that occur in no token; with spans of other rungs alone the text is unchanged |
| `Redaction.NoMaskedValueLeft` | gate/tokenisation.py:63-84 | in every order, no non-empty masked value occurs in the redacted text |
| `Redaction.MaskedValueGoneIffNonEmpty` | gate/tokenisation.py:63-84 | a masked value is gone if and only if it is not the empty string |
| `Redaction.RedactionRestores` | gate/tokenisation.py:63-84 | substituting distinct tokens back in reverse order restores the original exactly |
| `RedactionOrder.RedactsBlockByBlock` | gate/tokenisation.py:45-84 | longest first, a text whose masked occurrences lie in disjoint blocks becomes exactly one token for each block with the rest kept; a value under several labels gets the token of the first label in the order |
| `RedactionOrder.OverlapLeaks` | gate/tokenisation.py:63-84 | of any two values that overlap without nesting, the longer first, the second's tail stays in the clear behind the first's token |
| `RedactionOrder.TwoValuesExactly` | gate/tokenisation.py:63-84 | of any text two values leave, besides tokens, exactly the pieces between hits of the first with the hits of the second inside each piece taken out |
| `Coverage.BuildUniverse` | algorithms/coverage.py:75-124 | one concept for each cluster, in order |
| `Coverage.ConceptTells` | algorithms/coverage.py:75-124 | what a concept takes from its cluster: members' regions, evidence sorted without repeats, inferred when all members are; without a candidate a gap of weight 5, 3 or 1 by its strongest member, else the candidate's id and weight, core or extension by its placement, its expert only when approved |
| `Coverage.Classify` | algorithms/coverage.py:139-152 | the unresolved and unevidenced concepts in order, and the table keyed by id |
| `Coverage.TableIsOwnIff` | algorithms/coverage.py:139-159 | the table gives every concept its own value exactly when concepts that share an id share a value |
| `Coverage.BuiltTableIsOwn` | algorithms/coverage.py:75-159 | that holds of every universe built from evidenced clusters, also where clusters share a candidate |
| `Coverage.ScoreInUnit` | algorithms/coverage.py:155-159 | the score stays in [0, 1] |
| `Coverage.Gate3MeansResolved` | algorithms/coverage.py:91-195 | when every concept of a built universe is evidenced none is a gap and the score is at least the smaller of the core and extension weights |
| `Coverage.ScoreIsMean` | algorithms/coverage.py:155-182 | with unique ids the score of any sub-universe is the weighted mean of the concepts' own values |
| `Coverage.UpgradeNeverLowers` | algorithms/coverage.py:139-182 | upgrading one concept lowers neither the score nor any region's |
| `Coverage.AddingRaisesIff` | algorithms/coverage.py:139-182 | adding a concept raises a score it counts towards if and only if it is worth more than that score, and leaves the others alone |
| `Coverage.UnevidencedNeverRaises` | algorithms/coverage.py:139-182 | adding an unevidenced concept never raises a score |
| `Coverage.RatifiedGapCanRaise` | algorithms/coverage.py:134-159 | a ratified gap raises a score for any positive gap weight, with the concepts named |
| `Gates.CoverageReport` | algorithms/coverage.py:162-198 | the report's scores and counts; gate 1 passes when every concept of weight 5 is worth 1, gate 2 when the score reaches the target and us, uk and eu their floor, gate 3 when every concept has evidence and a named expert |
| `Gates.EmptyRegionClosesGate2` | algorithms/coverage.py:178-194 | a region without concepts is below any positive floor |
| `Gates.GapRegister` | algorithms/coverage.py:201-245 | the register's entries, reason by reason, in order |
| `Gates.RegisterExact` | algorithms/coverage.py:201-255 | an entry is in the register exactly for a concept of weight 5 worth less than 1, an unbacked one without the id of such a concept, a concept that is not core in a region below its floor, or an exclusion, each with its weight, reason and regions |
| `Gates.RegisterNamesEachOnce` | algorithms/coverage.py:220-231 | each unresolved or unevidenced concept is named exactly once and no other concept is |
| `Gates.NothingNamedIffGatesPass` | algorithms/coverage.py:193-231 | no concept is named if and only if gates 1 and 3 pass |
| `Gates.Gate2MeansNoFloorEntry` | algorithms/coverage.py:194-236 | when the floors are met no entry is below one |
| `Gates.BelowFloorRegionIsExplained` | algorithms/coverage.py:178-236 | with core weight 1 a non-empty region below the floor has an entry for one of its concepts |
| `Retrieval.RankIsRanking` | substrate/search.py:125-130 | the sorted hashes are the table's keys by score descending, then hash ascending |
| `Retrieval.RankTells` | substrate/search.py:125-130 | of two chunks the one ranked first scores higher, or the same and its hash comes first in the dictionary |
| `Retrieval.RankingUnique` | substrate/search.py:125-130 | a table has only one such ordering |
| `Retrieval.RankIgnoresInsertionOrder` | substrate/search.py:125-130 | the order in which scores were inserted does not matter |
| `Retrieval.ReciprocalRankFuse` | substrate/search.py:133-143 | the fused table holds every chunk of any ranking with its sum of 1/(k + rank), or the call raises, exactly where k + rank reaches 0 |
| `Retrieval.FusedAddsUp` | substrate/search.py:133-143 | a fused score is the sum, over the rankings, of 1/(k + rank) at each position that holds the chunk, ranks counted from one |
| `Retrieval.ConsensusScoresHigher` | substrate/search.py:133-143 | a chunk ahead of another in every ranking that has either gets a strictly higher score |
| `Retrieval.FusionRespectsConsensus` | substrate/search.py:125-143 | and stands ahead of it in the final ranking |
| `Retrieval.FusionConserves` | substrate/search.py:133-143 | the fused scores sum to what all positions give |
| `Retrieval.SupplyAddsUp` | substrate/search.py:133-143 | which is, for each ranking, the sum of 1/(k + rank) over its positions |
| `Chunking.SplitByTokenBudget` | substrate/chunking.py:281-294 | the pieces returned, for a budget the text fits and one it does not |
| `Chunking.WordsOfJoin` | substrate/chunking.py:282-290 | splitting undoes joining with a space |
| `Chunking.PiecesAreWindows` | substrate/chunking.py:281-294 | reading the pieces back as words gives the windows |
| `Chunking.WindowSizes` | substrate/chunking.py:286-294 | every window but the last is full, the last holds a word at least and no more than the budget |
| `Chunking.WindowsOverlap` | substrate/chunking.py:286-294 | consecutive windows share exactly `max_tokens - step` words |
| `Chunking.StitchingRestoresIff` | substrate/chunking.py:281-294 | dropping the overlaps restores the word list if and only if the text fits the budget or the step is no longer than a window |
| `Chunking.StepWithinWindow` | substrate/chunking.py:285-285 | the step is no longer than a window exactly for a positive budget whose product with one minus the overlap ratio stays below the budget plus one, so for every ratio that is not negative |
| `Chunking.ConfluencePiecesRestore` | substrate/chunking.py:46-48 | with the program's own constants no word of any text is lost |
| `Budgets.Budget.Check` | agents/model_gateway.py:101-106 | a call is let through exactly when the stage's cap holds the estimate and the cost is below the ceiling; otherwise which of the two is reported |
| `Budgets.Budget.Record` | agents/model_gateway.py:108-111 | the charge joins the history and every running total stays the total of the history |
| `Budgets.CapIsFraction` | agents/model_gateway.py:101-103 | a stage's cap is its fraction of the total, all of it when not listed, cut to whole tokens |
| `Budgets.CostIsPerThousand` | agents/model_gateway.py:212-214 | a run costs 0.001 for every thousand tokens |
| `Budgets.TotalIsSumOverStages` | agents/model_gateway.py:108-111 | the run's tokens are the sum over its stages |
| `Budgets.StageWithinCap` | agents/model_gateway.py:101-111 | in every run a stage passes its cap by no more than its last call outran its estimate |
| `Budgets.CostWithinCeiling` | agents/model_gateway.py:101-111 | the run's cost passes the ceiling by less than its last call |
| `Budgets.RunWithinCaps` | agents/model_gateway.py:101-111 | every admitted run uses at most its stages' caps and what their last calls used beyond their estimates |
| `Budgets.TotalKeptIff` | agents/model_gateway.py:75-111 | for calls that outrun their estimates by a bounded number of tokens, no run passes the total if and only if the stages have no more room than it or the cost ceiling is reached before the largest call could pass it |
| `Budgets.UnlistedStagesOverrun` | agents/model_gateway.py:101-103 | two stages without a fraction of their own keep to the total only under a ceiling that a single token uses up, or none at all where calls outrun their estimates |
| `Agents.ModelGateway.CallWithRetry` | agents/model_gateway.py:221-233 | the reply is the first that is not an overload, or the last of `max_provider_retries + 1` |
| `Agents.ModelGateway.Call` | agents/model_gateway.py:192-219 | refusals in their order touch nothing; an answered call is charged before its text is parsed, and text that is not JSON fails the call |
| `Agents.Agent.Invoke` | agents/base.py:141-195 | four gateway calls at most, each of bounded attempts and charged once at most; one write, exactly when the invocation returns, of the output it returns |
| `Agents.Agent.Climb` | agents/base.py:160-191 | the calls and the result are those of the retry table, each prompt carrying the correction of the call before |
| `Agents.PromptsCarry` | agents/base.py:156-184 | the first prompt carries no correction; every later one carries, word for word, what the checks found in the reply before it, the schema's complaint first |
| `Agents.RetriedBounds` | agents/base.py:156-184 | the retried calls are at most two schema failures and one semantic failure |
| `Agents.FourCallsAtMost` | agents/base.py:160-191 | no invocation calls the gateway more than four times |
| `Agents.ConcludesExactly` | agents/base.py:160-191 | an invocation gives up at the third schema or second semantic failure, and what it returns is its last reply, which passed the schema, the semantic checks and the guardrails |
| `Agents.RaisedIsNeverRetried` | agents/base.py:167-172 | whatever the gateway raises, replies that are not JSON included, ends the invocation with that failure |
| `Agents.BreachIsNeverRetried` | agents/base.py:186-188 | a guardrail breach is never retried and its violations are what is raised |
| `Text.JoinSplit` | mapping/transforms.py:271-289 | joining the pieces of a split restores the text |
| `Text.SplitUndoesJoin` | mapping/transforms.py:271-289 | for any separator, split undoes join exactly on the lists whose parts it keeps apart |
| `Order.LessIffDecided` | substrate/search.py:125-130 | the order of hashes and ids is that of the dictionary: the one that stops first or is smaller where they first differ |
| `Order.SortForgetsOrder` | contracts/validators.py:275-297 | sorted labels agree exactly when the labels agree up to order |

## Left out

- Messages of exceptions and compile errors: only which error is raised, for which path.
- `Plan.weight_of`, `is_declared_loss`, `declared_loss_kind`, `note_of`: linear searches over the steps.
- Interpreter.Plan.Forward: a dictionary put inside itself, which takes a region path at or below another, ends the model's run (`Tangled`), while the program goes on with a cyclic document; over separate region paths that never happens.
- Dictionaries inside lists have no identity: only `coalesce` hands one on, and a bidirectional spec cannot use it. The instance of a trip shares no dictionary with itself, as a generated one does not.
- Transforms.InvertibleExactly: for `parseDate`, `formatDate`, `instantAtStartOfDay`, `decompose` and `compose` the condition is a law of the library parameter at the value (the format prints what it parsed, the zone's midnight falls on its day, the template refills what the pattern took), because date formats, zones and patterns are not modelled.
- Clustering.RunClustering: does not model the schema validation of the finished cluster, which refuses a confidence or score outside 0 to 1; weights that make a mean never give one above 1.
- `synthesise_instance` and `summarise`: the instances of a round trip are parameters, so the results hold of all of them; the summary is output formatting.
- Date formats, time zones, regular expressions and case folding: functions of a `Library` parameter.
- Regular-expression classes in the parser are ASCII; white space is Python's full list.
- NaN, infinities as document numbers, and floating-point rounding: numbers are reals, and `round` is any monotone function that fixes 0 and 1.
- `classify_conflict`, cluster ids, proposed concepts, evidence references and the triage export: single-branch rules and output over the groups proved here.
- Blocking and embeddings: `run_clustering` takes its blocks and vectors as parameters.
- JSON, files and timestamps of the ledger: stores are maps of sequences, and a digest is a function of an entry's fields.
- The gate's decisions about an artefact, the corpus hash and artefact ids: a run is a list of decisions.
- Text encoding and the structured branch of `redact`: redaction works on characters.
- `bm25_scores` and `vector_scores`: scores come in as a table.
- A negative word budget, where slicing with negative indices takes over: budgets are natural numbers.
- HTML headings, OpenAPI, XSD, WSDL and Avro walkers: they depend on library tree types.
- Prompt templates and context assembly: one function from the correction note to a prompt, which may fail to render.
- Schema validation, semantic checks and guardrails: arbitrary functions of the output; a tool write always succeeds.
- Back-off delays between provider attempts, and the Anthropic client.
- HTTP, persistence, rendering and the other agents: plumbing over the stores.
