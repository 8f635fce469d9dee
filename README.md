# Utility AI scoring and selection engine, in Dafny

This project models the core of a Unity utility-AI library.

- An agent (`UtilityAgent`) owns a list of behaviours and periodically thinks:
  - it builds candidate decisions (behaviour, agent, target, data);
  - it scores each candidate against its behaviour's considerations;
  - it picks the best one and enacts the behaviour's action.
- A consideration scores a decision in [0, 1], opting out with 0 when a required target is missing or lacks the required tags.
- A decorator can invert that score.
- A behaviour keeps its considerations stably sorted by descending priority.
- `Decision.Evaluate` walks them in that order, multiplying the scores:
  - it stops early when the running product is zero, or when its projected maximum cannot beat the best score so far;
  - it compensates the product with an n-th root;
  - it multiplies by the weight times the agent's bonus.
- Consideration scores go through a per-cycle cache keyed by agent, target, data and consideration.
- The agent keeps the first strictly highest score:
  - it records one result per candidate;
  - it gives a bonus to a candidate similar to the decision still running;
  - it interrupts the old action when it switches decisions.
- An action runs a small lifecycle of hooks (enter, update, fixed update, exit) and a conclusion callback.

## Modules

| file | module | models |
|---|---|---|
| `options.dfy` | `Options` | an optional value, standing for a reference that may be null |
| `seqs.dfy` | `Seqs` | the stable descending sort of LINQ's `OrderByDescending`, and `List<T>.Remove` |
| `considerations.dfy` | `Considerations` | `Consideration`, `ConsiderationDecorator`, the cache key and the cache invariant |
| `behaviors.dfy` | `Behaviors` | `Behavior` (a class whose cached consideration list is rebuilt in place) and `BehaviorSet` |
| `decisions.dfy` | `Decisions` | the scoring algorithm as functions, `Decision` (a class with its `Score`/`Scored`/`Skipped`/`Concluded` state) and `DecisionResult` |
| `selection.dfy` | `Selection` | the selection rule of `Decide` as a function of the candidates, with its lemmas |
| `actions.dfy` | `Actions` | `Action` (a class whose hook calls are recorded in a ghost trace) and `Decision.Enact` |
| `agents.dfy` | `Agents` | `UtilityAgent` (a class): behaviour list, `Decide`, `EnactDecision`, `Think`, the conclusion callback and the interval timer |

### Modelling choices

- Scores are `real`.
- `Mathf.Pow(x, 1f / k)` is an opaque function-valued parameter `root`.
  - The predicate `RootLaws` says what proofs may use about it:
    - the k-th root of 1 is 1;
    - it maps [0, 1] into [0, 1];
    - it undoes the k-th power there.
  - Lemmas that need those facts require `RootLaws`.
  - The methods do not require it.
- `Mathf.Approximately(p, 0)` is `p == 0`.
- The code bodies of `OnEvaluate` and `UtilityTarget.HasTags` are not part of this model; they are function-valued fields of `Env`.
  - `OnEvaluate` is assumed deterministic for a given consideration and subject.
  - `OnEnter` and `ShouldExit` are boolean parameters of the methods that call them.
- Object identities of agents, targets, data and decorators are integers.
  - The score cache is a map from `(agent, target, data, decorator)` to a score.
  - `UniqueIds` says that one id means one decorator, which stands in for "no hash collisions".
  - `Sound` says that every cached score is the decorator's own current score.
- The reasoners' outputs are a parameter of `Think` (`outputs`). The target search that feeds them is not part of this model.
  - The predicate `Agent.BuiltFrom` ties them to the agent's behaviour list: one list per behaviour, in the agent's order, each decision made by this agent for that behaviour.
  - `Think`, `ActionConcluded` and `UpdateDecisions` (when it thinks) require it, so adding and removing behaviours decides which decisions can be chosen.
- The action's hook calls are recorded, in order, in the ghost field `Action.trace`.
- The conclusion callback that `Decision.Enact` hands to the action has two parts in the model:
  - `Action.Conclude` marks the decision concluded and reports through its `notified` result that the callback ran.
  - The agent's part of the callback (forget the current decision, think again) is the method `Agent.ActionConcluded`.
- `Decide`'s loop is split into small methods (`Record`, `EvaluateCandidate`, `EvaluateAt`, `Step`, `EvaluateAll`, `MarkBest`, `DecideAll`). `Think` is split into `Choose` (build and decide) and `EnactDecision`. The same applies to the consideration loop of `Decision.Evaluate` (`ShouldStop`, `EvaluateNext`, `EvaluateConsiderations`). Each is specified against the `Selection` and `Decisions` functions.

## Model

Paths are relative to the repository root, under `Assets/Sylpheed/UtilityAI/Runtime/Core/`.

| member | source | states |
|---|---|---|
| Considerations.Clamp01 | Assets/Sylpheed/UtilityAI/Runtime/Core/Consideration.cs:42 | the result lies in [OptOut, OptIn] = [0, 1]; a value in [0, 1] is unchanged, below 0 gives 0, above 1 gives 1 |
| Considerations.Consideration.Evaluate | Assets/Sylpheed/UtilityAI/Runtime/Core/Consideration.cs:35-43 | the score lies in [0, 1]; it is OptOut when a target is required and missing, or present without the required tags; otherwise (in particular whenever no target is required, tags ignored) it is the clamped OnEvaluate score |
| Considerations.Decorator.Evaluate | Assets/Sylpheed/UtilityAI/Runtime/Core/ConsiderationDecorator.cs:12-21 | the score lies in [0, 1]; not inverted it equals the wrapped score, inverted it is OptIn minus the wrapped score; an inverted consideration that requires a missing target fully opts in |
| Considerations.Decorator.Priority | Assets/Sylpheed/UtilityAI/Runtime/Core/ConsiderationDecorator.cs:12 | the wrapped consideration's priority; no contract of its own, the order it induces is stated by `Behaviors.CachedConsiderations` |
| Considerations.Decorator.ShouldCacheScore | Assets/Sylpheed/UtilityAI/Runtime/Core/ConsiderationDecorator.cs:13 | the wrapped consideration's cache flag; no contract of its own, its effect is stated by `Decisions.Decision.EvaluateConsideration` |
| Considerations.Decorator.RequiresTarget | Assets/Sylpheed/UtilityAI/Runtime/Core/ConsiderationDecorator.cs:14 | the wrapped consideration's target requirement; no contract of its own, its effect is stated by `Considerations.Decorator.Evaluate` |
| Considerations.Decorator.RequiredTargetTags | Assets/Sylpheed/UtilityAI/Runtime/Core/ConsiderationDecorator.cs:15 | the wrapped consideration's required tags; no contract of its own, their effect is stated by `Considerations.Consideration.Evaluate` |
| Considerations.StoreKeepsSound | Assets/Sylpheed/UtilityAI/Runtime/Core/Decision.cs:121-122 | writing a decorator's own score under its key keeps every cached score equal to its decorator's score, given unique ids |
| Seqs.SortDescCorrect | Assets/Sylpheed/UtilityAI/Runtime/Core/Behavior.cs:46 | the stable descending sort returns a permutation ordered by non-increasing key in which elements of equal key keep their relative order |
| Seqs.SortDescIdempotent | Assets/Sylpheed/UtilityAI/Runtime/Core/Behavior.cs:44-47 | sorting a sorted list changes nothing, so a second rebuild leaves the cache as it was |
| Seqs.RemoveFirstCount | Assets/Sylpheed/UtilityAI/Runtime/Core/UtilityAgent.cs:116-118 | List.Remove leaves a list without the element unchanged and otherwise removes exactly one copy |
| Seqs.RemoveFirstAt | Assets/Sylpheed/UtilityAI/Runtime/Core/UtilityAgent.cs:124 | the copy List.Remove drops is the first one, and the other entries keep their order |
| Seqs.RemoveEachCount | Assets/Sylpheed/UtilityAI/Runtime/Core/UtilityAgent.cs:121-125 | removing each listed behaviour in turn removes exactly one copy of each listed element that is present |
| Behaviors.Behavior.constructor | Assets/Sylpheed/UtilityAI/Runtime/Core/Behavior.cs:12-29 | a loaded asset holds its weight, action, serialized considerations and target filter, with the cached list still empty |
| Behaviors.Behavior.RebuildCache | Assets/Sylpheed/UtilityAI/Runtime/Core/Behavior.cs:44-47 | the cached list is the serialized list stably sorted by descending priority: ordered, a permutation, stable among equal priorities; it is unchanged when it was already up to date |
| Behaviors.Behavior.OnEnable | Assets/Sylpheed/UtilityAI/Runtime/Core/Behavior.cs:31-34 | enabling the asset leaves the cache up to date |
| Behaviors.Behavior.OnValidate | Assets/Sylpheed/UtilityAI/Runtime/Core/Behavior.cs:36-39 | validating the asset, after an inspector edit has replaced the serialized list, leaves the cache the sorted new list |
| Behaviors.CachedConsiderations | Assets/Sylpheed/UtilityAI/Runtime/Core/Behavior.cs:44-47 | the cached considerations are ordered by non-increasing priority, a permutation of the serialized ones, stable among equal priorities, and a fixed point of the rebuild |
| Behaviors.BehaviorSet.constructor | Assets/Sylpheed/UtilityAI/Runtime/Core/UtilityAgent.cs:104 | a behaviour set holds its list of behaviours |
| Decisions.ProductInUnit | Assets/Sylpheed/UtilityAI/Runtime/Core/Decision.cs:75-98 | the running product of scores in [0, 1] stays in [0, 1] |
| Decisions.ProductZero | Assets/Sylpheed/UtilityAI/Runtime/Core/Decision.cs:98 | one zero score makes the running product zero |
| Decisions.ProductPositive | Assets/Sylpheed/UtilityAI/Runtime/Core/Decision.cs:98-102 | positive scores give a positive product, so the compensation root is applied |
| Decisions.ProductConstant | Assets/Sylpheed/UtilityAI/Runtime/Core/Decision.cs:98 | the product of n equal scores s is s to the n |
| Decisions.EvaluatedFromStops | Assets/Sylpheed/UtilityAI/Runtime/Core/Decision.cs:77-99 | from any index, the loop continues exactly while neither stop condition holds and stops at the first index where one does |
| Decisions.EvaluatedStops | Assets/Sylpheed/UtilityAI/Runtime/Core/Decision.cs:77-99 | the evaluated considerations are the prefix before the first index with a zero product or a projected maximum below the threshold |
| Decisions.DecisionScore | Assets/Sylpheed/UtilityAI/Runtime/Core/Decision.cs:70-109 | the score Decision.Evaluate returns, as a function of the consideration scores; no contract of its own: its range, the zero veto, pruning before the first consideration, the unpruned score and the compensation round trip are the lemmas `DecisionScoreRange`, `ZeroVetoes`, `PrunedBeforeFirst`, `NoPruning` and `CompensationRoundTrip` |
| Decisions.DecisionScoreRange | Assets/Sylpheed/UtilityAI/Runtime/Core/Decision.cs:70-109 | with at least one consideration, a decision scores between 0 and its weight times the agent's bonus |
| Decisions.ZeroVetoes | Assets/Sylpheed/UtilityAI/Runtime/Core/Decision.cs:81-105 | after an evaluated zero score no further consideration is evaluated, the decision is skipped exactly when some remain, and it scores 0 |
| Decisions.PrunedBeforeFirst | Assets/Sylpheed/UtilityAI/Runtime/Core/Decision.cs:88-105 | when the weight times the bonus is below the threshold, nothing is evaluated, the decision is skipped and it scores the weight times the bonus |
| Decisions.NoStopAt | Assets/Sylpheed/UtilityAI/Runtime/Core/Decision.cs:81-94 | with a non-positive threshold and positive scores, neither stop condition ever holds |
| Decisions.NoPruning | Assets/Sylpheed/UtilityAI/Runtime/Core/Decision.cs:76-105 | with no running best to beat (threshold at most 0) and only positive scores, every consideration is evaluated, nothing is skipped, and the score is the n-th root of the full product times the weight times the bonus |
| Decisions.UnprunedScore | Assets/Sylpheed/UtilityAI/Runtime/Core/Decision.cs:76-105 | for any threshold, a decision that is not skipped had every consideration evaluated and scores the n-th root of the full product times the weight times the bonus when that product is positive, and 0 otherwise |
| Decisions.CompensationRoundTrip | Assets/Sylpheed/UtilityAI/Runtime/Core/Decision.cs:101-105 | the compensation undoes the product: n considerations that all score s give s times the weight times the bonus |
| Decisions.ScoresAt | Assets/Sylpheed/UtilityAI/Runtime/Core/Decision.cs:77-79 | the i-th consideration score is the i-th cached consideration's own score |
| Decisions.ScoresInUnit | Assets/Sylpheed/UtilityAI/Runtime/Core/Decision.cs:121 | every consideration score of a decision lies in [0, 1] |
| Decisions.StoreAllKeys | Assets/Sylpheed/UtilityAI/Runtime/Core/Decision.cs:114-122 | looking up considerations adds exactly their keys to the cache |
| Decisions.StoreAllFrame | Assets/Sylpheed/UtilityAI/Runtime/Core/Decision.cs:122 | looking up considerations leaves every other key and its score unchanged |
| Decisions.StoreAllSound | Assets/Sylpheed/UtilityAI/Runtime/Core/Decision.cs:114-123 | looking up considerations keeps a sound cache sound |
| Decisions.LookupsAt | Assets/Sylpheed/UtilityAI/Runtime/Core/Decision.cs:111-124 | the i-th lookup sees the cache left by the first i lookups |
| Decisions.LookupSound | Assets/Sylpheed/UtilityAI/Runtime/Core/Decision.cs:115-121 | through a sound cache, a lookup yields the consideration's own score whether it hits or not |
| Decisions.LookupsSound | Assets/Sylpheed/UtilityAI/Runtime/Core/Decision.cs:111-124 | the cache is transparent: through a sound cache, with unique decorator ids, the scores looked up are exactly the considerations' own scores |
| Decisions.Decision.constructor | Assets/Sylpheed/UtilityAI/Runtime/Core/Decision.cs:38-60 | a decision created for an agent and behaviour, with a target and data, is not yet scored, skipped or concluded |
| Decisions.Decision.MaxScore | Assets/Sylpheed/UtilityAI/Runtime/Core/Decision.cs:15 | the behaviour's weight; no contract of its own, its use as the skip bound of Decide is stated by `Selection.Consider` and `Selection.WinnerIsFirstMaximum` |
| Decisions.Decision.EvaluateConsideration | Assets/Sylpheed/UtilityAI/Runtime/Core/Decision.cs:111-124 | a cacheable consideration whose key is present returns the cached score and leaves the cache as it was; otherwise the own score is returned and written under the key; afterwards the key holds the returned score |
| Decisions.Decision.ShouldStop | Assets/Sylpheed/UtilityAI/Runtime/Core/Decision.cs:81-94 | the loop stops before consideration i exactly when the product is zero or the (i+1)-th root of the product times the bonus is below the threshold |
| Decisions.Decision.EvaluateNext | Assets/Sylpheed/UtilityAI/Runtime/Core/Decision.cs:96-98 | one more lookup extends the running product and the running cache by the i-th consideration |
| Decisions.Decision.EvaluateConsiderations | Assets/Sylpheed/UtilityAI/Runtime/Core/Decision.cs:75-99 | the loop evaluates exactly the prefix the stop rule allows, in order: the product is that prefix's product, it stopped early exactly when the prefix is shorter than the list, and the cache holds exactly that prefix's lookups |
| Decisions.Decision.Evaluate | Assets/Sylpheed/UtilityAI/Runtime/Core/Decision.cs:70-109 | sets Scored; Score equals the returned DecisionScore of the looked-up scores; Skipped is set when the loop stopped early and never cleared; through a sound cache the scores are the considerations' own and the cache stays sound |
| Decisions.IsSimilar | Assets/Sylpheed/UtilityAI/Runtime/Core/Decision.cs:159-168 | false when either decision is null; otherwise true exactly when behaviour, agent, target and data are equal |
| Decisions.SimilarIsEquivalence | Assets/Sylpheed/UtilityAI/Runtime/Core/Decision.cs:159-168 | similarity is symmetric, reflexive on present decisions, and transitive |
| Decisions.DecisionResult.constructor | Assets/Sylpheed/UtilityAI/Runtime/Core/DecisionResult.cs:5-8 | a new record holds its decision and same-decision flag, is not best, and has weighted score 0 |
| Selection.Run | Assets/Sylpheed/UtilityAI/Runtime/Core/UtilityAgent.cs:137-162 | the running best index is -1 or the index of a candidate |
| Selection.Consider | Assets/Sylpheed/UtilityAI/Runtime/Core/UtilityAgent.cs:150-161 | one pass of Decide's loop: the best score never drops; a candidate whose weight (MaxScore) is below it is skipped; the best changes only to the candidate itself, at its index, with its score against the running best, and only when that score is strictly higher |
| Selection.PrefixStable | Assets/Sylpheed/UtilityAI/Runtime/Core/UtilityAgent.cs:139-162 | the threshold, evaluation and score of a candidate do not depend on later candidates |
| Selection.RunWinner | Assets/Sylpheed/UtilityAI/Runtime/Core/UtilityAgent.cs:137-161 | the best score starts at 0 and never goes negative; there is a winner exactly when the best score is positive; the winner was evaluated and the best score is its score |
| Selection.ThresholdBelowBest | Assets/Sylpheed/UtilityAI/Runtime/Core/UtilityAgent.cs:150-161 | every candidate's threshold is at most the final best score |
| Selection.WinnerIsFirstMaximum | Assets/Sylpheed/UtilityAI/Runtime/Core/UtilityAgent.cs:150-161 | every evaluated candidate scores at most the winner's score, every evaluated candidate before the winner scores strictly less (ties go to the earliest), and every candidate not evaluated has a weight below the winner's score |
| Selection.ThresholdAbove | Assets/Sylpheed/UtilityAI/Runtime/Core/UtilityAgent.cs:157-161 | the thresholds up to and including the winner's own are strictly below the winning score |
| Selection.LastWinAt | Assets/Sylpheed/UtilityAI/Runtime/Core/UtilityAgent.cs:157-161 | the winner took the lead at its own index, strictly above the threshold it saw, and kept it to the end |
| Actions.Action.constructor | Assets/Sylpheed/UtilityAI/Runtime/Core/Action.cs:40-41 | a fresh action has no decision, no callback, is not executed and has called no hook |
| Actions.Action.Execute | Assets/Sylpheed/UtilityAI/Runtime/Core/Action.cs:43-56 | a second execution fails and changes nothing; the first stores decision and callback, sets executed, calls OnEnter and, when it refuses, OnExit, never the callback |
| Actions.Action.Interrupt | Assets/Sylpheed/UtilityAI/Runtime/Core/Action.cs:58-61 | calls OnExit only, never the callback, and changes no other state |
| Actions.Action.Conclude | Assets/Sylpheed/UtilityAI/Runtime/Core/Action.cs:78-82 | calls OnExit, then the callback once if present, which marks its decision concluded and leaves its score fields alone; a missing callback is tolerated |
| Actions.Action.Update | Assets/Sylpheed/UtilityAI/Runtime/Core/Action.cs:63-68 | when ShouldExit is false only OnUpdate(dt) is called and the callback's decision is untouched; otherwise the action concludes as Conclude does (OnExit, then the callback, which marks its decision concluded and leaves its score fields alone) and OnUpdate is not called |
| Actions.Action.FixedUpdate | Assets/Sylpheed/UtilityAI/Runtime/Core/Action.cs:70-73 | always forwards to OnFixedUpdate(dt), whatever the state |
| Actions.Enact | Assets/Sylpheed/UtilityAI/Runtime/Core/Decision.cs:136-151 | null when the behaviour has no action; otherwise a fresh executed action for the decision whose callback concludes that decision, having called OnEnter (and OnExit if entry was refused) |
| Agents.FlattenMember | Assets/Sylpheed/UtilityAI/Runtime/Core/UtilityAgent.cs:182-183 | every decision of the concatenated reasoner outputs comes from one behaviour's list |
| Agents.CandidatesOrdered | Assets/Sylpheed/UtilityAI/Runtime/Core/UtilityAgent.cs:176-186 | the candidates are exactly the reasoners' decisions, by non-increasing weight, decisions of equal weight keeping their build order |
| Agents.BuildDecisions | Assets/Sylpheed/UtilityAI/Runtime/Core/UtilityAgent.cs:176-186 | the reasoners' decisions, concatenated in behaviour order and stably sorted by descending weight; no contract of its own, its properties are stated by `Agents.CandidatesOrdered` and `Agents.Agent.CandidatesFromBehaviors` |
| Agents.Agent.constructor | Assets/Sylpheed/UtilityAI/Runtime/Core/UtilityAgent.cs:13-32 | a new agent has no behaviours, no decision, no action, an empty cache, no results and a timer at 0 |
| Agents.Agent.AddBehaviorSet | Assets/Sylpheed/UtilityAI/Runtime/Core/UtilityAgent.cs:99-105 | a null set is ignored; otherwise the set is appended and its behaviours are appended in order |
| Agents.Agent.AddBehaviors | Assets/Sylpheed/UtilityAI/Runtime/Core/UtilityAgent.cs:107-110 | the behaviours are appended in order |
| Agents.Agent.RemoveBehaviorSet | Assets/Sylpheed/UtilityAI/Runtime/Core/UtilityAgent.cs:112-119 | a null set is ignored; otherwise the first occurrence of the set and then of each of its behaviours is removed |
| Agents.Agent.RemoveBehaviors | Assets/Sylpheed/UtilityAI/Runtime/Core/UtilityAgent.cs:121-125 | the first occurrence of each listed behaviour is removed, in list order |
| Agents.Agent.SimilarBonus | Assets/Sylpheed/UtilityAI/Runtime/Core/UtilityAgent.cs:168-174 | the bonus is the same-decision bonus exactly when the candidate is similar to the current decision and that one has not concluded; otherwise 1 |
| Agents.Agent.CandidatesOfAt | Assets/Sylpheed/UtilityAI/Runtime/Core/UtilityAgent.cs:150-154 | each candidate's view for selection is its weight, its weight times its bonus and its consideration scores |
| Agents.Agent.Record | Assets/Sylpheed/UtilityAI/Runtime/Core/UtilityAgent.cs:142-147 | appends one fresh record for the next candidate, holding that decision and whether it is similar to the current decision, not marked best |
| Agents.Agent.EvaluateCandidate | Assets/Sylpheed/UtilityAI/Runtime/Core/UtilityAgent.cs:150-154 | a candidate whose weight is below the best score is not evaluated and keeps its fields; otherwise it is evaluated against the best score with its bonus and gets the selection rule's score |
| Agents.Agent.Step | Assets/Sylpheed/UtilityAI/Runtime/Core/UtilityAgent.cs:139-161 | one loop pass appends a fresh record and advances the running best exactly as the selection rule does |
| Agents.Agent.EvaluateAll | Assets/Sylpheed/UtilityAI/Runtime/Core/UtilityAgent.cs:137-162 | the loop leaves one fresh record per candidate in order, and the best record is the selection rule's winner |
| Agents.Agent.MarkBest | Assets/Sylpheed/UtilityAI/Runtime/Core/UtilityAgent.cs:164-165 | exactly the winner's record is marked best, and the winner's decision (or null) is returned |
| Agents.Agent.Decide | Assets/Sylpheed/UtilityAI/Runtime/Core/UtilityAgent.cs:128-166 | no candidates: null, cache and results untouched; otherwise it returns the first strictly highest scorer (or null when none scores above 0), with one record per candidate in order, holding IsSimilar to the current decision and marked best exactly for the winner; evaluated candidates get the rule's score and unevaluated ones are left as they were |
| Agents.Agent.EnactDecision | Assets/Sylpheed/UtilityAI/Runtime/Core/UtilityAgent.cs:71-96 | a null decision or one similar to the current one changes nothing and does not interrupt; otherwise the old action gets OnExit (and keeps its decision, callback and executed flag), the current decision becomes the previous one, and the new decision is enacted |
| Agents.Agent.CandidatesFromBehaviors | Assets/Sylpheed/UtilityAI/Runtime/Core/UtilityAgent.cs:176-186 | every candidate built from the agent's behaviours is a decision of this agent for one of its behaviours |
| Agents.Agent.Choose | Assets/Sylpheed/UtilityAI/Runtime/Core/UtilityAgent.cs:66-67 | the decision chosen is the selection rule's winner among the built candidates, a decision of this agent for one of its behaviours |
| Agents.Agent.Think | Assets/Sylpheed/UtilityAI/Runtime/Core/UtilityAgent.cs:64-69 | the winner among the candidates built from the agent's behaviours is enacted, with EnactDecision's effect on the current decision and action; the interrupted action keeps its decision, callback and executed flag; a newly enacted action is fresh, executed, holds the chosen decision and concludes it through its callback |
| Agents.Agent.NoBonusWithoutCurrent | Assets/Sylpheed/UtilityAI/Runtime/Core/UtilityAgent.cs:168-171 | without a current decision every candidate is weighted by its behaviour weight alone and sees its own consideration scores |
| Agents.Agent.ActionConcluded | Assets/Sylpheed/UtilityAI/Runtime/Core/UtilityAgent.cs:89-95 | the callback clears the current decision and thinks again over the candidates built from the agent's behaviours, each seen with its weight, no bonus and its own consideration scores, so the choice is the selection rule's winner among them; when nothing is chosen the running action is kept with its hook trace untouched; a chosen decision is enacted even if it is similar to the one that concluded, and the concluded action is then interrupted, so its OnExit runs a second time; a newly enacted action is fresh, executed, holds the chosen decision and concludes it through its callback, having called OnEnter (and OnExit if entry was refused) |
| Agents.Agent.UpdateDecisions | Assets/Sylpheed/UtilityAI/Runtime/Core/UtilityAgent.cs:51-62 | thinks and resets the timer to 0 exactly when the timer has reached the interval; otherwise advances the timer by dt and changes nothing else: the current decision, the running action and every candidate decision are left unchanged |

## Left out

- Target search (`SearchTargets`, sphere casts, `InRangeConsideration`) uses Unity physics. The reasoners' outputs that depend on it are an input of `Think`.
- The serialized defaults `_shouldCacheScore = true` (Consideration.cs:13) and `_weight = 1` (Behavior.cs:17) are values a new asset gets in the editor. Loading assets is not modelled: the `Consideration` value and the `Behavior` constructor take every field as given.
- `Behavior.Considerations` is null until `OnEnable` has run, and `Decision.Evaluate` then throws (Decision.cs:77). The model's constructor starts with an empty cached list instead, which would score `root(1, 0)` times the bonus. Behaviours that were never enabled are outside the model; `Behavior.Valid()` (after `OnEnable` or `OnValidate`) is the intended state.
- `Behavior.BuildDecisions`: the reasoner's code is not part of this model. Its output for each behaviour is one list in `outputs`. `Agent.BuiltFrom` assumes that each reasoner builds decisions for this agent and for its own behaviour, which the source's reasoners are expected to do but the shown code does not enforce.
- `Awake`, `Update` and `FixedUpdate` of the agent are Unity entry points. `Awake` adds the serialized base behaviour set; the model has no such field and leaves this to a call of `AddBehaviorSet`. `Update` and `FixedUpdate` forward to `UpdateDecisions` and the running action's `Update`/`FixedUpdate`, which are modelled with `dt` as a parameter. `Time` and the `Log` calls are left out.
- `Actions.Enact`: the JSON clone of the action template is modelled as a fresh action instance. A behaviour's action template is reduced to whether it is set (`hasAction`).
- `BuildConsiderationHash` relies on `GetHashCode`. The model uses the tuple of identities as the key, and `UniqueIds` stands in for the absence of hash collisions.
- Floating-point rounding is not modelled. `Mathf.Pow` is an abstract `root` with the laws above, and `Mathf.Approximately(p, 0)` is `p == 0`.
- Behaviours with no considerations are not excluded. Their score is `root(1, 0)` times the bonus: the model leaves it abstract, where the source divides `1f / 0` and relies on IEEE infinity. `Decisions.DecisionScoreRange` and the other range lemmas assume at least one consideration.
- `OnEvaluate`, `UtilityTarget.HasTags` and the reasoners are not part of this model. They are oracles, and `OnEvaluate` is assumed deterministic within a decision cycle. It is also given only the agent, target and data (`Subject`), not the decision's behaviour, although the source hands it the whole decision. Both restrictions make the cache transparent (`LookupsSound`): the source's cache key (Decision.cs:126-133) leaves the behaviour out too, so an `OnEvaluate` that read the behaviour could see a score cached for another behaviour.
- `_useWeightedScoreProbability`, `_targetSearchRadius` and `_maxTargetsPerDecision` are declared but not used by the modelled code.
- Editor files, samples and the debug drawing are outside the engine.
- The conclusion callback is re-entrant in the source: `Think` runs inside the action's `Conclude`. The model splits it into `Action.Conclude` reporting `notified`, and the agent's `ActionConcluded` as a separate call; it does not model the unbounded recursion an always-concluding action can cause.
- Agents.Agent.Decide: the cache afterwards is stated only as sound (every entry equals its consideration's own score), not entry by entry.
- Agents.Agent.Decide requires the candidate decisions to be distinct objects and their decorators to have unique ids. The source does not check either; a reasoner returning the same decision object twice is outside the model.
- Agents.Agent.Think: the records and the cache left by `Decide` are stated by `Decide` itself; Think states the choice and its effect on the current decision and action.
- Agents.Agent.UpdateDecisions: when it thinks, it states the choice and the new current decision, not the records, the cache or the action (stated by `Decide` and `Think`).
- `Decision.Concluded` is left unchanged by `Decide` and `EnactDecision` only through their `modifies` clauses, not through an `ensures`.
- The score cache is passed to and returned from `Decision.Evaluate` as a value rather than mutated through a shared dictionary reference; the agent owns the only copy.
- `Decision.Create`, `WithTarget` and `WithData` are folded into the `Decision` constructor, and `GetData`/`TryGetData` are casts left out.
- `BehaviorSet` is modelled only as its list of behaviours.
- A null `params` array passed to `AddBehaviors`/`RemoveBehaviors` (which throws in the source) is not modelled.
- `DecisionResult.Skipped`, `Scored` and `Score` are plain reads of the decision's fields and carry no contract of their own. `WeightedScore` is never written and stays 0.
