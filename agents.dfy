/** UtilityAgent.cs: the agent's behaviour list, its decision cycle (build
    candidates, decide, enact) and the interval timer that starts a cycle. */
module Agents {
  import opened Seqs
  import opened Considerations
  import opened Behaviors
  import opened Decisions
  import opened Selection
  import opened Actions

  /** The ordering key of BuildDecisions: the decision's behaviour weight. */
  function WeightKey(d: Decision): real { d.behavior.weight }

  /** The reasoners' outputs, one list per behaviour, concatenated in order. */
  function Flatten(outputs: seq<seq<Decision>>): seq<Decision> {
    if outputs == [] then [] else Flatten(outputs[..|outputs| - 1]) + outputs[|outputs| - 1]
  }

  /** A decision in the concatenation comes from one of the lists. */
  lemma {:induction false} FlattenMember(outputs: seq<seq<Decision>>, d: Decision)
    requires d in Flatten(outputs)
    ensures exists i :: 0 <= i < |outputs| && d in outputs[i]
  {
    var n := |outputs| - 1;
    if d !in outputs[n] {
      FlattenMember(outputs[..n], d);
      var i :| 0 <= i < n && d in outputs[..n][i];
      assert outputs[..n][i] == outputs[i];
    }
  }

  /** BuildDecisions: the decisions every behaviour's reasoner built, stably
      ordered by descending weight. */
  function BuildDecisions(outputs: seq<seq<Decision>>): seq<Decision> {
    SortDesc(Flatten(outputs), WeightKey)
  }

  /** The candidates are exactly the reasoners' decisions, by non-increasing
      weight, those of equal weight keeping the order they were built in. */
  lemma CandidatesOrdered(outputs: seq<seq<Decision>>)
    ensures SortedDesc(BuildDecisions(outputs), WeightKey)
    ensures multiset(BuildDecisions(outputs)) == multiset(Flatten(outputs))
    ensures forall w :: WithKey(BuildDecisions(outputs), WeightKey, w) == WithKey(Flatten(outputs), WeightKey, w)
  {
    SortDescCorrect(Flatten(outputs), WeightKey);
  }

  /** The decorators of every candidate's behaviour. */
  ghost function DecoratorsOf(ds: seq<Decision>): set<Decorator>
    reads (set j | 0 <= j < |ds| :: ds[j].behavior)`cached
  {
    set j, k | 0 <= j < |ds| && 0 <= k < |ds[j].behavior.cached| :: ds[j].behavior.cached[k]
  }

  /** The fields Decision.Evaluate writes. */
  datatype Marks = Marks(score: real, scored: bool, skipped: bool)

  ghost function MarksOf(d: Decision): Marks
    reads d`score, d`scored, d`skipped
  {
    Marks(d.score, d.scored, d.skipped)
  }

  /** No decision object appears twice in the list. */
  predicate Distinct(ds: seq<Decision>) {
    forall i, j :: 0 <= i < j < |ds| ==> ds[i] != ds[j]
  }

  class Agent {
    const id: int
    const decisionInterval: real
    const sameDecisionScoreBonus: real
    var behaviorSets: seq<BehaviorSet>
    var behaviors: seq<Behavior>
    var decisionTimer: real
    var cache: ScoreCache
    var currentAction: Action?
    var currentDecision: Decision?
    var previousDecision: Decision?
    var results: seq<DecisionResult>

    /** A new agent: nothing added, no decision, an empty cache. The source's
        defaults are an interval of 1 and a bonus of 1.25. */
    constructor (id: int, decisionInterval: real, sameDecisionScoreBonus: real)
      ensures this.id == id && this.decisionInterval == decisionInterval
      ensures this.sameDecisionScoreBonus == sameDecisionScoreBonus
      ensures behaviorSets == [] && behaviors == [] && decisionTimer == 0.0 && cache == map[]
      ensures currentAction == null && currentDecision == null && previousDecision == null && results == []
    {
      this.id := id;
      this.decisionInterval := decisionInterval;
      this.sameDecisionScoreBonus := sameDecisionScoreBonus;
      behaviorSets := [];
      behaviors := [];
      decisionTimer := 0.0;
      cache := map[];
      currentAction := null;
      currentDecision := null;
      previousDecision := null;
      results := [];
    }

    // -------------------------------------------------------------------
    // Behaviour list
    // -------------------------------------------------------------------

    /** AddBehaviors(BehaviorSet): a null set is ignored; otherwise the set is
        recorded and its behaviours are appended in order. */
    method AddBehaviorSet(behaviorSet: BehaviorSet?)
      modifies this`behaviorSets, this`behaviors
      ensures behaviorSet == null ==> behaviorSets == old(behaviorSets) && behaviors == old(behaviors)
      ensures behaviorSet != null ==>
                behaviorSets == old(behaviorSets) + [behaviorSet] && behaviors == old(behaviors) + behaviorSet.behaviors
    {
      if behaviorSet == null {
        return;
      }
      behaviorSets := behaviorSets + [behaviorSet];
      behaviors := behaviors + behaviorSet.behaviors;
    }

    /** AddBehaviors(params Behavior[]): appends the behaviours in order. */
    method AddBehaviors(xs: seq<Behavior>)
      modifies this`behaviors
      ensures behaviors == old(behaviors) + xs
    {
      behaviors := behaviors + xs;
    }

    /** RemoveBehaviors(BehaviorSet): a null set is ignored; otherwise the
        first occurrence of the set and of each of its behaviours is removed. */
    method RemoveBehaviorSet(behaviorSet: BehaviorSet?)
      modifies this`behaviorSets, this`behaviors
      ensures behaviorSet == null ==> behaviorSets == old(behaviorSets) && behaviors == old(behaviors)
      ensures behaviorSet != null ==>
                behaviorSets == RemoveFirst<BehaviorSet>(old(behaviorSets), behaviorSet)
                && behaviors == RemoveEach(old(behaviors), behaviorSet.behaviors)
    {
      if behaviorSet == null {
        return;
      }
      behaviorSets := RemoveFirst<BehaviorSet>(behaviorSets, behaviorSet);
      RemoveBehaviors(behaviorSet.behaviors);
    }

    /** RemoveBehaviors(params Behavior[]): removes the first occurrence of
        each listed behaviour, in list order. */
    method RemoveBehaviors(xs: seq<Behavior>)
      modifies this`behaviors
      ensures behaviors == RemoveEach(old(behaviors), xs)
    {
      var i := 0;
      while i < |xs|
        invariant 0 <= i <= |xs|
        invariant behaviors == RemoveEach(old(behaviors), xs[..i])
      {
        assert xs[..i + 1][..i] == xs[..i];
        behaviors := RemoveFirst(behaviors, xs[i]);
        i := i + 1;
      }
      assert xs[..i] == xs;
    }

    // -------------------------------------------------------------------
    // Deciding
    // -------------------------------------------------------------------

    /** EvaluateSimilarDecisionBonus: the same-decision bonus goes to a
        decision similar to the current one while that one has not
        concluded; every other decision gets 1. */
    function SimilarBonus(d: Decision): (r: real)
      reads this`currentDecision, {currentDecision}`concluded
      ensures IsSimilar(currentDecision, d) && !currentDecision.concluded ==> r == sameDecisionScoreBonus
      ensures !IsSimilar(currentDecision, d) || currentDecision.concluded ==> r == 1.0
    {
      if !IsSimilar(currentDecision, d) then 1.0
      else if currentDecision.concluded then 1.0
      else sameDecisionScoreBonus
    }

    /** What the selection rule sees of decision `d`. */
    ghost function CandidateOf(d: Decision, env: Env): Candidate
      reads this`currentDecision, {currentDecision}`concluded, d.behavior`cached
    {
      Candidate(d.behavior.weight, d.behavior.weight * SimilarBonus(d), d.ConsiderationScores(env))
    }

    /** What the selection rule sees of the decisions `ds`. */
    ghost function CandidatesOf(ds: seq<Decision>, env: Env): (r: seq<Candidate>)
      reads this`currentDecision, {currentDecision}`concluded, (set j | 0 <= j < |ds| :: ds[j].behavior)`cached
      ensures |r| == |ds|
    {
      if ds == [] then []
      else CandidatesOf(ds[..|ds| - 1], env) + [CandidateOf(ds[|ds| - 1], env)]
    }

    lemma CandidatesOfAt(ds: seq<Decision>, env: Env, i: nat)
      requires i < |ds|
      ensures CandidatesOf(ds, env)[i] == CandidateOf(ds[i], env)
      decreases |ds|
    {
      if i < |ds| - 1 {
        CandidatesOfAt(ds[..|ds| - 1], env, i);
      }
    }

    /** Each candidate is what the selection rule sees of its decision, and
        each decision's decorators are among those of the list. */
    lemma CandidatesEach(ds: seq<Decision>, env: Env)
      ensures forall j :: 0 <= j < |ds| ==> CandidatesOf(ds, env)[j] == CandidateOf(ds[j], env)
      ensures forall j, k :: 0 <= j < |ds| && 0 <= k < |ds[j].behavior.cached| ==>
                ds[j].behavior.cached[k] in DecoratorsOf(ds)
    {
      forall j | 0 <= j < |ds|
        ensures CandidatesOf(ds, env)[j] == CandidateOf(ds[j], env)
      {
        CandidatesOfAt(ds, env, j);
      }
    }

    /** What Decide leaves in decision `d`, the j-th candidate of `cs`,
        whose score, scored and skipped fields were `m0` before: an
        evaluated candidate is scored with the score of the selection rule
        and marked skipped if its evaluation stopped early; any other
        candidate is left as it was. */
    ghost predicate Outcome(d: Decision, cs: seq<Candidate>, j: nat, root: (real, nat) -> real, m0: Marks)
      requires j < |cs|
      reads d`score, d`scored, d`skipped
    {
      if IsEvaluated(cs, j, root) then
        && d.scored
        && d.score == ScoreAt(cs, j, root)
        && d.skipped == (m0.skipped || Pruned(cs[j].scores, Threshold(cs, j, root), cs[j].bonus, root))
      else
        MarksOf(d) == m0
    }

    /** The first i candidates have their outcome, the others are untouched. */
    ghost predicate OutcomesUpTo(ds: seq<Decision>, cs: seq<Candidate>, ms: seq<Marks>, i: nat,
                                 root: (real, nat) -> real)
      requires |cs| == |ds| == |ms| && i <= |ds|
      reads ds`score, ds`scored, ds`skipped
    {
      forall j :: 0 <= j < |ds| ==>
        if j < i then Outcome(ds[j], cs, j, root, ms[j]) else MarksOf(ds[j]) == ms[j]
    }

    /** The record Decide keeps of candidate `d`. */
    ghost predicate Recorded(r: DecisionResult, d: Decision, similar: bool, best: bool)
      reads r`decision, r`isSameDecision, r`best, r`weightedScore
    {
      r.decision == d && r.isSameDecision == similar && r.best == best && r.weightedScore == 0.0
    }

    /** `rs` are records of the first |rs| candidates, none yet best. */
    ghost predicate RecordedUpTo(rs: seq<DecisionResult>, ds: seq<Decision>, current: Decision?)
      reads rs`decision, rs`isSameDecision, rs`best, rs`weightedScore
    {
      && |rs| <= |ds|
      && (forall j :: 0 <= j < |rs| ==> Recorded(rs[j], ds[j], IsSimilar(current, ds[j]), false))
    }

    /** Appends a result for the next candidate `d`, not yet marked best. */
    method Record(d: Decision, ghost ds: seq<Decision>) returns (r: DecisionResult)
      requires RecordedUpTo(results, ds, currentDecision)
      requires |results| < |ds| && d == ds[|results|]
      modifies this`results
      ensures fresh(r) && results == old(results) + [r]
      ensures RecordedUpTo(results, ds, currentDecision)
    {
      r := new DecisionResult(d, IsSimilar(currentDecision, d));
      results := results + [r];
    }

    /** The body of Decide's loop for candidate `d`, the i-th of `ds`, seen by
        the selection rule as `c`: a candidate whose weight (its MaxScore) is
        below the best score so far is not evaluated; otherwise it is
        evaluated against that score with the same-decision bonus. */
    method EvaluateCandidate(d: Decision, best: real, env: Env, ghost c: Candidate, ghost u: set<Decorator>)
      returns (evaluated: bool, score: real)
      requires c == CandidateOf(d, env)
      requires forall k :: 0 <= k < |d.behavior.cached| ==> d.behavior.cached[k] in u
      requires UniqueIds(u) && Sound(cache, u, env)
      modifies this`cache, d`score, d`scored, d`skipped
      ensures evaluated == !(c.weight < best)
      ensures evaluated ==> score == CandidateScore(c, best, env.root)
      ensures evaluated ==> d.scored && d.score == score
                            && d.skipped == (old(d.skipped) || Pruned(c.scores, best, c.bonus, env.root))
      ensures !evaluated ==> MarksOf(d) == old(MarksOf(d))
      ensures Sound(cache, u, env)
    {
      if d.MaxScore() < best {
        return false, 0.0;
      }
      var bonus := SimilarBonus(d);
      assert c == Candidate(d.behavior.weight, d.behavior.weight * bonus, d.ConsiderationScores(env));
      var before := cache;
      score, cache := d.Evaluate(best, bonus, before, env, u);
      assert d.LookupScores(before, env) == c.scores;
      evaluated := true;
    }

    /** Decide's evaluation of the i-th candidate: evaluates it when its
        weight reaches the best score so far, keeping every other candidate
        as it was. */
    method EvaluateAt(ds: seq<Decision>, i: nat, best: real, env: Env,
                      ghost cs: seq<Candidate>, ghost ms: seq<Marks>, ghost u: set<Decorator>)
      returns (evaluated: bool, score: real)
      requires |cs| == |ds| == |ms| && i < |ds| && Distinct(ds)
      requires best == Threshold(cs, i, env.root)
      requires OutcomesUpTo(ds, cs, ms, i, env.root)
      requires cs[i] == CandidateOf(ds[i], env)
      requires forall k :: 0 <= k < |ds[i].behavior.cached| ==> ds[i].behavior.cached[k] in u
      requires UniqueIds(u) && Sound(cache, u, env)
      modifies this`cache, {ds[i]}`score, {ds[i]}`scored, {ds[i]}`skipped
      ensures OutcomesUpTo(ds, cs, ms, i + 1, env.root)
      ensures evaluated == IsEvaluated(cs, i, env.root)
      ensures evaluated ==> score == ScoreAt(cs, i, env.root)
      ensures Sound(cache, u, env)
    {
      var d := ds[i];
      assert MarksOf(d) == ms[i];
      evaluated, score := EvaluateCandidate(d, best, env, cs[i], u);
      forall j | 0 <= j < |ds| && j != i
        ensures MarksOf(ds[j]) == old(MarksOf(ds[j]))
      {
        assert ds[j] != d;
      }
    }

    /** Where Decide's loop stands before candidate i: the best score and
        index are the selection rule's running best over the first i
        candidates, `bestResult` is the winner's record, the first i
        candidates are recorded and have their outcome, and the cache is
        sound. */
    ghost predicate Progress(ds: seq<Decision>, env: Env, cs: seq<Candidate>, ms: seq<Marks>,
                             u: set<Decorator>, i: nat,
                             bestResult: DecisionResult?, bestScore: real, bestIndex: int)
      reads this`results, this`cache, this`currentDecision
      reads results`decision, results`isSameDecision, results`best, results`weightedScore
      reads ds`score, ds`scored, ds`skipped
    {
      && |cs| == |ds| == |ms| && i <= |ds| && |results| == i
      && Run(cs[..i], env.root) == Best(bestScore, bestIndex)
      && bestResult == (if bestIndex < 0 then null else results[bestIndex])
      && RecordedUpTo(results, ds, currentDecision)
      && OutcomesUpTo(ds, cs, ms, i, env.root)
      && Sound(cache, u, env)
    }

    /** Decide's loop body for the i-th candidate: records it, evaluates it
        when its weight reaches the best score so far, and makes it the
        best when its score is strictly higher. */
    method Step(ds: seq<Decision>, i: nat, env: Env, bestResult: DecisionResult?, bestScore: real,
                ghost cs: seq<Candidate>, ghost ms: seq<Marks>, ghost u: set<Decorator>, ghost bestIndex: int)
      returns (bestResult': DecisionResult?, bestScore': real, ghost bestIndex': int)
      requires i < |ds| && Distinct(ds) && UniqueIds(u)
      requires Progress(ds, env, cs, ms, u, i, bestResult, bestScore, bestIndex)
      requires cs[i] == CandidateOf(ds[i], env)
      requires forall k :: 0 <= k < |ds[i].behavior.cached| ==> ds[i].behavior.cached[k] in u
      modifies this`cache, this`results, {ds[i]}`score, {ds[i]}`scored, {ds[i]}`skipped
      ensures Progress(ds, env, cs, ms, u, i + 1, bestResult', bestScore', bestIndex')
      ensures results == old(results) + [results[i]] && fresh(results[i])
      ensures bestResult' == bestResult || bestResult' == results[i]
    {
      var result := Record(ds[i], ds);
      RunSnoc(cs, i, env.root);
      var evaluated, score := EvaluateAt(ds, i, bestScore, env, cs, ms, u);
      if evaluated && score > bestScore {
        bestResult', bestScore', bestIndex' := result, score, i;
      } else {
        bestResult', bestScore', bestIndex' := bestResult, bestScore, bestIndex;
      }
    }

    /** Decide's loop: records every candidate in order and evaluates each
        whose weight reaches the best score so far against that score. The
        best so far is the running best of the selection rule; `bestResult`
        is the record of its winner. */
    method EvaluateAll(ds: seq<Decision>, env: Env,
                       ghost cs: seq<Candidate>, ghost ms: seq<Marks>, ghost u: set<Decorator>)
      returns (bestResult: DecisionResult?, ghost bestIndex: int)
      requires |cs| == |ds| == |ms| && Distinct(ds) && results == []
      requires forall j :: 0 <= j < |ds| ==> cs[j] == CandidateOf(ds[j], env)
      requires forall j, k :: 0 <= j < |ds| && 0 <= k < |ds[j].behavior.cached| ==> ds[j].behavior.cached[k] in u
      requires OutcomesUpTo(ds, cs, ms, 0, env.root)
      requires UniqueIds(u) && Sound(cache, u, env)
      modifies this`cache, this`results, ds`score, ds`scored, ds`skipped
      ensures |results| == |ds| && bestIndex == Run(cs, env.root).index
      ensures bestResult == (if bestIndex < 0 then null else results[bestIndex])
      ensures RecordedUpTo(results, ds, currentDecision)
      ensures OutcomesUpTo(ds, cs, ms, |ds|, env.root)
      ensures Sound(cache, u, env)
      ensures forall r | r in results :: fresh(r)
      ensures bestResult == null || fresh(bestResult)
    {
      bestResult := null;
      var bestScore := 0.0;
      bestIndex := -1;
      var i := 0;
      while i < |ds|
        invariant i <= |ds| && Progress(ds, env, cs, ms, u, i, bestResult, bestScore, bestIndex)
        invariant forall r | r in results :: fresh(r)
        invariant bestResult == null || fresh(bestResult)
      {
        ghost var before := results;
        bestResult, bestScore, bestIndex := Step(ds, i, env, bestResult, bestScore, cs, ms, u, bestIndex);
        assert forall r | r in results :: r in before || r == results[i];
        i := i + 1;
      }
      assert cs[..i] == cs;
    }

    /** Marks the winner's record best, the others staying not best, and
        returns the winner's decision (null when nothing won). */
    method MarkBest(bestResult: DecisionResult?, ghost ds: seq<Decision>, ghost bestIndex: int,
                    ghost cs: seq<Candidate>, ghost ms: seq<Marks>, ghost root: (real, nat) -> real)
      returns (chosen: Decision?)
      requires |results| == |ds| && -1 <= bestIndex < |ds| && RecordedUpTo(results, ds, currentDecision)
      requires Distinct(ds)
      requires bestResult == (if bestIndex < 0 then null else results[bestIndex])
      requires |cs| == |ds| == |ms| && OutcomesUpTo(ds, cs, ms, |ds|, root)
      modifies {bestResult}`best
      ensures chosen == (if bestIndex < 0 then null else ds[bestIndex])
      ensures OutcomesUpTo(ds, cs, ms, |ds|, root)
      ensures forall j :: 0 <= j < |ds| ==>
                Recorded(results[j], ds[j], IsSimilar(currentDecision, ds[j]), j == bestIndex)
    {
      ghost var rs := results;
      if bestResult != null {
        bestResult.best := true;
      }
      forall j | 0 <= j < |ds|
        ensures Recorded(results[j], ds[j], IsSimilar(currentDecision, ds[j]), j == bestIndex)
      {
        assert old(Recorded(rs[j], ds[j], IsSimilar(currentDecision, ds[j]), false));
        if j != bestIndex && bestIndex >= 0 {
          assert rs[j].decision != rs[bestIndex].decision;
        }
      }
      chosen := if bestResult == null then null else bestResult.decision;
    }

    /** Decide for a non-empty candidate list `ds`, seen by the selection
        rule as `cs`, whose decisions' score fields were `ms` before and
        whose decorators are among `u`, once the cache and the results are
        cleared: runs the loop and marks the winner's record best. */
    method DecideAll(ds: seq<Decision>, env: Env,
                     ghost cs: seq<Candidate>, ghost ms: seq<Marks>, ghost u: set<Decorator>)
      returns (chosen: Decision?)
      requires |cs| == |ds| == |ms| && Distinct(ds)
      requires cs == CandidatesOf(ds, env) && u == DecoratorsOf(ds)
      requires OutcomesUpTo(ds, cs, ms, 0, env.root)
      requires UniqueIds(u) && cache == map[] && results == []
      modifies this`cache, this`results, ds`score, ds`scored, ds`skipped
      ensures var b := Run(cs, env.root); chosen == (if b.index < 0 then null else ds[b.index])
      ensures |results| == |ds| && forall r | r in results :: fresh(r)
      ensures forall j :: 0 <= j < |ds| ==>
                Recorded(results[j], ds[j], IsSimilar(currentDecision, ds[j]), j == Run(cs, env.root).index)
      ensures OutcomesUpTo(ds, cs, ms, |ds|, env.root)
      ensures Sound(cache, u, env)
    {
      CandidatesEach(ds, env);
      var bestResult, bestIndex := EvaluateAll(ds, env, cs, ms, u);
      chosen := MarkBest(bestResult, ds, bestIndex, cs, ms, env.root);
    }

    /** Decide: with no candidates, returns null before touching the cache
        or the results. Otherwise clears both, records one result per
        candidate in order, evaluates every candidate whose weight is not
        below the best score so far against that score, keeps the first
        strictly highest score, marks its result best and returns its
        decision (null when no candidate scored above 0). `cs` is what the
        selection rule sees of the candidates. */
    method Decide(ds: seq<Decision>, env: Env) returns (chosen: Decision?, ghost cs: seq<Candidate>)
      requires Distinct(ds)
      requires UniqueIds(DecoratorsOf(ds))
      modifies this`cache, this`results, ds`score, ds`scored, ds`skipped
      ensures cs == old(CandidatesOf(ds, env))
      ensures |ds| == 0 ==> chosen == null && cache == old(cache) && results == old(results)
      ensures |ds| > 0 ==>
                var b := Run(cs, env.root);
                chosen == (if b.index < 0 then null else ds[b.index])
      ensures |ds| > 0 ==> |results| == |ds| && forall r | r in results :: fresh(r)
      ensures |ds| > 0 ==> forall j :: 0 <= j < |ds| ==>
                Recorded(results[j], ds[j], IsSimilar(currentDecision, ds[j]), j == Run(cs, env.root).index)
      ensures forall j :: 0 <= j < |ds| ==> Outcome(ds[j], cs, j, env.root, old(MarksOf(ds[j])))
      ensures |ds| > 0 ==> Sound(cache, old(DecoratorsOf(ds)), env)
    {
      cs := CandidatesOf(ds, env);
      if |ds| == 0 {
        return null, cs;
      }
      ghost var u := DecoratorsOf(ds);
      cache := map[];
      results := [];
      ghost var ms := seq(|ds|, j requires 0 <= j < |ds| reads ds => MarksOf(ds[j]));
      chosen := DecideAll(ds, env, cs, ms, u);
      forall j | 0 <= j < |ds|
        ensures Outcome(ds[j], cs, j, env.root, old(MarksOf(ds[j])))
      {
        assert ms[j] == old(MarksOf(ds[j]));
      }
    }

    // -------------------------------------------------------------------
    // Enacting and thinking
    // -------------------------------------------------------------------

    /** EnactDecision: a null decision, or one similar to the current one,
        changes nothing and leaves the running action alone. Otherwise the
        running action is interrupted, the current decision becomes the
        previous one, and the new decision is enacted. */
    method EnactDecision(decision: Decision?, enter: bool)
      modifies this`currentAction, this`previousDecision, this`currentDecision, currentAction
      ensures old(currentAction) != null ==>
                old(currentAction).decision == old(currentAction.decision)
                && old(currentAction).onConcluded == old(currentAction.onConcluded)
                && old(currentAction).executed == old(currentAction.executed)
      ensures decision == null || IsSimilar(old(currentDecision), decision) ==>
                && currentDecision == old(currentDecision) && previousDecision == old(previousDecision)
                && currentAction == old(currentAction)
                && (currentAction != null ==> unchanged(currentAction))
      ensures decision != null && !IsSimilar(old(currentDecision), decision) ==>
                && previousDecision == old(currentDecision) && currentDecision == decision
                && (old(currentAction) != null ==>
                      old(currentAction).trace == old(currentAction.trace) + [OnExit])
                && (currentAction != null <==> decision.behavior.hasAction)
                && (currentAction != null ==>
                      && fresh(currentAction) && currentAction.executed
                      && currentAction.decision == decision && currentAction.onConcluded == decision
                      && currentAction.trace == [OnEnter] + (if enter then [] else [OnExit]))
    {
      if decision == null {
        return;
      }
      if IsSimilar(currentDecision, decision) {
        return;
      }
      if currentAction != null {
        currentAction.Interrupt();
      }
      previousDecision := currentDecision;
      currentDecision := decision;
      currentAction := Enact(decision, enter);
    }

    /** `outputs` are what the behaviours' reasoners built: one list per
        behaviour of the agent, in the agent's order, each decision made by
        this agent for that list's behaviour. */
    ghost predicate BuiltFrom(outputs: seq<seq<Decision>>)
      reads this`behaviors
    {
      && |outputs| == |behaviors|
      && forall i, d :: 0 <= i < |outputs| && d in outputs[i] ==> d.behavior == behaviors[i] && d.agent == id
    }

    /** Every candidate is a decision of this agent for one of its behaviours. */
    lemma CandidatesFromBehaviors(outputs: seq<seq<Decision>>)
      requires BuiltFrom(outputs)
      ensures forall d :: d in BuildDecisions(outputs) ==> d.behavior in behaviors && d.agent == id
    {
      CandidatesOrdered(outputs);
      forall d | d in BuildDecisions(outputs)
        ensures d.behavior in behaviors && d.agent == id
      {
        assert d in multiset(BuildDecisions(outputs));
        assert d in Flatten(outputs);
        FlattenMember(outputs, d);
      }
    }

    /** The first half of Think: builds the candidates from the reasoners'
        outputs and decides among them. */
    method Choose(outputs: seq<seq<Decision>>, env: Env) returns (chosen: Decision?, ghost cs: seq<Candidate>)
      requires BuiltFrom(outputs)
      requires Distinct(BuildDecisions(outputs))
      requires UniqueIds(DecoratorsOf(BuildDecisions(outputs)))
      modifies this`cache, this`results
      modifies BuildDecisions(outputs)`score, BuildDecisions(outputs)`scored, BuildDecisions(outputs)`skipped
      ensures cs == old(CandidatesOf(BuildDecisions(outputs), env))
      ensures var b := Run(cs, env.root);
              chosen == (if b.index < 0 then null else BuildDecisions(outputs)[b.index])
      ensures chosen != null ==> chosen.behavior in behaviors && chosen.agent == id
    {
      var ds := BuildDecisions(outputs);
      CandidatesFromBehaviors(outputs);
      chosen, cs := Decide(ds, env);
      assert chosen != null ==> chosen in ds;
    }

    /** Think: decides among the decisions the reasoners built (`outputs`,
        one list per behaviour), then enacts the chosen one. `cs` is what the
        selection rule saw of the candidates. */
    method Think(outputs: seq<seq<Decision>>, env: Env, enter: bool) returns (chosen: Decision?, ghost cs: seq<Candidate>)
      requires BuiltFrom(outputs)
      requires Distinct(BuildDecisions(outputs))
      requires UniqueIds(DecoratorsOf(BuildDecisions(outputs)))
      modifies this`cache, this`results, this`currentAction, this`previousDecision, this`currentDecision
      modifies currentAction
      modifies BuildDecisions(outputs)`score, BuildDecisions(outputs)`scored, BuildDecisions(outputs)`skipped
      ensures cs == old(CandidatesOf(BuildDecisions(outputs), env))
      ensures var b := Run(cs, env.root);
              chosen == (if b.index < 0 then null else BuildDecisions(outputs)[b.index])
      ensures chosen != null ==> chosen.behavior in behaviors && chosen.agent == id
      ensures old(currentAction) != null ==>
                old(currentAction).decision == old(currentAction.decision)
                && old(currentAction).onConcluded == old(currentAction.onConcluded)
                && old(currentAction).executed == old(currentAction.executed)
      ensures chosen == null || IsSimilar(old(currentDecision), chosen) ==>
                && currentDecision == old(currentDecision) && previousDecision == old(previousDecision)
                && currentAction == old(currentAction)
                && (currentAction != null ==> currentAction.trace == old(currentAction.trace))
      ensures chosen != null && !IsSimilar(old(currentDecision), chosen) ==>
                && previousDecision == old(currentDecision) && currentDecision == chosen
                && (old(currentAction) != null ==>
                      old(currentAction).trace == old(currentAction.trace) + [OnExit])
                && (currentAction != null <==> chosen.behavior.hasAction)
                && (currentAction != null ==>
                      && fresh(currentAction) && currentAction.executed
                      && currentAction.decision == chosen && currentAction.onConcluded == chosen
                      && currentAction.trace == [OnEnter] + (if enter then [] else [OnExit]))
    {
      chosen, cs := Choose(outputs, env);
      EnactDecision(chosen, enter);
    }

    /** Without a current decision, no candidate gets the same-decision
        bonus: each is weighted by its behaviour weight alone, and sees its
        own consideration scores. */
    lemma NoBonusWithoutCurrent(ds: seq<Decision>, env: Env)
      requires currentDecision == null
      ensures forall j :: 0 <= j < |ds| ==>
                CandidatesOf(ds, env)[j] == Candidate(ds[j].behavior.weight, ds[j].behavior.weight, ds[j].ConsiderationScores(env))
    {
      forall j | 0 <= j < |ds|
        ensures CandidatesOf(ds, env)[j] == Candidate(ds[j].behavior.weight, ds[j].behavior.weight, ds[j].ConsiderationScores(env))
      {
        CandidatesOfAt(ds, env, j);
      }
    }

    /** The conclusion callback EnactDecision hands to the action: forgets
        the current decision and thinks again. No candidate then gets the
        same-decision bonus, and whatever is chosen is enacted, even a
        decision similar to the one that just concluded; the action that
        concluded is then still the running one and is interrupted, so its
        OnExit runs a second time. */
    method ActionConcluded(outputs: seq<seq<Decision>>, env: Env, enter: bool)
      returns (chosen: Decision?, ghost cs: seq<Candidate>)
      requires BuiltFrom(outputs)
      requires Distinct(BuildDecisions(outputs))
      requires UniqueIds(DecoratorsOf(BuildDecisions(outputs)))
      modifies this`cache, this`results, this`currentAction, this`previousDecision, this`currentDecision
      modifies currentAction
      modifies BuildDecisions(outputs)`score, BuildDecisions(outputs)`scored, BuildDecisions(outputs)`skipped
      ensures |cs| == |BuildDecisions(outputs)|
      ensures forall j :: 0 <= j < |cs| ==>
                cs[j] == Candidate(BuildDecisions(outputs)[j].behavior.weight, BuildDecisions(outputs)[j].behavior.weight,
                                   old(BuildDecisions(outputs)[j].ConsiderationScores(env)))
      ensures chosen != null ==> chosen.behavior in behaviors && chosen.agent == id
      ensures old(currentAction) != null ==>
                old(currentAction).decision == old(currentAction.decision)
                && old(currentAction).onConcluded == old(currentAction.onConcluded)
                && old(currentAction).executed == old(currentAction.executed)
      ensures var b := Run(cs, env.root);
              chosen == (if b.index < 0 then null else BuildDecisions(outputs)[b.index])
      ensures chosen == null ==>
                && currentDecision == null && previousDecision == old(previousDecision)
                && currentAction == old(currentAction)
                && (currentAction != null ==> currentAction.trace == old(currentAction.trace))
      ensures chosen != null ==>
                && previousDecision == null && currentDecision == chosen
                && (old(currentAction) != null ==>
                      old(currentAction).trace == old(currentAction.trace) + [OnExit])
                && (currentAction != null <==> chosen.behavior.hasAction)
                && (currentAction != null ==>
                      && fresh(currentAction) && currentAction.executed
                      && currentAction.decision == chosen && currentAction.onConcluded == chosen
                      && currentAction.trace == [OnEnter] + (if enter then [] else [OnExit]))
    {
      ghost var ds := BuildDecisions(outputs);
      currentDecision := null;
      NoBonusWithoutCurrent(ds, env);
      label Cleared:
      chosen, cs := Think(outputs, env, enter);
      assert cs == old@Cleared(CandidatesOf(ds, env));
      assert !IsSimilar(old@Cleared(currentDecision), chosen);
      assert old(currentAction) != null ==> old@Cleared(currentAction.trace) == old(currentAction.trace);
    }

    /** UpdateDecisions: once the timer has reached the decision interval,
        thinks and resets the timer to 0; otherwise only advances the timer
        by `dt`. */
    method UpdateDecisions(dt: real, outputs: seq<seq<Decision>>, env: Env, enter: bool)
      returns (thought: bool, chosen: Decision?)
      requires decisionTimer >= decisionInterval ==> BuiltFrom(outputs)
      requires decisionTimer >= decisionInterval ==> Distinct(BuildDecisions(outputs))
      requires decisionTimer >= decisionInterval ==> UniqueIds(DecoratorsOf(BuildDecisions(outputs)))
      modifies this`decisionTimer
      modifies this`cache, this`results, this`currentAction, this`previousDecision, this`currentDecision
      modifies currentAction
      modifies BuildDecisions(outputs)`score, BuildDecisions(outputs)`scored, BuildDecisions(outputs)`skipped
      ensures thought == (old(decisionTimer) >= decisionInterval)
      ensures thought ==> decisionTimer == 0.0
      ensures thought ==>
                var b := Run(old(CandidatesOf(BuildDecisions(outputs), env)), env.root);
                chosen == (if b.index < 0 then null else BuildDecisions(outputs)[b.index])
      ensures thought ==>
                currentDecision == (if chosen == null || IsSimilar(old(currentDecision), chosen)
                                    then old(currentDecision) else chosen)
      ensures !thought && old(currentAction) != null ==> unchanged(old(currentAction))
      ensures !thought ==> forall i, j :: 0 <= i < |outputs| && 0 <= j < |outputs[i]| ==> unchanged(outputs[i][j])
      ensures !thought ==>
                && decisionTimer == old(decisionTimer) + dt && chosen == null
                && cache == old(cache) && results == old(results)
                && currentDecision == old(currentDecision) && previousDecision == old(previousDecision)
                && currentAction == old(currentAction)
    {
      if decisionTimer >= decisionInterval {
        ghost var cs;
        chosen, cs := Think(outputs, env, enter);
        decisionTimer := 0.0;
        thought := true;
      } else {
        decisionTimer := decisionTimer + dt;
        thought, chosen := false, null;
      }
    }
  }
}
