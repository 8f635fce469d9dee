/** Decision.cs and DecisionResult.cs: a candidate (behaviour, agent, target,
    data), the scoring algorithm that prunes and compensates, and the record
    the agent keeps of each candidate. */
module Decisions {
  import opened Options
  import opened Seqs
  import opened Considerations
  import opened Behaviors

  // ---------------------------------------------------------------------
  // The scoring algorithm as a function of the consideration scores
  // ---------------------------------------------------------------------

  /** The running product, multiplied from the left. */
  function Product(s: seq<real>): real {
    if s == [] then 1.0 else Product(s[..|s| - 1]) * s[|s| - 1]
  }

  /** The n-th root compensation, applied only to a positive product. */
  function Compensate(p: real, n: nat, root: (real, nat) -> real): real {
    if p > 0.0 then root(p, n) else p
  }

  /** Evaluation stops before consideration i (0-based) when the product of
      the earlier scores is zero or its projected maximum is below the threshold. */
  predicate StopsAt(p: real, i: nat, threshold: real, bonus: real, root: (real, nat) -> real) {
    p == 0.0 || root(p, i + 1) * bonus < threshold
  }

  /** How many considerations are evaluated, continuing from index i. */
  function EvaluatedFrom(scores: seq<real>, threshold: real, bonus: real, root: (real, nat) -> real,
                         i: nat): (k: nat)
    requires i <= |scores|
    ensures i <= k <= |scores|
    decreases |scores| - i
  {
    if i == |scores| || StopsAt(Product(scores[..i]), i, threshold, bonus, root) then i
    else EvaluatedFrom(scores, threshold, bonus, root, i + 1)
  }

  /** How many considerations Decision.Evaluate evaluates. */
  function Evaluated(scores: seq<real>, threshold: real, bonus: real, root: (real, nat) -> real): nat {
    EvaluatedFrom(scores, threshold, bonus, root, 0)
  }

  /** The decision is marked skipped by this evaluation. */
  predicate Pruned(scores: seq<real>, threshold: real, bonus: real, root: (real, nat) -> real) {
    Evaluated(scores, threshold, bonus, root) < |scores|
  }

  /** The score Decision.Evaluate returns when the considerations, in cached
      order, score `scores`, and `bonus` is the weight times the agent's bonus. */
  function DecisionScore(scores: seq<real>, threshold: real, bonus: real, root: (real, nat) -> real): real {
    var k := Evaluated(scores, threshold, bonus, root);
    Compensate(Product(scores[..k]), |scores|, root) * bonus
  }

  predicate InUnit(s: seq<real>) {
    forall i :: 0 <= i < |s| ==> 0.0 <= s[i] <= 1.0
  }

  // ---------------------------------------------------------------------
  // Lemmas about the scoring algorithm
  // ---------------------------------------------------------------------

  lemma {:induction false} ProductInUnit(s: seq<real>)
    requires InUnit(s)
    ensures 0.0 <= Product(s) <= 1.0
  {
    if s != [] {
      var init := s[..|s| - 1];
      assert InUnit(init) by {
        forall i | 0 <= i < |init| ensures 0.0 <= init[i] <= 1.0 {
          assert init[i] == s[i];
        }
      }
      ProductInUnit(init);
      MulBound(Product(init), s[|s| - 1]);
    }
  }

  lemma MulBound(c: real, b: real)
    requires 0.0 <= c <= 1.0 && 0.0 <= b
    ensures 0.0 <= c * b <= b
  {
    assert (1.0 - c) * b >= 0.0;
  }

  lemma {:induction false} ProductPositive(s: seq<real>)
    requires forall i :: 0 <= i < |s| ==> s[i] > 0.0
    ensures Product(s) > 0.0
  {
    if s != [] {
      ProductPositive(s[..|s| - 1]);
    }
  }

  /** A zero score makes the whole product zero. */
  lemma {:induction false} ProductZero(s: seq<real>, j: nat)
    requires j < |s| && s[j] == 0.0
    ensures Product(s) == 0.0
  {
    if j < |s| - 1 {
      ProductZero(s[..|s| - 1], j);
    }
  }

  /** Product of n copies of s is s to the n. */
  lemma {:induction false} ProductConstant(s: seq<real>, x: real)
    requires forall i :: 0 <= i < |s| ==> s[i] == x
    ensures Product(s) == Pow(x, |s|)
  {
    if s != [] {
      ProductConstant(s[..|s| - 1], x);
    }
  }

  /** EvaluatedFrom stops at the first index where StopsAt holds. */
  lemma {:induction false} EvaluatedFromStops(scores: seq<real>, threshold: real, bonus: real,
                                              root: (real, nat) -> real, i: nat)
    requires i <= |scores|
    ensures var k := EvaluatedFrom(scores, threshold, bonus, root, i);
      (forall j :: i <= j < k ==> !StopsAt(Product(scores[..j]), j, threshold, bonus, root)) &&
      (k < |scores| ==> StopsAt(Product(scores[..k]), k, threshold, bonus, root))
    decreases |scores| - i
  {
    if i < |scores| && !StopsAt(Product(scores[..i]), i, threshold, bonus, root) {
      EvaluatedFromStops(scores, threshold, bonus, root, i + 1);
    }
  }

  /** The evaluated considerations are exactly those before the first stop. */
  lemma EvaluatedStops(scores: seq<real>, threshold: real, bonus: real, root: (real, nat) -> real)
    ensures var k := Evaluated(scores, threshold, bonus, root);
      k <= |scores| &&
      (forall j :: 0 <= j < k ==> !StopsAt(Product(scores[..j]), j, threshold, bonus, root)) &&
      (k < |scores| ==> StopsAt(Product(scores[..k]), k, threshold, bonus, root))
  {
    assert scores[..0] == [];
    EvaluatedFromStops(scores, threshold, bonus, root, 0);
  }

  /** A decision scores between 0 and its weight times the agent's bonus. */
  lemma DecisionScoreRange(scores: seq<real>, threshold: real, bonus: real, root: (real, nat) -> real)
    requires |scores| >= 1 && InUnit(scores) && bonus >= 0.0 && RootLaws(root)
    ensures 0.0 <= DecisionScore(scores, threshold, bonus, root) <= bonus
  {
    var k := Evaluated(scores, threshold, bonus, root);
    var pre := scores[..k];
    assert InUnit(pre) by {
      forall i | 0 <= i < |pre| ensures 0.0 <= pre[i] <= 1.0 {
        assert pre[i] == scores[i];
      }
    }
    ProductInUnit(pre);
    var c := Compensate(Product(pre), |scores|, root);
    assert 0.0 <= c <= 1.0;
    MulBound(c, bonus);
    assert DecisionScore(scores, threshold, bonus, root) == c * bonus;
  }

  /** Once an evaluated consideration scores zero nothing after it is
      evaluated, the decision is skipped if any remain, and it scores zero. */
  lemma ZeroVetoes(scores: seq<real>, threshold: real, bonus: real, root: (real, nat) -> real, j: nat)
    requires j < Evaluated(scores, threshold, bonus, root) && scores[j] == 0.0
    ensures Evaluated(scores, threshold, bonus, root) == j + 1
    ensures Pruned(scores, threshold, bonus, root) <==> j + 1 < |scores|
    ensures DecisionScore(scores, threshold, bonus, root) == 0.0
  {
    var k := Evaluated(scores, threshold, bonus, root);
    EvaluatedStops(scores, threshold, bonus, root);
    assert scores[..j + 1][j] == 0.0;
    ProductZero(scores[..j + 1], j);
    assert k <= j + 1;
    ProductZero(scores[..k], j);
  }

  /** When even the weight times the bonus is below the threshold, nothing
      is evaluated, the decision is skipped and it scores that product. */
  lemma PrunedBeforeFirst(scores: seq<real>, threshold: real, bonus: real, root: (real, nat) -> real)
    requires |scores| >= 1 && RootLaws(root) && bonus < threshold
    ensures Evaluated(scores, threshold, bonus, root) == 0
    ensures Pruned(scores, threshold, bonus, root)
    ensures DecisionScore(scores, threshold, bonus, root) == bonus
  {
    assert root(1.0, 1) == 1.0;
    assert root(1.0, |scores|) == 1.0;
    assert scores[..0] == [];
  }

  /** With a non-positive threshold, positive scores never stop evaluation. */
  lemma NoStopAt(scores: seq<real>, k: nat, threshold: real, bonus: real, root: (real, nat) -> real)
    requires k <= |scores| && RootLaws(root) && bonus >= 0.0 && threshold <= 0.0
    requires forall i :: 0 <= i < |scores| ==> 0.0 < scores[i] <= 1.0
    ensures !StopsAt(Product(scores[..k]), k, threshold, bonus, root)
  {
    var pre := scores[..k];
    assert InUnit(pre) by {
      forall i | 0 <= i < |pre| ensures 0.0 <= pre[i] <= 1.0 {
        assert pre[i] == scores[i];
      }
    }
    ProductInUnit(pre);
    ProductPositive(pre);
    var p := Product(pre);
    assert 0.0 <= root(p, k + 1) <= 1.0;
    MulBound(root(p, k + 1), bonus);
  }

  /** With no threshold to beat and no zero score, every consideration is
      evaluated and the score is the compensated product times the bonus. */
  lemma NoPruning(scores: seq<real>, threshold: real, bonus: real, root: (real, nat) -> real)
    requires |scores| >= 1 && RootLaws(root) && bonus >= 0.0 && threshold <= 0.0
    requires forall i :: 0 <= i < |scores| ==> 0.0 < scores[i] <= 1.0
    ensures Evaluated(scores, threshold, bonus, root) == |scores|
    ensures !Pruned(scores, threshold, bonus, root)
    ensures DecisionScore(scores, threshold, bonus, root) == root(Product(scores), |scores|) * bonus
  {
    var k := Evaluated(scores, threshold, bonus, root);
    EvaluatedStops(scores, threshold, bonus, root);
    NoStopAt(scores, k, threshold, bonus, root);
    assert k == |scores|;
    assert scores[..k] == scores;
    ProductPositive(scores);
  }

  /** Whatever the threshold, a decision that is not skipped had every
      consideration evaluated, and scores the compensated full product
      times the bonus: 0 when some score is 0. */
  lemma UnprunedScore(scores: seq<real>, threshold: real, bonus: real, root: (real, nat) -> real)
    requires InUnit(scores) && !Pruned(scores, threshold, bonus, root)
    ensures Evaluated(scores, threshold, bonus, root) == |scores|
    ensures DecisionScore(scores, threshold, bonus, root)
            == (if Product(scores) > 0.0 then root(Product(scores), |scores|) else 0.0) * bonus
  {
    assert scores[..|scores|] == scores;
    ProductInUnit(scores);
  }

  /** Compensation: n considerations that all score s give s times the bonus. */
  lemma CompensationRoundTrip(scores: seq<real>, s: real, threshold: real, bonus: real, root: (real, nat) -> real)
    requires |scores| >= 1 && RootLaws(root) && bonus >= 0.0 && threshold <= 0.0
    requires 0.0 < s <= 1.0 && forall i :: 0 <= i < |scores| ==> scores[i] == s
    ensures DecisionScore(scores, threshold, bonus, root) == s * bonus
  {
    NoPruning(scores, threshold, bonus, root);
    ProductConstant(scores, s);
  }

  /** The scores of a list of considerations against one subject, in order. */
  function Scores(cs: seq<Decorator>, s: Subject, env: Env): (r: seq<real>)
    ensures |r| == |cs|
  {
    if cs == [] then [] else [cs[0].Evaluate(s, env)] + Scores(cs[1..], s, env)
  }

  lemma {:induction false} ScoresAt(cs: seq<Decorator>, s: Subject, env: Env, i: nat)
    requires i < |cs|
    ensures |Scores(cs, s, env)| == |cs| && Scores(cs, s, env)[i] == cs[i].Evaluate(s, env)
  {
    if i > 0 {
      ScoresAt(cs[1..], s, env, i - 1);
    } else {
      ScoresLength(cs[1..], s, env);
    }
  }

  lemma {:induction false} ScoresLength(cs: seq<Decorator>, s: Subject, env: Env)
    ensures |Scores(cs, s, env)| == |cs|
  {
    if cs != [] {
      ScoresLength(cs[1..], s, env);
    }
  }

  /** Every consideration score lies in [0, 1]. */
  lemma ScoresInUnit(cs: seq<Decorator>, s: Subject, env: Env)
    ensures InUnit(Scores(cs, s, env))
  {
    ScoresLength(cs, s, env);
    forall i | 0 <= i < |cs| ensures 0.0 <= Scores(cs, s, env)[i] <= 1.0 {
      ScoresAt(cs, s, env, i);
    }
  }

  /** Evaluation continues past consideration i when the running product `p`
      is non-zero and its projected maximum reaches the threshold. */
  lemma EvaluatedFromContinue(scores: seq<real>, threshold: real, bonus: real, root: (real, nat) -> real,
                              i: nat, p: real, k: nat)
    requires i < |scores| && p == Product(scores[..i]) && EvaluatedFrom(scores, threshold, bonus, root, i) == k
    requires p != 0.0 && !(root(p, i + 1) * bonus < threshold)
    ensures EvaluatedFrom(scores, threshold, bonus, root, i + 1) == k
  {
  }

  /** Evaluation stops at consideration i when the running product `p` is
      zero or its projected maximum is below the threshold. */
  lemma EvaluatedFromStop(scores: seq<real>, threshold: real, bonus: real, root: (real, nat) -> real,
                          i: nat, p: real, k: nat)
    requires i < |scores| && p == Product(scores[..i]) && EvaluatedFrom(scores, threshold, bonus, root, i) == k
    requires p == 0.0 || root(p, i + 1) * bonus < threshold
    ensures k == i
  {
  }

  lemma ProductSnoc(s: seq<real>, i: nat, p: real, x: real)
    requires i < |s| && p == Product(s[..i]) && x == s[i]
    ensures Product(s[..i + 1]) == p * x
  {
    assert s[..i + 1][..i] == s[..i];
  }

  /** DecisionScore given the product of the evaluated scores, compensated. */
  lemma DecisionScoreOf(scores: seq<real>, threshold: real, bonus: real, root: (real, nat) -> real, c: real)
    requires c == Compensate(Product(scores[..Evaluated(scores, threshold, bonus, root)]), |scores|, root)
    ensures DecisionScore(scores, threshold, bonus, root) == c * bonus
  {
  }


  /** The cache after looking up one consideration: unchanged on a hit of a
      cacheable consideration, otherwise its key is (over)written with its score. */
  function Store(cache: ScoreCache, s: Subject, c: Decorator, env: Env): ScoreCache {
    if c.ShouldCacheScore() && KeyOf(s, c) in cache then cache
    else cache[KeyOf(s, c) := c.Evaluate(s, env)]
  }

  /** The score one lookup yields: the cached score on a hit of a cacheable
      consideration, otherwise the consideration's own score. */
  function Lookup(cache: ScoreCache, s: Subject, c: Decorator, env: Env): real {
    if c.ShouldCacheScore() && KeyOf(s, c) in cache then cache[KeyOf(s, c)] else c.Evaluate(s, env)
  }

  /** The cache after looking up each of `cs` in order. */
  function StoreAll(cache: ScoreCache, s: Subject, cs: seq<Decorator>, env: Env): ScoreCache {
    if cs == [] then cache else Store(StoreAll(cache, s, cs[..|cs| - 1], env), s, cs[|cs| - 1], env)
  }

  lemma StoreAllSnoc(cache: ScoreCache, s: Subject, cs: seq<Decorator>, env: Env, i: nat, before: ScoreCache)
    requires i < |cs| && before == StoreAll(cache, s, cs[..i], env)
    ensures StoreAll(cache, s, cs[..i + 1], env) == Store(before, s, cs[i], env)
  {
    assert cs[..i + 1][..i] == cs[..i];
  }

  /** Looking up considerations adds exactly their keys. */
  lemma {:induction false} StoreAllKeys(cache: ScoreCache, s: Subject, cs: seq<Decorator>, env: Env)
    ensures StoreAll(cache, s, cs, env).Keys == cache.Keys + (set c | c in cs :: KeyOf(s, c))
  {
    if cs != [] {
      var init, last := cs[..|cs| - 1], cs[|cs| - 1];
      StoreAllKeys(cache, s, init, env);
      assert cs == init + [last];
    }
  }

  /** Looking up considerations leaves every other key as it was. */
  lemma {:induction false} StoreAllFrame(cache: ScoreCache, s: Subject, cs: seq<Decorator>, env: Env, k: CacheKey)
    requires k in cache && forall c :: c in cs ==> k != KeyOf(s, c)
    ensures k in StoreAll(cache, s, cs, env) && StoreAll(cache, s, cs, env)[k] == cache[k]
  {
    if cs != [] {
      StoreAllFrame(cache, s, cs[..|cs| - 1], env, k);
      assert cs[|cs| - 1] in cs;
    }
  }

  /** Looking up considerations of `u` keeps a sound cache sound. */
  lemma {:induction false} StoreAllSound(cache: ScoreCache, s: Subject, cs: seq<Decorator>, env: Env, u: set<Decorator>)
    requires forall i :: 0 <= i < |cs| ==> cs[i] in u
    requires UniqueIds(u) && Sound(cache, u, env)
    ensures Sound(StoreAll(cache, s, cs, env), u, env)
  {
    if cs != [] {
      var init, last := cs[..|cs| - 1], cs[|cs| - 1];
      assert forall i :: 0 <= i < |init| ==> init[i] == cs[i];
      StoreAllSound(cache, s, init, env, u);
      if !(last.ShouldCacheScore() && KeyOf(s, last) in StoreAll(cache, s, init, env)) {
        StoreKeepsSound(StoreAll(cache, s, init, env), u, env, s, last);
      }
    }
  }

  /** The scores yielded by looking up each of `cs` in order, each lookup
      seeing the cache left by the ones before it. */
  function Lookups(cache: ScoreCache, s: Subject, cs: seq<Decorator>, env: Env): (r: seq<real>)
    ensures |r| == |cs|
  {
    if cs == [] then []
    else Lookups(cache, s, cs[..|cs| - 1], env) + [Lookup(StoreAll(cache, s, cs[..|cs| - 1], env), s, cs[|cs| - 1], env)]
  }

  lemma {:induction false} LookupsPrefix(cache: ScoreCache, s: Subject, cs: seq<Decorator>, env: Env, i: nat)
    requires i <= |cs|
    ensures Lookups(cache, s, cs, env)[..i] == Lookups(cache, s, cs[..i], env)
  {
    if i < |cs| {
      var init := cs[..|cs| - 1];
      LookupsPrefix(cache, s, init, env, i);
      assert init[..i] == cs[..i];
    } else {
      assert cs[..i] == cs;
    }
  }

  /** The i-th lookup sees the cache left by the first i. */
  lemma LookupsAt(cache: ScoreCache, s: Subject, cs: seq<Decorator>, env: Env, i: nat)
    requires i < |cs|
    ensures Lookups(cache, s, cs, env)[i] == Lookup(StoreAll(cache, s, cs[..i], env), s, cs[i], env)
  {
    LookupsPrefix(cache, s, cs, env, i + 1);
    assert cs[..i + 1][..i] == cs[..i];
    assert Lookups(cache, s, cs, env)[i] == Lookups(cache, s, cs, env)[..i + 1][i];
  }

  /** One lookup of Decision.Evaluate's loop, in the loop's own variables. */
  lemma LookupStep(cache: ScoreCache, sub: Subject, cs: seq<Decorator>, env: Env,
                   i: nat, before: ScoreCache, after: ScoreCache, x: real)
    requires i < |cs| && before == StoreAll(cache, sub, cs[..i], env)
    requires x == Lookup(before, sub, cs[i], env) && after == Store(before, sub, cs[i], env)
    ensures x == Lookups(cache, sub, cs, env)[i]
    ensures after == StoreAll(cache, sub, cs[..i + 1], env)
  {
    LookupsAt(cache, sub, cs, env, i);
    assert cs[..i + 1][..i] == cs[..i];
  }

  /** Through a sound cache, a lookup of a decorator of `u` yields its own score. */
  lemma LookupSound(cache: ScoreCache, s: Subject, c: Decorator, env: Env, u: set<Decorator>)
    requires c in u && Sound(cache, u, env)
    ensures Lookup(cache, s, c, env) == c.Evaluate(s, env)
  {
    if c.ShouldCacheScore() && KeyOf(s, c) in cache {
      assert SubjectOf(KeyOf(s, c)) == s;
    }
  }

  /** The score cache is transparent: starting from a sound cache, looking up
      decorators of `u` (whose ids are unique) yields exactly their scores. */
  lemma LookupsSound(cache: ScoreCache, s: Subject, cs: seq<Decorator>, env: Env, u: set<Decorator>)
    requires forall i :: 0 <= i < |cs| ==> cs[i] in u
    requires UniqueIds(u) && Sound(cache, u, env)
    ensures Lookups(cache, s, cs, env) == Scores(cs, s, env)
  {
    ScoresLength(cs, s, env);
    forall i | 0 <= i < |cs| ensures Lookups(cache, s, cs, env)[i] == Scores(cs, s, env)[i] {
      assert forall j :: 0 <= j < |cs[..i]| ==> cs[..i][j] in u by {
        forall j | 0 <= j < |cs[..i]| ensures cs[..i][j] in u {
          assert cs[..i][j] == cs[j];
        }
      }
      StoreAllSound(cache, s, cs[..i], env, u);
      LookupsAt(cache, s, cs, env, i);
      LookupSound(StoreAll(cache, s, cs[..i], env), s, cs[i], env, u);
      ScoresAt(cs, s, env, i);
    }
  }

  // ---------------------------------------------------------------------
  // Decision
  // ---------------------------------------------------------------------

  class Decision {
    const behavior: Behavior
    const agent: int
    const target: Option<int>
    const data: Option<int>
    var score: real
    /** Evaluate was called, whatever its result. */
    var scored: bool
    /** An evaluation stopped before the last consideration. */
    var skipped: bool
    /** The enacted action concluded (not set when the agent switched away). */
    var concluded: bool

    /** Decision.Create followed by WithTarget and WithData. */
    constructor (agent: int, behavior: Behavior, target: Option<int>, data: Option<int>)
      ensures this.agent == agent && this.behavior == behavior
      ensures this.target == target && this.data == data
      ensures score == 0.0 && !scored && !skipped && !concluded
    {
      this.agent := agent;
      this.behavior := behavior;
      this.target := target;
      this.data := data;
      score := 0.0;
      scored := false;
      skipped := false;
      concluded := false;
    }

    /** MaxScore: the behaviour's weight. */
    function MaxScore(): real { behavior.weight }

    function SubjectOf(): Subject { Subject(agent, target, data) }

    /** The scores of this decision's considerations, in cached order. */
    ghost function ConsiderationScores(env: Env): seq<real>
      reads behavior`cached
    {
      Scores(behavior.cached, SubjectOf(), env)
    }

    /** The scores the consideration loop looks up through `cache`, in
        cached order. */
    ghost function LookupScores(cache: ScoreCache, env: Env): seq<real>
      reads behavior`cached
    {
      Lookups(cache, SubjectOf(), behavior.cached, env)
    }

    /** Decision.EvaluateConsideration: a cacheable consideration whose key
        is present is not evaluated; otherwise it is evaluated and its score
        overwrites the key. */
    method EvaluateConsideration(c: Decorator, cache: ScoreCache, env: Env) returns (s: real, cache': ScoreCache)
      ensures s == Lookup(cache, SubjectOf(), c, env)
      ensures cache' == Store(cache, SubjectOf(), c, env)
      ensures c.ShouldCacheScore() && KeyOf(SubjectOf(), c) in cache ==> cache' == cache
      ensures KeyOf(SubjectOf(), c) in cache' && cache'[KeyOf(SubjectOf(), c)] == s
    {
      var key := KeyOf(SubjectOf(), c);
      if c.ShouldCacheScore() && key in cache {
        s := cache[key];
        cache' := cache;
        return;
      }
      s := c.Evaluate(SubjectOf(), env);
      cache' := cache[key := s];
    }

    /** The two checks at the head of the consideration loop, before
        consideration i with running product `product`: a zero product
        vetoes the decision, and so does a projected maximum (the product's
        (i+1)-th root times the bonus) below the threshold. */
    method ShouldStop(i: nat, product: real, threshold: real, bonus: real, env: Env) returns (stop: bool)
      ensures stop == StopsAt(product, i, threshold, bonus, env.root)
    {
      if product == 0.0 {
        return true;
      }
      var projectedMaxScore := env.root(product, i + 1) * bonus;
      if projectedMaxScore < threshold {
        return true;
      }
      return false;
    }

    /** One pass of the consideration loop that goes on: the i-th cached
        consideration is looked up through the running cache `current`,
        which has stored the first i, and multiplied into the running
        product of the first i scores. */
    method EvaluateNext(i: nat, product: real, cache: ScoreCache, current: ScoreCache, env: Env)
      returns (product': real, current': ScoreCache)
      requires i < |behavior.cached|
      requires product == Product(LookupScores(cache, env)[..i])
      requires current == StoreAll(cache, SubjectOf(), behavior.cached[..i], env)
      ensures product' == Product(LookupScores(cache, env)[..i + 1])
      ensures current' == StoreAll(cache, SubjectOf(), behavior.cached[..i + 1], env)
    {
      var s;
      s, current' := EvaluateConsideration(behavior.cached[i], current, env);
      LookupStep(cache, SubjectOf(), behavior.cached, env, i, current, current', s);
      ProductSnoc(LookupScores(cache, env), i, product, s);
      product' := product * s;
    }

    /** The consideration loop of Decision.Evaluate: walks the cached
        considerations, stopping at a zero product or when the projected
        maximum falls below the threshold; returns the product of the scores
        it looked up and whether it stopped early. */
    method EvaluateConsiderations(threshold: real, bonus: real, cache: ScoreCache, env: Env)
      returns (product: real, stopped: bool, cache': ScoreCache)
      ensures var k := Evaluated(LookupScores(cache, env), threshold, bonus, env.root);
        && product == Product(LookupScores(cache, env)[..k])
        && stopped == (k < |behavior.cached|)
        && cache' == StoreAll(cache, SubjectOf(), behavior.cached[..k], env)
    {
      product := 1.0;
      var cs := behavior.cached;
      ghost var scores := LookupScores(cache, env);
      ghost var k := Evaluated(scores, threshold, bonus, env.root);
      assert |scores| == |cs|;
      cache' := cache;
      stopped := false;
      var i := 0;
      while i < |cs|
        invariant 0 <= i <= |cs|
        invariant product == Product(scores[..i])
        invariant EvaluatedFrom(scores, threshold, bonus, env.root, i) == k
        invariant cache' == StoreAll(cache, SubjectOf(), cs[..i], env)
        invariant !stopped && i <= k
      {
        var stop := ShouldStop(i, product, threshold, bonus, env);
        if stop {
          EvaluatedFromStop(scores, threshold, bonus, env.root, i, product, k);
          stopped := true;
          break;
        }
        EvaluatedFromContinue(scores, threshold, bonus, env.root, i, product, k);
        product, cache' := EvaluateNext(i, product, cache, cache', env);
        i := i + 1;
      }
      assert i == k;
    }

    /** Decision.Evaluate: the consideration loop, then the compensation for
        the number of considerations, then weight times the agent's bonus.
        Marks the decision scored, and skipped when the loop stopped early.
        Through a sound cache the score is the one the considerations'
        own scores give, and the cache stays sound. */
    method Evaluate(threshold: real, agentBonus: real, cache: ScoreCache, env: Env, ghost u: set<Decorator>)
      returns (r: real, cache': ScoreCache)
      modifies this`score, this`scored, this`skipped
      ensures scored && score == r
      ensures r == DecisionScore(LookupScores(cache, env), threshold, behavior.weight * agentBonus, env.root)
      ensures skipped == (old(skipped) || Pruned(LookupScores(cache, env), threshold, behavior.weight * agentBonus, env.root))
      ensures var k := Evaluated(LookupScores(cache, env), threshold, behavior.weight * agentBonus, env.root);
        cache' == StoreAll(cache, SubjectOf(), behavior.cached[..k], env)
      ensures (forall i :: 0 <= i < |behavior.cached| ==> behavior.cached[i] in u) && UniqueIds(u) && Sound(cache, u, env)
              ==> LookupScores(cache, env) == ConsiderationScores(env) && Sound(cache', u, env)
    {
      scored := true;
      var bonus := behavior.weight * agentBonus;
      ghost var scores := LookupScores(cache, env);
      ghost var k := Evaluated(scores, threshold, bonus, env.root);
      var finalScore, stopped;
      finalScore, stopped, cache' := EvaluateConsiderations(threshold, bonus, cache, env);
      if stopped {
        skipped := true;
      }
      if finalScore > 0.0 {
        finalScore := env.root(finalScore, |behavior.cached|);
      }
      DecisionScoreOf(scores, threshold, bonus, env.root, finalScore);
      finalScore := finalScore * bonus;
      score := finalScore;
      r := finalScore;
      if (forall i :: 0 <= i < |behavior.cached| ==> behavior.cached[i] in u) && UniqueIds(u) && Sound(cache, u, env) {
        LookupsSound(cache, SubjectOf(), behavior.cached, env, u);
        assert forall j :: 0 <= j < |behavior.cached[..k]| ==> behavior.cached[..k][j] in u by {
          forall j | 0 <= j < |behavior.cached[..k]| ensures behavior.cached[..k][j] in u {
            assert behavior.cached[..k][j] == behavior.cached[j];
          }
        }
        StoreAllSound(cache, SubjectOf(), behavior.cached[..k], env, u);
      }
      assert scores == LookupScores(cache, env);
    }
  }

  /** Decision.IsSimilar: both present, with the same behaviour, agent,
      target and data. */
  function IsSimilar(a: Decision?, b: Decision?): (r: bool)
    ensures r ==> a != null && b != null
    ensures a != null && b != null ==>
      (r <==> a.behavior == b.behavior && a.agent == b.agent && a.target == b.target && a.data == b.data)
  {
    a != null && b != null &&
    a.behavior == b.behavior && a.agent == b.agent && a.target == b.target && a.data == b.data
  }

  /** Similarity is an equivalence on present decisions. */
  lemma SimilarIsEquivalence(a: Decision?, b: Decision?, c: Decision?)
    ensures IsSimilar(a, b) == IsSimilar(b, a)
    ensures a != null ==> IsSimilar(a, a)
    ensures IsSimilar(a, b) && IsSimilar(b, c) ==> IsSimilar(a, c)
  {
  }

  // ---------------------------------------------------------------------
  // DecisionResult
  // ---------------------------------------------------------------------

  /** The agent's record of one candidate of a decision cycle. */
  class DecisionResult {
    var decision: Decision
    var best: bool
    var isSameDecision: bool
    /** Declared and shown by the inspector; never written by the engine. */
    var weightedScore: real

    constructor (decision: Decision, isSameDecision: bool)
      ensures this.decision == decision && this.isSameDecision == isSameDecision
      ensures !best && weightedScore == 0.0
    {
      this.decision := decision;
      this.isSameDecision := isSameDecision;
      best := false;
      weightedScore := 0.0;
    }

    function Skipped(): bool reads this, decision { decision.skipped }
    function Scored(): bool reads this, decision { decision.scored }
    function Score(): real reads this, decision { decision.score }
  }
}
