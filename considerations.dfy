/** Consideration scoring (Consideration.cs), the inverting decorator that
    behaviours hold (ConsiderationDecorator.cs), and the pieces the score
    cache is keyed on. */
module Considerations {
  import opened Options

  type Tag = int

  /** What a consideration is evaluated against: the decision's agent,
      target and data, each given by its identity (absent for null). */
  datatype Subject = Subject(agent: int, target: Option<int>, data: Option<int>)

  /** Collaborators whose code is not part of this model. */
  datatype Env = Env(
    /** OnEvaluate of the consideration with the given id: its raw, unclamped score. */
    onEvaluate: (int, Subject) -> real,
    /** UtilityTarget.HasTags for the target with the given id. */
    hasTags: (int, seq<Tag>) -> bool,
    /** Mathf.Pow(x, 1f / k). */
    root: (real, nat) -> real)

  /** x to the power k, for a natural k. */
  function Pow(x: real, k: nat): real {
    if k == 0 then 1.0 else x * Pow(x, k - 1)
  }

  /** The facts about Mathf.Pow(x, 1f / k) the model relies on: the k-th root
      of 1 is 1, it maps [0, 1] into [0, 1], and it undoes the k-th power there. */
  ghost predicate RootLaws(root: (real, nat) -> real) {
    (forall k: nat :: k >= 1 ==> root(1.0, k) == 1.0) &&
    (forall x: real, k: nat :: 0.0 <= x <= 1.0 && k >= 1 ==> 0.0 <= root(x, k) <= 1.0) &&
    (forall s: real, k: nat :: 0.0 <= s <= 1.0 && k >= 1 ==> root(Pow(s, k), k) == s)
  }

  /** Consideration.Result.OptOut: vetoes the decision. */
  const OptOut: real := 0.0
  /** Consideration.Result.OptIn: the highest score. */
  const OptIn: real := 1.0

  /** Mathf.Clamp01. */
  function Clamp01(x: real): (r: real)
    ensures OptOut <= r <= OptIn
    ensures OptOut <= x <= OptIn ==> r == x
    ensures x < OptOut ==> r == OptOut
    ensures x > OptIn ==> r == OptIn
  {
    if x < 0.0 then 0.0 else if x > 1.0 then 1.0 else x
  }

  /** A consideration asset; `id` stands for its object identity. */
  datatype Consideration = Consideration(
    id: int,
    priority: int,
    shouldCacheScore: bool,
    requiresTarget: bool,
    requiredTargetTags: seq<Tag>)
  {
    /** Consideration.Evaluate: opt out when a required target is missing or
        lacks the required tags, otherwise the clamped raw score. */
    function Evaluate(s: Subject, env: Env): (r: real)
      ensures OptOut <= r <= OptIn
      ensures requiresTarget && s.target.None? ==> r == OptOut
      ensures requiresTarget && s.target.Some? && !env.hasTags(s.target.value, requiredTargetTags) ==> r == OptOut
      ensures !requiresTarget || (s.target.Some? && env.hasTags(s.target.value, requiredTargetTags))
              ==> r == Clamp01(env.onEvaluate(id, s))
    {
      if requiresTarget && s.target.None? then OptOut
      else if requiresTarget && !env.hasTags(s.target.value, requiredTargetTags) then OptOut
      else Clamp01(env.onEvaluate(id, s))
    }
  }

  /** ConsiderationDecorator: a consideration as a behaviour holds it, possibly
      inverted. `id` stands for the decorator's identity, which keys the cache. */
  datatype Decorator = Decorator(id: int, consideration: Consideration, inverted: bool)
  {
    function Priority(): int { consideration.priority }
    function ShouldCacheScore(): bool { consideration.shouldCacheScore }
    function RequiresTarget(): bool { consideration.requiresTarget }
    function RequiredTargetTags(): seq<Tag> { consideration.requiredTargetTags }

    /** The wrapped score, or one minus it when inverted; an inverted
        consideration that opts out therefore fully opts in. */
    function Evaluate(s: Subject, env: Env): (r: real)
      ensures OptOut <= r <= OptIn
      ensures !inverted ==> r == consideration.Evaluate(s, env)
      ensures inverted ==> r + consideration.Evaluate(s, env) == OptIn
      ensures inverted && RequiresTarget() && s.target.None? ==> r == OptIn
    {
      var score := consideration.Evaluate(s, env);
      if inverted then 1.0 - score else score
    }
  }

  /** The order key of Behavior.RebuildCache: a higher priority comes first. */
  function PriorityKey(c: Decorator): real { c.Priority() as real }

  /** Score cache key: agent, target, data and decorator identities. */
  type CacheKey = (int, Option<int>, Option<int>, int)
  type ScoreCache = map<CacheKey, real>

  function KeyOf(s: Subject, c: Decorator): CacheKey {
    (s.agent, s.target, s.data, c.id)
  }

  function SubjectOf(k: CacheKey): Subject {
    Subject(k.0, k.1, k.2)
  }

  /** Decorator identities are object identities: one id, one decorator. */
  ghost predicate UniqueIds(u: set<Decorator>) {
    forall a, b :: a in u && b in u && a.id == b.id ==> a == b
  }

  /** Every cached score of a decorator in `u` is the score it would evaluate to now. */
  ghost predicate Sound(cache: ScoreCache, u: set<Decorator>, env: Env) {
    forall k, c :: k in cache && c in u && c.id == k.3 ==> cache[k] == c.Evaluate(SubjectOf(k), env)
  }

  /** Storing a decorator's own score keeps a sound cache sound. */
  lemma StoreKeepsSound(cache: ScoreCache, u: set<Decorator>, env: Env, s: Subject, c: Decorator)
    requires c in u && UniqueIds(u) && Sound(cache, u, env)
    ensures Sound(cache[KeyOf(s, c) := c.Evaluate(s, env)], u, env)
  {
    var cache' := cache[KeyOf(s, c) := c.Evaluate(s, env)];
    forall k, d | k in cache' && d in u && d.id == k.3
      ensures cache'[k] == d.Evaluate(SubjectOf(k), env)
    {
      if k == KeyOf(s, c) {
        assert d == c;
      }
    }
  }
}
