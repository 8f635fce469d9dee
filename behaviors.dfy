/** Behavior.cs: a behaviour template whose consideration list is cached in
    descending priority order. */
module Behaviors {
  import opened Seqs
  import opened Considerations

  class Behavior {
    /** The behaviour's weight: the most a decision built from it can score
        before the agent's bonus. */
    const weight: real
    /** Whether an action template is set. */
    const hasAction: bool
    /** The serialized consideration list, in inspector order; an edit in
        the inspector replaces it, and OnValidate then re-sorts the cache. */
    var considerations: seq<Decorator>
    const requiresTarget: bool
    const requiredTargetTags: seq<Tag>
    /** Considerations: the cached list, rebuilt from `considerations`; empty
        (null in the source) until the asset is enabled. */
    var cached: seq<Decorator>

    /** The cache is up to date. */
    ghost predicate Valid()
      reads this
    {
      cached == SortDesc(considerations, PriorityKey)
    }

    /** Loading the asset; the cache is built by OnEnable. */
    constructor (weight: real, hasAction: bool, considerations: seq<Decorator>,
                 requiresTarget: bool, requiredTargetTags: seq<Tag>)
      ensures this.weight == weight && this.hasAction == hasAction
      ensures this.considerations == considerations
      ensures this.requiresTarget == requiresTarget && this.requiredTargetTags == requiredTargetTags
      ensures cached == []
    {
      this.weight := weight;
      this.hasAction := hasAction;
      this.considerations := considerations;
      this.requiresTarget := requiresTarget;
      this.requiredTargetTags := requiredTargetTags;
      cached := [];
    }

    /** Sorts the serialized considerations by descending priority, stably. */
    method RebuildCache()
      modifies this`cached
      ensures Valid()
      ensures SortedDesc(cached, PriorityKey)
      ensures multiset(cached) == multiset(considerations)
      ensures forall p :: WithKey(cached, PriorityKey, p) == WithKey(considerations, PriorityKey, p)
      ensures old(Valid()) ==> cached == old(cached)
    {
      CachedConsiderations(considerations);
      cached := SortDesc(considerations, PriorityKey);
    }

    method OnEnable()
      modifies this`cached
      ensures Valid()
    {
      RebuildCache();
    }

    method OnValidate()
      modifies this`cached
      ensures Valid()
    {
      RebuildCache();
    }
  }

  /** The cached list of a behaviour: ordered by non-increasing priority, a
      permutation of the serialized list, stable among equal priorities, and
      unchanged by a second rebuild. */
  lemma CachedConsiderations(considerations: seq<Decorator>)
    ensures SortedDesc(SortDesc(considerations, PriorityKey), PriorityKey)
    ensures multiset(SortDesc(considerations, PriorityKey)) == multiset(considerations)
    ensures forall p :: WithKey(SortDesc(considerations, PriorityKey), PriorityKey, p)
                        == WithKey(considerations, PriorityKey, p)
    ensures SortDesc(SortDesc(considerations, PriorityKey), PriorityKey) == SortDesc(considerations, PriorityKey)
  {
    SortDescCorrect(considerations, PriorityKey);
    SortDescIdempotent(considerations, PriorityKey);
  }

  /** A BehaviorSet asset: only its list of behaviours is part of this model. */
  class BehaviorSet {
    const behaviors: seq<Behavior>

    constructor (behaviors: seq<Behavior>)
      ensures this.behaviors == behaviors
    {
      this.behaviors := behaviors;
    }
  }
}
