/** The selection rule of UtilityAgent.Decide as a function of the
    candidates: each candidate is scored against the running best score,
    candidates whose weight is below it are not scored at all, and the
    best is replaced only by a strictly higher score. */
module Selection {
  import opened Decisions

  /** What Decide needs to know of one candidate decision: its behaviour's
      weight (its MaxScore), the factor Decision.Evaluate applies (the weight
      times the agent's bonus for it), and its considerations' scores in
      cached order. */
  datatype Candidate = Candidate(weight: real, bonus: real, scores: seq<real>)

  /** What Decision.Evaluate returns for candidate `c` against `threshold`. */
  function CandidateScore(c: Candidate, threshold: real, root: (real, nat) -> real): real {
    DecisionScore(c.scores, threshold, c.bonus, root)
  }

  /** The running best of Decide: the best score (0 before any win) and the
      index of the winning candidate (-1 before any win). */
  datatype Best = Best(score: real, index: int)

  /** Decide's loop body for candidate `c` at index `i`: the best score
      never drops, a candidate whose weight is below it is skipped, and the
      best changes only to a strictly higher score of `c` itself. */
  function Consider(b: Best, c: Candidate, i: int, root: (real, nat) -> real): (r: Best)
    ensures r.score >= b.score
    ensures c.weight < b.score ==> r == b
    ensures r != b ==> r == Best(CandidateScore(c, b.score, root), i) && r.score > b.score
  {
    if c.weight < b.score then b
    else
      var s := CandidateScore(c, b.score, root);
      if s > b.score then Best(s, i) else b
  }

  /** The running best after the candidates `cs`, in order. */
  function Run(cs: seq<Candidate>, root: (real, nat) -> real): (b: Best)
    ensures -1 <= b.index < |cs|
  {
    if cs == [] then Best(0.0, -1)
    else Consider(Run(cs[..|cs| - 1], root), cs[|cs| - 1], |cs| - 1, root)
  }

  /** The threshold candidate i is evaluated against: the best score so far. */
  function Threshold(cs: seq<Candidate>, i: nat, root: (real, nat) -> real): real
    requires i <= |cs|
  {
    Run(cs[..i], root).score
  }

  /** Candidate i is evaluated: its weight is not below the best score so far. */
  predicate IsEvaluated(cs: seq<Candidate>, i: nat, root: (real, nat) -> real)
    requires i < |cs|
  {
    !(cs[i].weight < Threshold(cs, i, root))
  }

  /** The score candidate i gets when it is evaluated. */
  function ScoreAt(cs: seq<Candidate>, i: nat, root: (real, nat) -> real): real
    requires i < |cs|
  {
    CandidateScore(cs[i], Threshold(cs, i, root), root)
  }

  lemma RunSnoc(cs: seq<Candidate>, i: nat, root: (real, nat) -> real)
    requires i < |cs|
    ensures Run(cs[..i + 1], root) == Consider(Run(cs[..i], root), cs[i], i, root)
  {
    assert cs[..i + 1][..|cs[..i + 1]| - 1] == cs[..i];
  }

  /** Thresholds, scores and evaluation of earlier candidates do not depend
      on later ones. */
  lemma PrefixStable(cs: seq<Candidate>, n: nat, i: nat, root: (real, nat) -> real)
    requires i < n <= |cs|
    ensures Threshold(cs[..n], i, root) == Threshold(cs, i, root)
    ensures IsEvaluated(cs[..n], i, root) == IsEvaluated(cs, i, root)
    ensures ScoreAt(cs[..n], i, root) == ScoreAt(cs, i, root)
  {
    assert cs[..n][..i] == cs[..i];
  }

  /** The running best: it starts at 0 and only grows; an index is recorded
      exactly when the score is positive, and it names an evaluated
      candidate whose score it is. */
  lemma {:induction false} RunWinner(cs: seq<Candidate>, root: (real, nat) -> real)
    ensures var b := Run(cs, root);
      && -1 <= b.index < |cs|
      && 0.0 <= b.score
      && (b.index == -1 <==> b.score == 0.0)
      && (b.index >= 0 ==> IsEvaluated(cs, b.index, root) && b.score == ScoreAt(cs, b.index, root))
  {
    if cs != [] {
      var n := |cs| - 1;
      var init := cs[..n];
      RunWinner(init, root);
      assert cs[..n] == init;
      var b := Run(init, root);
      if b.index >= 0 {
        PrefixStable(cs, n, b.index, root);
      }
    }
  }

  /** Every threshold is at most the final best score. */
  lemma {:induction false} ThresholdBelowBest(cs: seq<Candidate>, i: nat, root: (real, nat) -> real)
    requires i <= |cs|
    ensures Threshold(cs, i, root) <= Run(cs, root).score
    decreases |cs| - i
  {
    if i < |cs| {
      ThresholdBelowBest(cs, i + 1, root);
      RunSnoc(cs, i, root);
    } else {
      assert cs[..i] == cs;
    }
  }

  /** The winner's score is at least every evaluated candidate's score, and
      strictly greater than that of every evaluated candidate before it:
      ties go to the earliest candidate. A candidate that is not evaluated
      has a weight below the winner's score. */
  lemma {:induction false} WinnerIsFirstMaximum(cs: seq<Candidate>, i: nat, root: (real, nat) -> real)
    requires i < |cs|
    ensures var b := Run(cs, root);
      && (IsEvaluated(cs, i, root) ==> ScoreAt(cs, i, root) <= b.score)
      && (IsEvaluated(cs, i, root) && i < b.index ==> ScoreAt(cs, i, root) < b.score)
      && (!IsEvaluated(cs, i, root) ==> cs[i].weight < b.score)
  {
    var b := Run(cs, root);
    RunSnoc(cs, i, root);
    ThresholdBelowBest(cs, i + 1, root);
    RunWinner(cs, root);
    if i < b.index {
      ThresholdBelowBest(cs, i + 1, root);
      ThresholdAbove(cs, i + 1, b.index, root);
    }
  }

  /** Once a candidate wins, later thresholds are at least its score; the
      winner's score is above its own threshold. */
  lemma {:induction false} ThresholdAbove(cs: seq<Candidate>, j: nat, w: nat, root: (real, nat) -> real)
    requires j <= w < |cs| && Run(cs, root).index == w
    ensures Threshold(cs, j, root) < Run(cs, root).score
    decreases w - j
  {
    RunWinner(cs, root);
    if j < w {
      ThresholdAbove(cs, j + 1, w, root);
      RunSnoc(cs, j, root);
    } else {
      LastWinAt(cs, w, root);
    }
  }

  /** The recorded winner w won at step w, over the threshold it saw, and
      kept the lead to the end. */
  lemma {:induction false} LastWinAt(cs: seq<Candidate>, w: nat, root: (real, nat) -> real)
    requires w < |cs| && Run(cs, root).index == w
    ensures Run(cs[..w + 1], root) == Run(cs, root)
    ensures Threshold(cs, w, root) < Run(cs, root).score
  {
    var n := |cs| - 1;
    var init := cs[..n];
    assert cs[..n] == init;
    if w < n {
      RunWinner(init, root);
      assert Run(cs, root) == Consider(Run(init, root), cs[n], n, root);
      LastWinAt(init, w, root);
      assert init[..w + 1] == cs[..w + 1];
      assert init[..w] == cs[..w];
    } else {
      assert cs[..w + 1] == cs;
      RunWinner(init, root);
      assert Run(cs, root) == Consider(Run(init, root), cs[n], n, root);
    }
  }
}
