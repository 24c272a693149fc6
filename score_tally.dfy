/**
 * Score (range) voting: a candidate's total is the sum of the scores it
 * receives (0 where unscored); the highest total wins, ties go to the
 * tie-break.
 */
module ScoreTally {
  import opened Types
  import opened Seqs
  import opened WinnerRule
  import opened ScoreBallots

  /**
   * The score result. The average score of a candidate and its percentage of
   * the maximum are the fractions `total / nonAbstaining` and
   * `100 * total / maxPossibleScore` (0.0 when the denominator is 0); the
   * model keeps the exact totals and the maximum.
   */
  datatype ScoreResult = ScoreResult(base: ElectionResult, scoreTotals: map<CandidateId, int>, maxPossibleScore: int)

  /** The number of abstaining ballots. */
  function Abstentions(ballots: seq<ScoreBallot>): (n: nat)
    ensures n <= |ballots|
  {
    if |ballots| == 0 then 0
    else Abstentions(ballots[..|ballots| - 1]) + (if IsAbstention(ballots[|ballots| - 1]) then 1 else 0)
  }

  /** The sum of the scores `c` receives over all ballots. */
  function ScoreFor(ballots: seq<ScoreBallot>, c: CandidateId): int
  {
    if |ballots| == 0 then 0 else ScoreFor(ballots[..|ballots| - 1], c) + GetScore(ballots[|ballots| - 1], c)
  }

  /**
   * The totals after adding the ballot's score of each listed candidate in
   * turn (a candidate listed twice has its score added twice).
   */
  function AddScores(totals: map<CandidateId, int>, b: ScoreBallot, ids: seq<CandidateId>): (next: map<CandidateId, int>)
    requires forall c :: c in ids ==> c in totals
    ensures next.Keys == totals.Keys
  {
    if |ids| == 0 then totals
    else
      var init, last := ids[..|ids| - 1], ids[|ids| - 1];
      assert forall c :: c in init ==> c in ids;
      var t := AddScores(totals, b, init);
      t[last := t[last] + GetScore(b, last)]
  }

  /** Over a list without repeats, each listed candidate gains exactly its score on the ballot. */
  lemma {:induction false} AddScoresOnce(totals: map<CandidateId, int>, b: ScoreBallot, ids: seq<CandidateId>, c: CandidateId)
    requires forall c :: c in ids ==> c in totals
    requires Distinct(ids)
    requires c in totals
    ensures AddScores(totals, b, ids)[c] == totals[c] + (if c in ids then GetScore(b, c) else 0)
  {
    if |ids| > 0 {
      var init, last := ids[..|ids| - 1], ids[|ids| - 1];
      assert forall c :: c in init ==> c in ids;
      assert last !in init;
      AddScoresOnce(totals, b, init, c);
    }
  }

  /** Adding the listed scores one candidate further. */
  lemma {:induction false} AddScoresStep(totals: map<CandidateId, int>, b: ScoreBallot, ids: seq<CandidateId>, j: nat)
    requires forall c :: c in ids ==> c in totals
    requires j < |ids|
    ensures forall c :: c in ids[..j] ==> c in totals
    ensures ids[j] in AddScores(totals, b, ids[..j])
    ensures AddScores(totals, b, ids[..j + 1]) ==
      AddScores(totals, b, ids[..j])[ids[j] := AddScores(totals, b, ids[..j])[ids[j]] + GetScore(b, ids[j])]
  {
    assert ids[..j + 1][..j] == ids[..j];
  }

  /** The totals after the non-abstaining ballots of `ballots`, from zero for every candidate. */
  function Tally(ids: seq<CandidateId>, ballots: seq<ScoreBallot>): (totals: map<CandidateId, int>)
    ensures totals.Keys == ToSet(ids)
  {
    if |ballots| == 0 then map c | c in ids :: 0
    else
      var t := Tally(ids, ballots[..|ballots| - 1]);
      var b := ballots[|ballots| - 1];
      if IsAbstention(b) then t else AddScores(t, b, ids)
  }

  /** The inner loop: adds the ballot's score of each listed candidate. */
  method AddBallotScores(totals: map<CandidateId, int>, b: ScoreBallot, ids: seq<CandidateId>)
    returns (next: map<CandidateId, int>)
    requires forall c :: c in ids ==> c in totals
    ensures next == AddScores(totals, b, ids)
  {
    next := totals;
    var j := 0;
    while j < |ids|
      invariant 0 <= j <= |ids|
      invariant forall c :: c in ids[..j] ==> c in totals
      invariant next == AddScores(totals, b, ids[..j])
    {
      AddScoresStep(totals, b, ids, j);
      next := next[ids[j] := next[ids[j]] + GetScore(b, ids[j])];
      j := j + 1;
    }
    assert ids[..|ids|] == ids;
  }

  /** What counting ballot `i` adds to the totals of the ballots before it. */
  lemma {:induction false} CountStep(ids: seq<CandidateId>, ballots: seq<ScoreBallot>, i: nat)
    requires i < |ballots|
    ensures Tally(ids, ballots[..i + 1]) ==
      if IsAbstention(ballots[i]) then Tally(ids, ballots[..i]) else AddScores(Tally(ids, ballots[..i]), ballots[i], ids)
    ensures Abstentions(ballots[..i + 1]) == Abstentions(ballots[..i]) + (if IsAbstention(ballots[i]) then 1 else 0)
  {
    assert ballots[..i + 1][..i] == ballots[..i];
  }

  /** Counts ballot `i`: an abstention is counted as such, any other ballot's scores are added to the totals. */
  method CountBallot(ids: seq<CandidateId>, ballots: seq<ScoreBallot>, i: nat, totals: map<CandidateId, int>, abstentions: nat)
    returns (totals': map<CandidateId, int>, abstentions': nat)
    requires i < |ballots|
    requires totals == Tally(ids, ballots[..i]) && abstentions == Abstentions(ballots[..i])
    ensures totals' == Tally(ids, ballots[..i + 1]) && abstentions' == Abstentions(ballots[..i + 1])
  {
    var b := ballots[i];
    CountStep(ids, ballots, i);
    if IsAbstention(b) {
      totals', abstentions' := totals, abstentions + 1;
    } else {
      totals' := AddBallotScores(totals, b, ids);
      abstentions' := abstentions;
    }
  }

  /** The counting loop: adds every non-abstaining ballot's scores to the totals and counts the abstentions. */
  method CountScores(ids: seq<CandidateId>, ballots: seq<ScoreBallot>) returns (totals: map<CandidateId, int>, abstentions: nat)
    ensures totals == Tally(ids, ballots)
    ensures abstentions == Abstentions(ballots)
  {
    totals := map c | c in ids :: 0;
    abstentions := 0;
    var i := 0;
    assert totals == Tally(ids, ballots[..0]);
    while i < |ballots|
      invariant 0 <= i <= |ballots|
      invariant totals == Tally(ids, ballots[..i])
      invariant abstentions == Abstentions(ballots[..i])
    {
      totals, abstentions := CountBallot(ids, ballots, i, totals, abstentions);
      i := i + 1;
    }
    assert ballots[..|ballots|] == ballots;
  }

  /**
   * Adds every non-abstaining ballot's scores to the totals, computes the
   * maximum possible score, and applies the shared winner rule.
   */
  method ResolveScore(candidates: seq<Candidate>, ballots: seq<ScoreBallot>, tiebreak: Tiebreak)
    returns (result: ScoreResult)
    requires PicksMember(tiebreak)
    ensures var ids := Ids(candidates);
      && result.scoreTotals == Tally(ids, ballots)
      && result.base.voteCounts == result.scoreTotals
      && result.base.totalBallots == |ballots|
      && result.base.abstentions == Abstentions(ballots)
      && result.maxPossibleScore == MAX_SCORE * (|ballots| - Abstentions(ballots))
      && Decision(result.base.winners, result.base.tiebreakApplied) == DecideWinner(Dedup(ids), result.scoreTotals, tiebreak)
  {
    var ids := Ids(candidates);
    var totals, abstentions := CountScores(ids, ballots);
    var nonAbstaining := |ballots| - abstentions;
    var maxPossible := if nonAbstaining > 0 then MAX_SCORE * nonAbstaining else 0;
    var decision := DecideWinner(Dedup(ids), totals, tiebreak);
    result := ScoreResult(
      ElectionResult(decision.winners, totals, |ballots|, abstentions, decision.tiebreakApplied),
      totals, maxPossible);
  }

  /**
   * With each candidate listed once, a candidate's total is the sum of the
   * scores it received, abstaining ballots contributing nothing.
   */
  lemma {:induction false} TotalsAreScoreSums(ids: seq<CandidateId>, ballots: seq<ScoreBallot>, c: CandidateId)
    requires Distinct(ids)
    requires c in ids
    ensures Tally(ids, ballots)[c] == ScoreFor(ballots, c)
  {
    if |ballots| > 0 {
      TotalsAreScoreSums(ids, ballots[..|ballots| - 1], c);
      var b := ballots[|ballots| - 1];
      if IsAbstention(b) {
        assert GetScore(b, c) == 0;
      } else {
        AddScoresOnce(Tally(ids, ballots[..|ballots| - 1]), b, ids, c);
      }
    }
  }

  /**
   * When every ballot's scores lie in range, every candidate's sum of scores
   * lies between 0 and the maximum possible score, so each percentage of
   * the maximum is between 0 and 100.
   */
  lemma {:induction false} ScoreSumWithinMaximum(ballots: seq<ScoreBallot>, c: CandidateId)
    requires forall i :: 0 <= i < |ballots| ==> InRange(ballots[i].scores)
    ensures 0 <= ScoreFor(ballots, c) <= MAX_SCORE * (|ballots| - Abstentions(ballots))
  {
    if |ballots| > 0 {
      var init, b := ballots[..|ballots| - 1], ballots[|ballots| - 1];
      ScoreSumWithinMaximum(init, c);
      if IsAbstention(b) {
        assert GetScore(b, c) == 0;
      }
    }
  }

  /** Taking ballot k out of the list takes its score out of every candidate's sum. */
  lemma {:induction false} ScoreForRemove(ballots: seq<ScoreBallot>, k: nat, c: CandidateId)
    requires k < |ballots|
    ensures ScoreFor(ballots, c) == ScoreFor(ballots[..k] + ballots[k + 1..], c) + GetScore(ballots[k], c)
  {
    var init, last := ballots[..|ballots| - 1], ballots[|ballots| - 1];
    if k == |ballots| - 1 {
      assert ballots[..k] + ballots[k + 1..] == init;
    } else {
      ScoreForRemove(init, k, c);
      var rest := init[..k] + init[k + 1..];
      assert ballots[..k] + ballots[k + 1..] == rest + [last];
      assert (rest + [last])[..|rest|] == rest;
    }
  }

  /** A candidate's sum of scores does not depend on the order of the ballots. */
  lemma {:induction false} ScoreForReordered(ballots: seq<ScoreBallot>, reordered: seq<ScoreBallot>, c: CandidateId)
    requires multiset(ballots) == multiset(reordered)
    ensures ScoreFor(ballots, c) == ScoreFor(reordered, c)
    decreases |ballots|
  {
    if |ballots| == 0 {
      assert |multiset(reordered)| == 0;
    } else {
      var init, last := ballots[..|ballots| - 1], ballots[|ballots| - 1];
      assert ballots == init + [last];
      assert last in multiset(reordered);
      var k :| 0 <= k < |reordered| && reordered[k] == last;
      var rest := reordered[..k] + reordered[k + 1..];
      assert reordered == reordered[..k] + [last] + reordered[k + 1..];
      assert multiset(ballots) == multiset(init) + multiset{last};
      assert multiset(reordered) == multiset(reordered[..k]) + multiset{last} + multiset(reordered[k + 1..]);
      assert multiset(rest) == multiset(reordered[..k]) + multiset(reordered[k + 1..]);
      assert multiset(init) == multiset(ballots) - multiset{last};
      assert multiset(rest) == multiset(reordered) - multiset{last};
      ScoreForReordered(init, rest, c);
      ScoreForRemove(reordered, k, c);
    }
  }

  /**
   * With each candidate listed once, reordering the ballots leaves every
   * score total unchanged.
   */
  lemma {:induction false} TotalsIgnoreOrder(ids: seq<CandidateId>, ballots: seq<ScoreBallot>, reordered: seq<ScoreBallot>)
    requires Distinct(ids)
    requires multiset(ballots) == multiset(reordered)
    ensures Tally(ids, ballots) == Tally(ids, reordered)
  {
    forall c | c in ToSet(ids)
      ensures Tally(ids, ballots)[c] == Tally(ids, reordered)[c]
    {
      TotalsAreScoreSums(ids, ballots, c);
      TotalsAreScoreSums(ids, reordered, c);
      ScoreForReordered(ballots, reordered, c);
    }
  }
}
