/**
 * The Borda count: with n candidates, a ballot gives n - 1 points to its
 * first choice, n - 2 to its second, and so on; the highest total wins,
 * ties go to the tie-break. Ranked candidates that are not standing earn
 * nothing but still occupy their position.
 */
module Borda {
  import opened Types
  import opened Seqs
  import opened WinnerRule
  import opened RankedChoiceBallots
  import MapSums

  /**
   * The Borda result. The average points per candidate is the fraction
   * `sum of totals / n` (0.0 without candidates); the model keeps the
   * totals.
   */
  datatype BordaResult = BordaResult(base: ElectionResult, pointTotals: map<CandidateId, int>, maxPointsPerBallot: int)

  /** The totals after awarding `maxPoints - position` to each standing candidate of the ranking. */
  function AddPositions(totals: map<CandidateId, int>, ranking: seq<CandidateId>, maxPoints: int): (next: map<CandidateId, int>)
    ensures next.Keys == totals.Keys
  {
    if |ranking| == 0 then totals
    else
      var t := AddPositions(totals, ranking[..|ranking| - 1], maxPoints);
      var last := ranking[|ranking| - 1];
      if last in t then t[last := t[last] + (maxPoints - (|ranking| - 1))] else t
  }

  /** The point totals after the non-abstaining ballots of `ballots`, from zero for every candidate. */
  function Tally(ids: seq<CandidateId>, ballots: seq<RankedChoiceBallot>, maxPoints: int): (totals: map<CandidateId, int>)
    ensures totals.Keys == ToSet(ids)
  {
    if |ballots| == 0 then map c | c in ids :: 0
    else
      var t := Tally(ids, ballots[..|ballots| - 1], maxPoints);
      var b := ballots[|ballots| - 1];
      if IsAbstention(b) then t else AddPositions(t, b.ranking, maxPoints)
  }

  /** The inner loop: awards the ballot's positional points. */
  method AwardPositions(totals: map<CandidateId, int>, ranking: seq<CandidateId>, maxPoints: int)
    returns (next: map<CandidateId, int>)
    ensures next == AddPositions(totals, ranking, maxPoints)
  {
    next := totals;
    var position := 0;
    while position < |ranking|
      invariant 0 <= position <= |ranking|
      invariant next == AddPositions(totals, ranking[..position], maxPoints)
    {
      assert ranking[..position + 1][..position] == ranking[..position];
      var c := ranking[position];
      if c in next {
        var points := maxPoints - position;
        next := next[c := next[c] + points];
      }
      position := position + 1;
    }
    assert ranking[..|ranking|] == ranking;
  }

  /** What counting ballot `i` adds to the totals of the ballots before it. */
  lemma {:induction false} CountStep(ids: seq<CandidateId>, ballots: seq<RankedChoiceBallot>, maxPoints: int, i: nat)
    requires i < |ballots|
    ensures Tally(ids, ballots[..i + 1], maxPoints) ==
      if IsAbstention(ballots[i]) then Tally(ids, ballots[..i], maxPoints)
      else AddPositions(Tally(ids, ballots[..i], maxPoints), ballots[i].ranking, maxPoints)
    ensures Abstentions(ballots[..i + 1]) == Abstentions(ballots[..i]) + (if IsAbstention(ballots[i]) then 1 else 0)
  {
    assert ballots[..i + 1][..i] == ballots[..i];
  }

  /** Counts ballot `i`: an abstention is counted as such, any other ballot awards its positional points. */
  method CountBallot(
    ids: seq<CandidateId>, ballots: seq<RankedChoiceBallot>, maxPoints: int, i: nat, totals: map<CandidateId, int>, abstentions: nat)
    returns (totals': map<CandidateId, int>, abstentions': nat)
    requires i < |ballots|
    requires totals == Tally(ids, ballots[..i], maxPoints) && abstentions == Abstentions(ballots[..i])
    ensures totals' == Tally(ids, ballots[..i + 1], maxPoints) && abstentions' == Abstentions(ballots[..i + 1])
  {
    var b := ballots[i];
    CountStep(ids, ballots, maxPoints, i);
    if IsAbstention(b) {
      totals', abstentions' := totals, abstentions + 1;
    } else {
      totals' := AwardPositions(totals, b.ranking, maxPoints);
      abstentions' := abstentions;
    }
  }

  /** The counting loop: awards every non-abstaining ballot's positional points and counts the abstentions. */
  method CountPoints(ids: seq<CandidateId>, ballots: seq<RankedChoiceBallot>, maxPoints: int)
    returns (totals: map<CandidateId, int>, abstentions: nat)
    ensures totals == Tally(ids, ballots, maxPoints)
    ensures abstentions == Abstentions(ballots)
  {
    totals := map c | c in ids :: 0;
    abstentions := 0;
    var i := 0;
    assert totals == Tally(ids, ballots[..0], maxPoints);
    while i < |ballots|
      invariant 0 <= i <= |ballots|
      invariant totals == Tally(ids, ballots[..i], maxPoints)
      invariant abstentions == Abstentions(ballots[..i])
    {
      totals, abstentions := CountBallot(ids, ballots, maxPoints, i, totals, abstentions);
      i := i + 1;
    }
    assert ballots[..|ballots|] == ballots;
  }

  /**
   * Awards positional points from every non-abstaining ballot, with
   * n - 1 points for a first place where n counts the candidates as listed,
   * then applies the shared winner rule.
   */
  method ResolveBorda(candidates: seq<Candidate>, ballots: seq<RankedChoiceBallot>, tiebreak: Tiebreak)
    returns (result: BordaResult)
    requires PicksMember(tiebreak)
    ensures var ids := Ids(candidates);
      && result.maxPointsPerBallot == (if |candidates| > 0 then |candidates| - 1 else 0)
      && result.pointTotals == Tally(ids, ballots, result.maxPointsPerBallot)
      && result.base.voteCounts == result.pointTotals
      && result.base.totalBallots == |ballots|
      && result.base.abstentions == Abstentions(ballots)
      && Decision(result.base.winners, result.base.tiebreakApplied) == DecideWinner(Dedup(ids), result.pointTotals, tiebreak)
  {
    var ids := Ids(candidates);
    var n := |candidates|;
    var maxPoints := if n > 0 then n - 1 else 0;
    var totals, abstentions := CountPoints(ids, ballots, maxPoints);
    var decision := DecideWinner(Dedup(ids), totals, tiebreak);
    result := BordaResult(
      ElectionResult(decision.winners, totals, |ballots|, abstentions, decision.tiebreakApplied),
      totals, maxPoints);
  }

  /**
   * On a well-formed ballot, a standing candidate ranked r-th gains
   * `maxPoints + 1 - r` points (n - r with n candidates) and an unranked one
   * gains nothing.
   */
  lemma {:induction false} PointsFollowRank(totals: map<CandidateId, int>, ranking: seq<CandidateId>, maxPoints: int, c: CandidateId)
    requires Distinct(ranking)
    requires c in totals
    ensures AddPositions(totals, ranking, maxPoints)[c] ==
      totals[c] + (if c in ranking then maxPoints + 1 - RankLookup(ranking)[c] else 0)
  {
    if |ranking| > 0 {
      var init, last := ranking[..|ranking| - 1], ranking[|ranking| - 1];
      assert Distinct(init);
      PointsFollowRank(totals, init, maxPoints, c);
      assert RankLookup(ranking)[last] == |ranking|;
      if c in init {
        var k :| 0 <= k < |init| && init[k] == c;
        assert RankLookup(ranking)[c] == k + 1 == RankLookup(init)[c];
      }
    }
  }

  /** The points one ranking hands out to standing candidates (`keys`). */
  function PointsGiven(ranking: seq<CandidateId>, keys: seq<CandidateId>, maxPoints: int): int
  {
    if |ranking| == 0 then 0
    else
      var earned := if ranking[|ranking| - 1] in keys then maxPoints - (|ranking| - 1) else 0;
      PointsGiven(ranking[..|ranking| - 1], keys, maxPoints) + earned
  }

  /** Awarding a ranking's points raises the sum of the totals by exactly the points it hands out. */
  lemma {:induction false} SumAfterPositions(keys: seq<CandidateId>, totals: map<CandidateId, int>, ranking: seq<CandidateId>, maxPoints: int)
    requires Distinct(keys)
    requires totals.Keys == ToSet(keys)
    ensures SumOver(keys, AddPositions(totals, ranking, maxPoints)) == SumOver(keys, totals) + PointsGiven(ranking, keys, maxPoints)
  {
    if |ranking| > 0 {
      var init, last := ranking[..|ranking| - 1], ranking[|ranking| - 1];
      SumAfterPositions(keys, totals, init, maxPoints);
      var t := AddPositions(totals, init, maxPoints);
      if last in t {
        SumOverPointUpdate(keys, t, last, maxPoints - (|ranking| - 1));
      }
    }
  }

  /** A ranking of L standing candidates hands out `L * maxPoints - L * (L - 1) / 2` points. */
  lemma {:induction false} PointsGivenComplete(ranking: seq<CandidateId>, keys: seq<CandidateId>, maxPoints: int)
    requires forall c :: c in ranking ==> c in keys
    ensures 2 * PointsGiven(ranking, keys, maxPoints) == |ranking| * (2 * maxPoints - |ranking| + 1)
  {
    if |ranking| > 0 {
      var init := ranking[..|ranking| - 1];
      assert forall c :: c in init ==> c in ranking;
      PointsGivenComplete(init, keys, maxPoints);
      var l := |init|;
      assert ranking[|ranking| - 1] in ranking;
      assert (l + 1) * (2 * maxPoints - l) == l * (2 * maxPoints - l + 1) + 2 * (maxPoints - l);
    }
  }

  /** A ballot that ranks exactly the candidates, each once. */
  ghost predicate Complete(b: RankedChoiceBallot, ids: seq<CandidateId>)
  {
    Distinct(b.ranking) && ToSet(b.ranking) == ToSet(ids)
  }

  /** Every ballot either abstains or is complete. */
  ghost predicate AllComplete(ballots: seq<RankedChoiceBallot>, ids: seq<CandidateId>)
  {
    |ballots| == 0 ||
    (AllComplete(ballots[..|ballots| - 1], ids) && (IsAbstention(ballots[|ballots| - 1]) || Complete(ballots[|ballots| - 1], ids)))
  }

  /**
   * With n distinct candidates and every non-abstaining ballot complete,
   * each such ballot hands out n * (n - 1) / 2 points, so the totals add up
   * to that much per non-abstaining ballot.
   */
  lemma {:induction false} BordaTotalPoints(ids: seq<CandidateId>, ballots: seq<RankedChoiceBallot>)
    requires Distinct(ids)
    requires AllComplete(ballots, ids)
    ensures var n := |ids|;
      2 * SumOver(ids, Tally(ids, ballots, if n > 0 then n - 1 else 0)) == (|ballots| - Abstentions(ballots)) * (n * (n - 1))
  {
    var n := |ids|;
    if |ballots| == 0 {
      SumOverZero(ids, Tally(ids, ballots, if n > 0 then n - 1 else 0));
    } else {
      BordaTotalPoints(ids, ballots[..|ballots| - 1]);
      BallotPoints(ids, ballots);
    }
  }

  /** Counting the last ballot adds n * (n - 1) / 2 points when it is complete and none when it abstains. */
  lemma {:induction false} BallotPoints(ids: seq<CandidateId>, ballots: seq<RankedChoiceBallot>)
    requires Distinct(ids)
    requires |ballots| > 0
    requires IsAbstention(ballots[|ballots| - 1]) || Complete(ballots[|ballots| - 1], ids)
    requires var n, init := |ids|, ballots[..|ballots| - 1];
      2 * SumOver(ids, Tally(ids, init, if n > 0 then n - 1 else 0)) == (|init| - Abstentions(init)) * (n * (n - 1))
    ensures var n := |ids|;
      2 * SumOver(ids, Tally(ids, ballots, if n > 0 then n - 1 else 0)) == (|ballots| - Abstentions(ballots)) * (n * (n - 1))
  {
    var n := |ids|;
    var maxPoints := if n > 0 then n - 1 else 0;
    var init, b := ballots[..|ballots| - 1], ballots[|ballots| - 1];
    var k := |init| - Abstentions(init);
    var before := Tally(ids, init, maxPoints);
    if IsAbstention(b) {
      assert Tally(ids, ballots, maxPoints) == before;
      assert |ballots| - Abstentions(ballots) == k;
    } else {
      assert Tally(ids, ballots, maxPoints) == AddPositions(before, b.ranking, maxPoints);
      assert |ballots| - Abstentions(ballots) == k + 1;
      AddCompleteBallot(ids, before, b, k, n * (n - 1));
    }
  }

  lemma {:induction false} AddCompleteBallot(ids: seq<CandidateId>, before: map<CandidateId, int>, b: RankedChoiceBallot, k: int, p: int)
    requires Distinct(ids)
    requires before.Keys == ToSet(ids)
    requires Complete(b, ids) && !IsAbstention(b)
    requires p == |ids| * (|ids| - 1)
    requires 2 * SumOver(ids, before) == k * p
    ensures |ids| > 0
    ensures 2 * SumOver(ids, AddPositions(before, b.ranking, |ids| - 1)) == (k + 1) * p
  {
    CompleteBallotPoints(ids, before, b);
    MapSums.MulSucc(p, k);
  }

  /** A complete ballot over n distinct candidates raises the sum of the totals by n * (n - 1) / 2. */
  lemma {:induction false} CompleteBallotPoints(ids: seq<CandidateId>, totals: map<CandidateId, int>, b: RankedChoiceBallot)
    requires Distinct(ids)
    requires totals.Keys == ToSet(ids)
    requires Complete(b, ids)
    requires !IsAbstention(b)
    ensures |ids| > 0
    ensures 2 * SumOver(ids, AddPositions(totals, b.ranking, |ids| - 1)) == 2 * SumOver(ids, totals) + |ids| * (|ids| - 1)
  {
    var n := |ids|;
    SumAfterPositions(ids, totals, b.ranking, n - 1);
    DistinctCardinality(b.ranking);
    DistinctCardinality(ids);
    assert |b.ranking| == n;
    forall c | c in b.ranking
      ensures c in ids
    {
      assert c in ToSet(b.ranking);
    }
    PointsGivenComplete(b.ranking, ids, n - 1);
    assert n * (2 * (n - 1) - n + 1) == n * (n - 1);
  }

  /**
   * With n distinct candidates and every non-abstaining ballot complete, a
   * candidate earns between 0 and n - 1 points per non-abstaining ballot.
   */
  lemma {:induction false} BordaTotalBounds(ids: seq<CandidateId>, ballots: seq<RankedChoiceBallot>, c: CandidateId)
    requires Distinct(ids)
    requires AllComplete(ballots, ids)
    requires c in ids
    ensures c in Tally(ids, ballots, |ids| - 1)
    ensures 0 <= Tally(ids, ballots, |ids| - 1)[c] <= (|ballots| - Abstentions(ballots)) * (|ids| - 1)
  {
    assert c in ToSet(ids);
    if |ballots| > 0 {
      BordaTotalBounds(ids, ballots[..|ballots| - 1], c);
      BallotBounds(ids, ballots, c);
    }
  }

  /** Counting the last ballot keeps a candidate's total within n - 1 points per non-abstaining ballot. */
  lemma {:induction false} BallotBounds(ids: seq<CandidateId>, ballots: seq<RankedChoiceBallot>, c: CandidateId)
    requires Distinct(ids)
    requires c in ids
    requires |ballots| > 0
    requires IsAbstention(ballots[|ballots| - 1]) || Complete(ballots[|ballots| - 1], ids)
    requires var init := ballots[..|ballots| - 1];
      c in Tally(ids, init, |ids| - 1) && 0 <= Tally(ids, init, |ids| - 1)[c] <= (|init| - Abstentions(init)) * (|ids| - 1)
    ensures c in Tally(ids, ballots, |ids| - 1)
    ensures 0 <= Tally(ids, ballots, |ids| - 1)[c] <= (|ballots| - Abstentions(ballots)) * (|ids| - 1)
  {
    var n := |ids|;
    var init, b := ballots[..|ballots| - 1], ballots[|ballots| - 1];
    var t := Tally(ids, init, n - 1);
    var k := |init| - Abstentions(init);
    var voting := |ballots| - Abstentions(ballots);
    if IsAbstention(b) {
      assert Tally(ids, ballots, n - 1) == t;
      assert voting == k;
    } else {
      var next := AddPositions(t, b.ranking, n - 1);
      assert Tally(ids, ballots, n - 1) == next;
      CompleteBallotBounds(ids, t, b, c);
      BoundStep(t[c], next[c], k, voting, n - 1);
    }
  }

  /** A complete ballot over n distinct candidates gives each of them between 0 and n - 1 points. */
  lemma {:induction false} CompleteBallotBounds(ids: seq<CandidateId>, totals: map<CandidateId, int>, b: RankedChoiceBallot, c: CandidateId)
    requires Distinct(ids) && Complete(b, ids) && c in ids && c in totals
    ensures totals[c] <= AddPositions(totals, b.ranking, |ids| - 1)[c] <= totals[c] + |ids| - 1
  {
    RankWithin(ids, b, c);
    PointsFollowRank(totals, b.ranking, |ids| - 1, c);
  }

  /** On a complete ballot every candidate is ranked, at a rank between 1 and the number of candidates. */
  lemma {:induction false} RankWithin(ids: seq<CandidateId>, b: RankedChoiceBallot, c: CandidateId)
    requires Distinct(ids) && Complete(b, ids) && c in ids
    ensures c in b.ranking && 1 <= RankLookup(b.ranking)[c] <= |ids|
  {
    var r := b.ranking;
    assert |r| == |ids| by {
      DistinctCardinality(r);
      DistinctCardinality(ids);
    }
    assert c in r by {
      assert c in ToSet(ids);
    }
    var i :| 0 <= i < |r| && r[i] == c;
    assert RankLookup(r)[c] == i + 1;
  }

  /** A total within k ballots' worth of points that gains at most one ballot's worth stays within k + 1. */
  lemma BoundStep(before: int, after: int, k: int, k': int, m: int)
    requires 0 <= before <= k * m
    requires before <= after <= before + m
    requires k' == k + 1
    ensures 0 <= after <= k' * m
  {
    MapSums.MulSucc(m, k);
  }
}
