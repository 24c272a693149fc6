/**
 * Plurality (first past the post): one vote per single-choice ballot; the
 * candidate with the most votes wins, ties go to the tie-break. Votes for
 * candidates not standing are ignored.
 */
module Plurality {
  import opened Types
  import opened Seqs
  import opened WinnerRule
  import opened SingleChoiceBallots

  /** The number of ballots choosing `c`. */
  function VotesFor(ballots: seq<SingleChoiceBallot>, c: CandidateId): (n: nat)
    ensures n <= |ballots|
  {
    if |ballots| == 0 then 0
    else VotesFor(ballots[..|ballots| - 1], c) + (if ballots[|ballots| - 1].choice == Some(c) then 1 else 0)
  }

  /** The number of abstaining ballots. */
  function Abstentions(ballots: seq<SingleChoiceBallot>): (n: nat)
    ensures n <= |ballots|
  {
    if |ballots| == 0 then 0
    else Abstentions(ballots[..|ballots| - 1]) + (if IsAbstention(ballots[|ballots| - 1]) then 1 else 0)
  }

  /** The number of ballots choosing someone who is not among `keys`. */
  function Ignored(ballots: seq<SingleChoiceBallot>, keys: seq<CandidateId>): (n: nat)
    ensures n <= |ballots|
  {
    if |ballots| == 0 then 0
    else
      var b := ballots[|ballots| - 1];
      Ignored(ballots[..|ballots| - 1], keys) + (if b.choice.Some? && b.choice.value !in keys then 1 else 0)
  }

  /**
   * The vote counts after counting `ballots` in order, starting from zero
   * for every standing candidate: each count is that candidate's votes.
   */
  function Tally(keys: seq<CandidateId>, ballots: seq<SingleChoiceBallot>): (counts: map<CandidateId, int>)
    ensures counts.Keys == ToSet(keys)
  {
    if |ballots| == 0 then map c | c in keys :: 0
    else
      var counts := Tally(keys, ballots[..|ballots| - 1]);
      var b := ballots[|ballots| - 1];
      if b.choice.Some? && b.choice.value in counts then counts[b.choice.value := counts[b.choice.value] + 1]
      else counts
  }

  /** Each standing candidate's count is the number of ballots choosing it. */
  lemma {:induction false} TallyCountsVotes(keys: seq<CandidateId>, ballots: seq<SingleChoiceBallot>, c: CandidateId)
    requires c in keys
    ensures c in Tally(keys, ballots) && Tally(keys, ballots)[c] == VotesFor(ballots, c)
  {
    if |ballots| > 0 {
      TallyCountsVotes(keys, ballots[..|ballots| - 1], c);
    }
  }

  /** What counting ballot `i` adds to the counts of the ballots before it. */
  lemma {:induction false} CountStep(keys: seq<CandidateId>, ballots: seq<SingleChoiceBallot>, i: nat)
    requires i < |ballots|
    ensures var counts, b := Tally(keys, ballots[..i]), ballots[i];
      Tally(keys, ballots[..i + 1]) ==
        if b.choice.Some? && b.choice.value in counts then counts[b.choice.value := counts[b.choice.value] + 1] else counts
    ensures Abstentions(ballots[..i + 1]) == Abstentions(ballots[..i]) + (if IsAbstention(ballots[i]) then 1 else 0)
  {
    assert ballots[..i + 1][..i] == ballots[..i];
  }

  /** Counts ballot `i`: an abstention, a vote for a standing candidate, or an ignored vote. */
  method CountBallot(keys: seq<CandidateId>, ballots: seq<SingleChoiceBallot>, i: nat, counts: map<CandidateId, int>, abstentions: nat)
    returns (counts': map<CandidateId, int>, abstentions': nat)
    requires i < |ballots|
    requires counts == Tally(keys, ballots[..i]) && abstentions == Abstentions(ballots[..i])
    ensures counts' == Tally(keys, ballots[..i + 1]) && abstentions' == Abstentions(ballots[..i + 1])
  {
    var b := ballots[i];
    CountStep(keys, ballots, i);
    abstentions' := abstentions + (if IsAbstention(b) then 1 else 0);
    if b.choice.Some? && b.choice.value in counts {
      counts' := counts[b.choice.value := counts[b.choice.value] + 1];
    } else {
      counts' := counts;
    }
  }

  /** The counting loop over all ballots, from zero for every standing candidate. */
  method CountVotes(keys: seq<CandidateId>, ballots: seq<SingleChoiceBallot>) returns (counts: map<CandidateId, int>, abstentions: nat)
    ensures counts == Tally(keys, ballots)
    ensures abstentions == Abstentions(ballots)
  {
    counts := map c | c in keys :: 0;
    abstentions := 0;
    var i := 0;
    while i < |ballots|
      invariant 0 <= i <= |ballots|
      invariant counts == Tally(keys, ballots[..i])
      invariant abstentions == Abstentions(ballots[..i])
    {
      counts, abstentions := CountBallot(keys, ballots, i, counts, abstentions);
      i := i + 1;
    }
    assert ballots[..|ballots|] == ballots;
  }

  /**
   * Counts every ballot: abstentions, votes for standing candidates (whose
   * counts are reported for every candidate, zero included) and ignored
   * votes; then applies the shared winner rule.
   */
  method ResolvePlurality(candidates: seq<Candidate>, ballots: seq<SingleChoiceBallot>, tiebreak: Tiebreak)
    returns (result: ElectionResult)
    requires PicksMember(tiebreak)
    ensures var keys := Dedup(Ids(candidates));
      && result.voteCounts == Tally(keys, ballots)
      && result.totalBallots == |ballots|
      && result.abstentions == Abstentions(ballots)
      && Decision(result.winners, result.tiebreakApplied) == DecideWinner(keys, result.voteCounts, tiebreak)
  {
    var keys := Dedup(Ids(candidates));
    var counts, abstentions := CountVotes(keys, ballots);
    var decision := DecideWinner(keys, counts, tiebreak);
    result := ElectionResult(decision.winners, counts, |ballots|, abstentions, decision.tiebreakApplied);
  }

  /**
   * Every ballot is accounted for exactly once: the candidates' counts, the
   * abstentions and the ignored votes add up to the number of ballots.
   */
  lemma {:induction false} PluralityConservation(keys: seq<CandidateId>, ballots: seq<SingleChoiceBallot>)
    requires Distinct(keys)
    ensures SumOver(keys, Tally(keys, ballots)) + Abstentions(ballots) + Ignored(ballots, keys) == |ballots|
  {
    if |ballots| == 0 {
      SumOverZero(keys, Tally(keys, ballots));
    } else {
      var init, b := ballots[..|ballots| - 1], ballots[|ballots| - 1];
      PluralityConservation(keys, init);
      assert Abstentions(ballots) == Abstentions(init) + (if IsAbstention(b) then 1 else 0);
      assert Ignored(ballots, keys) == Ignored(init, keys) + (if b.choice.Some? && b.choice.value !in keys then 1 else 0);
      if b.choice.Some? && b.choice.value in keys {
        assert b.choice.value in Tally(keys, init);
        SumOverPointUpdate(keys, Tally(keys, init), b.choice.value, 1);
      }
    }
  }

  /**
   * A standing candidate chosen on more than half of the non-abstaining
   * ballots wins outright, without the tie-break.
   */
  lemma {:induction false} PluralityMajorityWins(keys: seq<CandidateId>, ballots: seq<SingleChoiceBallot>, w: CandidateId, tiebreak: Tiebreak)
    requires Distinct(keys)
    requires PicksMember(tiebreak)
    requires w in keys
    requires 2 * VotesFor(ballots, w) > |ballots| - Abstentions(ballots)
    ensures DecideWinner(keys, Tally(keys, ballots), tiebreak) == Decision([w], false)
  {
    var counts := Tally(keys, ballots);
    PluralityConservation(keys, ballots);
    forall c | c in keys
      ensures Get(counts, c) >= 0 && Get(counts, c) == VotesFor(ballots, c)
    {
      TallyCountsVotes(keys, ballots, c);
    }
    forall c | c in keys && c != w
      ensures Get(counts, c) < Get(counts, w)
    {
      SumOverAtLeast(keys, counts, w, c);
    }
    StrictLeaderWins(keys, counts, w, tiebreak);
  }
}
