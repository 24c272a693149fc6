/**
 * Approval voting: every non-abstaining ballot gives one point to each
 * standing candidate it approves; the most approved candidate wins, ties go
 * to the tie-break. Approvals of candidates not standing are ignored.
 */
module ApprovalTally {
  import opened Types
  import opened Seqs
  import opened WinnerRule
  import opened ApprovalBallots

  /**
   * The approval result. The average approvals per ballot and each
   * candidate's approval rate are the fractions
   * `totalApprovals / nonAbstaining` and `count / nonAbstaining`
   * (both 0.0 when every ballot abstains); the model keeps their exact
   * numerators and denominator.
   */
  datatype ApprovalResult = ApprovalResult(base: ElectionResult, totalApprovals: nat, nonAbstaining: nat)

  /** The number of abstaining ballots. */
  function Abstentions(ballots: seq<ApprovalBallot>): (n: nat)
    ensures n <= |ballots|
  {
    if |ballots| == 0 then 0
    else Abstentions(ballots[..|ballots| - 1]) + (if IsAbstention(ballots[|ballots| - 1]) then 1 else 0)
  }

  /** The number of ballots approving `c`; only non-abstaining ballots approve anyone. */
  function ApprovalsFor(ballots: seq<ApprovalBallot>, c: CandidateId): (n: nat)
    ensures n + Abstentions(ballots) <= |ballots|
  {
    if |ballots| == 0 then 0
    else ApprovalsFor(ballots[..|ballots| - 1], c) + (if c in ballots[|ballots| - 1].approvals then 1 else 0)
  }

  /** The number of approvals of standing candidates, over all ballots. */
  function ValidApprovals(ballots: seq<ApprovalBallot>, valid: set<CandidateId>): (n: nat)
  {
    if |ballots| == 0 then 0
    else ValidApprovals(ballots[..|ballots| - 1], valid) + |ballots[|ballots| - 1].approvals * valid|
  }

  /** One more point for every counted candidate in `approved`. */
  function AddOnes(counts: map<CandidateId, int>, approved: set<CandidateId>): (next: map<CandidateId, int>)
    ensures next.Keys == counts.Keys
    ensures forall c :: c in counts ==> next[c] == counts[c] + (if c in approved then 1 else 0)
  {
    map c | c in counts :: counts[c] + (if c in approved then 1 else 0)
  }

  /** The approval counts after `ballots`, from zero for every standing candidate: each is the candidate's approvals. */
  function Tally(keys: seq<CandidateId>, ballots: seq<ApprovalBallot>): (counts: map<CandidateId, int>)
    ensures counts.Keys == ToSet(keys)
  {
    if |ballots| == 0 then map c | c in keys :: 0
    else AddOnes(Tally(keys, ballots[..|ballots| - 1]), ballots[|ballots| - 1].approvals * ToSet(keys))
  }

  /** Each standing candidate's count is the number of ballots approving it. */
  lemma {:induction false} TallyCountsApprovals(keys: seq<CandidateId>, ballots: seq<ApprovalBallot>, c: CandidateId)
    requires c in keys
    ensures c in Tally(keys, ballots) && Tally(keys, ballots)[c] == ApprovalsFor(ballots, c)
  {
    if |ballots| > 0 {
      TallyCountsApprovals(keys, ballots[..|ballots| - 1], c);
    }
  }

  /** Adds one to the count of each candidate in `approved`, one candidate at a time. */
  method CountApprovals(counts: map<CandidateId, int>, approved: set<CandidateId>) returns (next: map<CandidateId, int>)
    requires approved <= counts.Keys
    ensures next == AddOnes(counts, approved)
  {
    next := counts;
    var rest := approved;
    while rest != {}
      invariant rest <= approved
      invariant next.Keys == counts.Keys
      invariant forall c :: c in counts ==> next[c] == counts[c] + (if c in approved - rest then 1 else 0)
      decreases |rest|
    {
      var c :| c in rest;
      next := next[c := next[c] + 1];
      rest := rest - {c};
    }
    assert approved - rest == approved;
  }

  /** Counts ballot `i`: an abstention, or one approval for each approved standing candidate, one at a time. */
  method CountBallot(
    keys: seq<CandidateId>, ballots: seq<ApprovalBallot>, i: nat,
    counts: map<CandidateId, int>, abstentions: nat, totalApprovals: nat)
    returns (counts': map<CandidateId, int>, abstentions': nat, totalApprovals': nat)
    requires i < |ballots|
    requires counts == Tally(keys, ballots[..i]) && abstentions == Abstentions(ballots[..i])
    requires totalApprovals == ValidApprovals(ballots[..i], ToSet(keys))
    ensures counts' == Tally(keys, ballots[..i + 1]) && abstentions' == Abstentions(ballots[..i + 1])
    ensures totalApprovals' == ValidApprovals(ballots[..i + 1], ToSet(keys))
  {
    var b := ballots[i];
    CountStep(keys, ballots, i);
    counts', abstentions', totalApprovals' := counts, abstentions, totalApprovals;
    if IsAbstention(b) {
      abstentions' := abstentions + 1;
    } else {
      var validApprovals := b.approvals * counts.Keys;
      totalApprovals' := totalApprovals + |validApprovals|;
      counts' := CountApprovals(counts, validApprovals);
    }
  }

  /** The counting loop over all ballots, from zero for every standing candidate. */
  method CountAll(keys: seq<CandidateId>, ballots: seq<ApprovalBallot>)
    returns (counts: map<CandidateId, int>, abstentions: nat, totalApprovals: nat)
    ensures counts == Tally(keys, ballots) && abstentions == Abstentions(ballots)
    ensures totalApprovals == ValidApprovals(ballots, ToSet(keys))
  {
    counts := map c | c in keys :: 0;
    abstentions, totalApprovals := 0, 0;
    var i := 0;
    while i < |ballots|
      invariant 0 <= i <= |ballots|
      invariant counts == Tally(keys, ballots[..i]) && abstentions == Abstentions(ballots[..i])
      invariant totalApprovals == ValidApprovals(ballots[..i], ToSet(keys))
    {
      counts, abstentions, totalApprovals := CountBallot(keys, ballots, i, counts, abstentions, totalApprovals);
      i := i + 1;
    }
    assert ballots[..|ballots|] == ballots;
  }

  /**
   * Counts abstentions and, per ballot, the approved standing candidates
   * one at a time, then applies the shared winner rule.
   */
  method ResolveApproval(candidates: seq<Candidate>, ballots: seq<ApprovalBallot>, tiebreak: Tiebreak)
    returns (result: ApprovalResult)
    requires PicksMember(tiebreak)
    ensures var keys := Dedup(Ids(candidates));
      && result.base.voteCounts == Tally(keys, ballots)
      && result.base.totalBallots == |ballots|
      && result.base.abstentions == Abstentions(ballots)
      && result.nonAbstaining == |ballots| - Abstentions(ballots)
      && result.totalApprovals == ValidApprovals(ballots, ToSet(keys))
      && Decision(result.base.winners, result.base.tiebreakApplied) == DecideWinner(keys, result.base.voteCounts, tiebreak)
  {
    var keys := Dedup(Ids(candidates));
    var counts, abstentions, totalApprovals := CountAll(keys, ballots);
    var decision := DecideWinner(keys, counts, tiebreak);
    result := ApprovalResult(
      ElectionResult(decision.winners, counts, |ballots|, abstentions, decision.tiebreakApplied),
      totalApprovals, |ballots| - abstentions);
  }

  /** What counting ballot `i` adds to the counts of the ballots before it. */
  lemma {:induction false} CountStep(keys: seq<CandidateId>, ballots: seq<ApprovalBallot>, i: nat)
    requires i < |ballots|
    ensures Tally(keys, ballots[..i + 1]) == AddOnes(Tally(keys, ballots[..i]), ballots[i].approvals * ToSet(keys))
    ensures Abstentions(ballots[..i + 1]) == Abstentions(ballots[..i]) + (if IsAbstention(ballots[i]) then 1 else 0)
    ensures ValidApprovals(ballots[..i + 1], ToSet(keys)) == ValidApprovals(ballots[..i], ToSet(keys)) + |ballots[i].approvals * ToSet(keys)|
    ensures IsAbstention(ballots[i]) ==> Tally(keys, ballots[..i + 1]) == Tally(keys, ballots[..i])
  {
    assert ballots[..i + 1][..i] == ballots[..i];
    if IsAbstention(ballots[i]) {
      assert ballots[i].approvals * ToSet(keys) == {};
    }
  }

  /**
   * The total approvals is the sum of the candidates' counts, and it is at
   * most one approval per standing candidate per non-abstaining ballot (so
   * every approval rate is at most 1 and the average at most the number of
   * candidates).
   */
  lemma {:induction false} ApprovalTotals(keys: seq<CandidateId>, ballots: seq<ApprovalBallot>)
    requires Distinct(keys)
    ensures SumOver(keys, Tally(keys, ballots)) == ValidApprovals(ballots, ToSet(keys))
    ensures ValidApprovals(ballots, ToSet(keys)) <= (|ballots| - Abstentions(ballots)) * |keys|
  {
    ApprovalSum(keys, ballots);
    ApprovalBound(keys, ballots);
  }

  lemma {:induction false} ApprovalBound(keys: seq<CandidateId>, ballots: seq<ApprovalBallot>)
    requires SumOver(keys, Tally(keys, ballots)) == ValidApprovals(ballots, ToSet(keys))
    ensures ValidApprovals(ballots, ToSet(keys)) <= (|ballots| - Abstentions(ballots)) * |keys|
  {
    TallyAtMostVoting(keys, ballots);
    SumBound(keys, Tally(keys, ballots), |ballots| - Abstentions(ballots), ValidApprovals(ballots, ToSet(keys)));
  }

  lemma {:induction false} SumBound(keys: seq<CandidateId>, counts: map<CandidateId, int>, voting: nat, total: nat)
    requires SumOver(keys, counts) == total
    requires forall c :: c in keys ==> Get(counts, c) <= voting
    ensures total <= voting * |keys|
  {
    SumOverAtMost(keys, counts, voting);
  }

  /** No standing candidate is approved more often than there are non-abstaining ballots. */
  lemma {:induction false} TallyAtMostVoting(keys: seq<CandidateId>, ballots: seq<ApprovalBallot>)
    ensures forall c :: c in keys ==> Get(Tally(keys, ballots), c) <= |ballots| - Abstentions(ballots)
  {
    var counts := Tally(keys, ballots);
    forall c | c in keys
      ensures Get(counts, c) <= |ballots| - Abstentions(ballots)
    {
      TallyCountsApprovals(keys, ballots, c);
    }
  }

  lemma {:induction false} ApprovalSum(keys: seq<CandidateId>, ballots: seq<ApprovalBallot>)
    requires Distinct(keys)
    ensures SumOver(keys, Tally(keys, ballots)) == ValidApprovals(ballots, ToSet(keys))
  {
    if |ballots| == 0 {
      SumOverZero(keys, Tally(keys, ballots));
    } else {
      var init, b := ballots[..|ballots| - 1], ballots[|ballots| - 1];
      ApprovalSum(keys, init);
      var a := b.approvals * ToSet(keys);
      SumOverAddOnes(keys, Tally(keys, init), Tally(keys, ballots), a);
      assert ToSet(keys) * a == a;
    }
  }
}
