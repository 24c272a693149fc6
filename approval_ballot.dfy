/** The approval ballot: a set of approved candidates; the empty set is an abstention. */
module ApprovalBallots {
  import opened Types
  import opened Seqs

  datatype ApprovalBallot = ApprovalBallot(voterId: VoterId, approvals: set<CandidateId>)

  /** The three shapes the constructor accepts: nothing, a list or a set. */
  datatype ApprovalInput =
    | NoApprovals
    | ApprovalList(list: seq<CandidateId>)
    | ApprovalSet(approved: set<CandidateId>)

  /** Nothing becomes the empty set, a list its set of entries, a set itself. */
  function CreateApprovalBallot(voterId: VoterId, input: ApprovalInput): (b: ApprovalBallot)
    ensures b.voterId == voterId
    ensures input.NoApprovals? ==> b.approvals == {}
    ensures input.ApprovalList? ==> forall c :: c in b.approvals <==> c in input.list
    ensures input.ApprovalSet? ==> b.approvals == input.approved
  {
    match input
    case NoApprovals => ApprovalBallot(voterId, {})
    case ApprovalList(list) => ApprovalBallot(voterId, ToSet(list))
    case ApprovalSet(approved) => ApprovalBallot(voterId, approved)
  }

  predicate IsAbstention(b: ApprovalBallot)
  {
    |b.approvals| == 0
  }

  /** The number of candidates approved. */
  function ApprovalCount(b: ApprovalBallot): (n: nat)
    ensures n == 0 <==> IsAbstention(b)
    ensures forall c :: c in b.approvals ==> n >= 1
  {
    |b.approvals|
  }

  /**
   * A ballot built from a list approves as many candidates as the list has
   * entries, fewer exactly when the list repeats a candidate; it abstains
   * exactly when the list is empty.
   */
  lemma {:induction false} ListApprovalCount(voterId: VoterId, list: seq<CandidateId>)
    ensures ApprovalCount(CreateApprovalBallot(voterId, ApprovalList(list))) <= |list|
    ensures ApprovalCount(CreateApprovalBallot(voterId, ApprovalList(list))) == |list| <==> Distinct(list)
    ensures IsAbstention(CreateApprovalBallot(voterId, ApprovalList(list))) <==> |list| == 0
  {
    DistinctCardinality(list);
    if |list| > 0 {
      assert list[0] in ToSet(list);
    }
  }
}
