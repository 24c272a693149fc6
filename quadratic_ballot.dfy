/**
 * The quadratic ballot: a signed number of votes per candidate (negative
 * votes oppose), where casting v votes costs v * v credits out of the
 * voter's credit budget. An empty allocation map is an abstention.
 */
module QuadraticBallots {
  import opened Types
  import opened Seqs
  import opened MapSums

  const DEFAULT_CREDIT_BUDGET: int := 100

  datatype QuadraticBallot = QuadraticBallot(
    voterId: VoterId,
    allocations: map<CandidateId, int>,
    creditBudget: int)

  /** Why validation rejects an allocation map. */
  datatype QuadraticError =
    | InvalidAllocation                          // a zero entry, or a negative one when negatives are disallowed
    | OverBudget(totalCost: int, budget: int)    // the allocations cost more than the budget

  /** The credit cost of casting `votes` votes for one candidate. */
  function QuadraticCost(votes: int): (cost: int)
    ensures cost >= 0
    ensures cost == 0 <==> votes == 0
    ensures votes <= cost && -votes <= cost
  {
    votes * votes
  }

  /** Opposing costs the same as supporting: the cost depends only on the number of votes, not their sign. */
  lemma CostIgnoresSign(votes: int)
    ensures QuadraticCost(-votes) == QuadraticCost(votes)
  {
  }

  /** Every entry is non-zero, and non-negative unless negatives are allowed. */
  predicate EntriesValid(allocations: map<CandidateId, int>, allowNegative: bool)
  {
    forall c :: c in allocations ==> allocations[c] != 0 && (allowNegative || allocations[c] > 0)
  }

  /** The credits an allocation map costs in total. */
  ghost function AllocationCost(allocations: map<CandidateId, int>): (cost: int)
  {
    SumOf(allocations, Square)
  }

  /**
   * No allocations give an abstaining ballot. With validation on, a zero
   * entry, or a negative one when negatives are disallowed, is rejected;
   * then an allocation costing more than the budget is rejected.
   */
  ghost function CreateQuadraticBallot(
    voterId: VoterId,
    allocations: Option<map<CandidateId, int>>,
    creditBudget: int,
    allowNegative: bool,
    validate: bool): (r: Result<QuadraticBallot, QuadraticError>)
    ensures allocations.None? ==> r == Ok(QuadraticBallot(voterId, map[], creditBudget))
    ensures r.Ok? && allocations.Some? ==> r.value == QuadraticBallot(voterId, allocations.value, creditBudget)
    ensures r == Err(InvalidAllocation) <==>
      allocations.Some? && validate && !EntriesValid(allocations.value, allowNegative)
    ensures r.Err? && r.error.OverBudget? <==>
      allocations.Some? && validate && EntriesValid(allocations.value, allowNegative)
      && AllocationCost(allocations.value) > creditBudget
    ensures r.Ok? && allocations.Some? && validate ==>
      EntriesValid(r.value.allocations, allowNegative) && QuadraticTotalCost(r.value) <= creditBudget
  {
    match allocations
    case None => Ok(QuadraticBallot(voterId, map[], creditBudget))
    case Some(given) =>
      if validate && !EntriesValid(given, allowNegative) then Err(InvalidAllocation)
      else if validate && AllocationCost(given) > creditBudget then Err(OverBudget(AllocationCost(given), creditBudget))
      else Ok(QuadraticBallot(voterId, given, creditBudget))
  }

  predicate IsQuadraticAbstention(b: QuadraticBallot)
  {
    |b.allocations| == 0
  }

  /** The credits the ballot spends. */
  ghost function QuadraticTotalCost(b: QuadraticBallot): (cost: int)
    ensures cost >= 0
    ensures IsQuadraticAbstention(b) ==> cost == 0
  {
    SumOfBounds(b.allocations, Square, 0, MaxWeight(b.allocations, Square));
    AllocationCost(b.allocations)
  }

  /** The credits left over; never more than the budget, never negative on a validated ballot. */
  ghost function CreditsRemaining(b: QuadraticBallot): (left: int)
    ensures left <= b.creditBudget
    ensures QuadraticTotalCost(b) <= b.creditBudget ==> left >= 0
    ensures left == b.creditBudget <==> QuadraticTotalCost(b) == 0
  {
    b.creditBudget - QuadraticTotalCost(b)
  }

  /** The votes for a candidate; 0 when unallocated. */
  function GetVotes(b: QuadraticBallot, c: CandidateId): (v: int)
    ensures c !in b.allocations ==> v == 0
    ensures c in b.allocations ==> v == b.allocations[c]
  {
    Get(b.allocations, c)
  }

  /** The number of candidates with an allocation. */
  function CandidatesVotedFor(b: QuadraticBallot): (n: nat)
    ensures n == 0 <==> IsQuadraticAbstention(b)
  {
    |b.allocations|
  }

  /**
   * Every allocation costs at least one credit, so a ballot with valid
   * entries spends at least one credit per candidate voted for, and the cost
   * of each single allocation is within the total.
   */
  lemma {:induction false} TotalCostBounds(b: QuadraticBallot, allowNegative: bool, c: CandidateId)
    requires EntriesValid(b.allocations, allowNegative)
    ensures CandidatesVotedFor(b) <= QuadraticTotalCost(b)
    ensures QuadraticCost(GetVotes(b, c)) <= QuadraticTotalCost(b)
  {
    SumOfBounds(b.allocations, Square, 1, MaxWeight(b.allocations, Square));
    if c in b.allocations {
      SumOfAtLeast(b.allocations, Square, c);
    }
  }

  /** `math.isqrt`: the integer square root; None where Python raises for a negative budget. */
  function MaxVotesForBudget(creditBudget: int): (r: Option<nat>)
    ensures r.None? <==> creditBudget < 0
    ensures r.Some? ==> r.value * r.value <= creditBudget < (r.value + 1) * (r.value + 1)
  {
    if creditBudget < 0 then None else Some(Isqrt(creditBudget))
  }

  function Isqrt(n: nat): (r: nat)
    ensures r * r <= n < (r + 1) * (r + 1)
  {
    if n == 0 then 0
    else
      var s := Isqrt(n - 1);
      if (s + 1) * (s + 1) <= n then s + 1 else s
  }

  /**
   * On a ballot that passed validation, no candidate receives more votes,
   * for or against, than the budget's integer square root.
   */
  lemma {:induction false} ValidatedVotesWithinBudget(b: QuadraticBallot, allowNegative: bool, c: CandidateId)
    requires EntriesValid(b.allocations, allowNegative)
    requires QuadraticTotalCost(b) <= b.creditBudget
    ensures MaxVotesForBudget(b.creditBudget).Some?
    ensures -(MaxVotesForBudget(b.creditBudget).value as int) <= GetVotes(b, c) <= MaxVotesForBudget(b.creditBudget).value
  {
    TotalCostBounds(b, allowNegative, c);
    var r := MaxVotesForBudget(b.creditBudget).value;
    var v := GetVotes(b, c);
    var a: nat := if v < 0 then -v else v;
    assert a * a == v * v <= b.creditBudget;
    if a > r {
      SquareMonotone(r + 1, a);
    }
  }

  lemma {:induction false} SquareMonotone(x: nat, y: nat)
    requires x <= y
    ensures x * x <= y * y
  {
  }
}
