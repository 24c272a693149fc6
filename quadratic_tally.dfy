/**
 * Quadratic voting: a candidate's net total is the sum of the signed votes
 * it receives on non-abstaining ballots; allocations to candidates not
 * standing are ignored, and so is their cost. When no vote at all reaches a
 * standing candidate there is no winner; otherwise the highest net total
 * wins and ties go to the tie-break.
 */
module QuadraticTally {
  import opened Types
  import opened Seqs
  import opened MapSums
  import opened WinnerRule
  import opened QuadraticBallots

  /**
   * The quadratic result. The overall utilization is the fraction
   * `totalCreditsSpent / totalCreditsAvailable`, and the average voter
   * utilization the mean of each voter's spent-over-budget fraction; both
   * are floating point and not kept.
   */
  datatype QuadraticResult = QuadraticResult(
    base: ElectionResult,
    voteTotals: map<CandidateId, int>,
    totalCreditsSpent: int,
    totalCreditsAvailable: int,
    candidatesWithNegativeTotals: nat)

  /** The allocations of a ballot that go to candidates in `standing`. */
  function Known(allocations: map<CandidateId, int>, standing: set<CandidateId>): (known: map<CandidateId, int>)
    ensures known.Keys == allocations.Keys * standing
    ensures forall c :: c in known ==> known[c] == allocations[c]
  {
    map c | c in allocations && c in standing :: allocations[c]
  }

  /** The totals after adding the listed votes. */
  function AddVotes(totals: map<CandidateId, int>, votes: map<CandidateId, int>): (next: map<CandidateId, int>)
    ensures next.Keys == totals.Keys
    ensures forall c :: c in totals ==> next[c] == totals[c] + Get(votes, c)
  {
    map c | c in totals :: totals[c] + Get(votes, c)
  }

  /** The number of abstaining ballots. */
  function Abstentions(ballots: seq<QuadraticBallot>): (n: nat)
    ensures n <= |ballots|
  {
    if |ballots| == 0 then 0
    else Abstentions(ballots[..|ballots| - 1]) + (if IsQuadraticAbstention(ballots[|ballots| - 1]) then 1 else 0)
  }

  /** The net votes `c` receives over all ballots. */
  function NetVotes(ballots: seq<QuadraticBallot>, c: CandidateId): int
  {
    if |ballots| == 0 then 0 else NetVotes(ballots[..|ballots| - 1], c) + GetVotes(ballots[|ballots| - 1], c)
  }

  /** The net totals after the non-abstaining ballots, from zero for every standing candidate: each is the candidate's net votes. */
  function Tally(keys: seq<CandidateId>, ballots: seq<QuadraticBallot>): (totals: map<CandidateId, int>)
    ensures totals.Keys == ToSet(keys)
    ensures forall c :: c in totals ==> totals[c] == NetVotes(ballots, c)
  {
    if |ballots| == 0 then map c | c in keys :: 0
    else
      var t := Tally(keys, ballots[..|ballots| - 1]);
      var b := ballots[|ballots| - 1];
      if IsQuadraticAbstention(b) then t else AddVotes(t, Known(b.allocations, ToSet(keys)))
  }

  /** The number of allocations to standing candidates, over all ballots. */
  function Counted(ballots: seq<QuadraticBallot>, standing: set<CandidateId>): nat
  {
    if |ballots| == 0 then 0
    else Counted(ballots[..|ballots| - 1], standing) + |Known(ballots[|ballots| - 1].allocations, standing)|
  }

  /** The credits spent on standing candidates, over all ballots. */
  ghost function CreditsSpent(ballots: seq<QuadraticBallot>, standing: set<CandidateId>): int
  {
    if |ballots| == 0 then 0
    else CreditsSpent(ballots[..|ballots| - 1], standing) + SumOf(Known(ballots[|ballots| - 1].allocations, standing), Square)
  }

  /** The credit budgets of the non-abstaining ballots, added up. */
  function CreditsAvailable(ballots: seq<QuadraticBallot>): int
  {
    if |ballots| == 0 then 0
    else
      var b := ballots[|ballots| - 1];
      CreditsAvailable(ballots[..|ballots| - 1]) + (if IsQuadraticAbstention(b) then 0 else b.creditBudget)
  }

  /** The number of candidates whose net total is negative. */
  function NegativeTotals(totals: map<CandidateId, int>): (n: nat)
    ensures n <= |totals|
  {
    var negative := set c | c in totals && totals[c] < 0;
    assert negative <= totals.Keys;
    SubsetCardinality(negative, totals.Keys);
    |negative|
  }

  /** The number of candidates in `order` that stand. */
  function CountStanding(order: seq<CandidateId>, standing: set<CandidateId>): nat
  {
    if |order| == 0 then 0
    else CountStanding(order[..|order| - 1], standing) + (if order[|order| - 1] in standing then 1 else 0)
  }

  /** The cost of the allocations in `order` to candidates that stand. */
  function CostStanding(order: seq<CandidateId>, allocations: map<CandidateId, int>, standing: set<CandidateId>): int
    requires forall c :: c in order ==> c in allocations
  {
    if |order| == 0 then 0
    else
      var init, last := order[..|order| - 1], order[|order| - 1];
      assert forall c :: c in init ==> c in order;
      CostStanding(init, allocations, standing) + (if last in standing then Square(allocations[last]) else 0)
  }

  /**
   * The inner loop over one ballot's allocations, in the order they are
   * visited: adds the votes for standing candidates, counts them and adds up
   * their cost. Whatever the order, that is the ballot's contribution.
   */
  method CountAllocations(totals: map<CandidateId, int>, allocations: map<CandidateId, int>, standing: set<CandidateId>)
    returns (next: map<CandidateId, int>, counted: nat, knownCost: int)
    requires standing == totals.Keys
    ensures next == AddVotes(totals, Known(allocations, standing))
    ensures counted == |Known(allocations, standing)|
    ensures knownCost == SumOf(Known(allocations, standing), Square)
  {
    next, counted, knownCost := totals, 0, 0;
    var rest := allocations.Keys;
    ghost var order: seq<CandidateId> := [];
    while rest != {}
      invariant rest <= allocations.Keys
      invariant Distinct(order)
      invariant forall c :: c in order ==> c in allocations && c !in rest
      invariant forall c :: c in allocations && c !in rest ==> c in order
      invariant next.Keys == totals.Keys
      invariant forall d :: d in totals ==> next[d] == totals[d] + (if d in allocations && d !in rest then allocations[d] else 0)
      invariant counted == CountStanding(order, standing)
      invariant knownCost == CostStanding(order, allocations, standing)
      decreases |rest|
    {
      var c :| c in rest;
      assert (order + [c])[..|order|] == order;
      assert CountStanding(order + [c], standing) == counted + (if c in standing then 1 else 0);
      assert CostStanding(order + [c], allocations, standing) == knownCost + (if c in standing then Square(allocations[c]) else 0);
      if c in standing {
        var votes := allocations[c];
        next := next[c := next[c] + votes];
        counted := counted + 1;
        knownCost := knownCost + votes * votes;
      }
      order := order + [c];
      rest := rest - {c};
    }
    AllSeen(totals, allocations, standing, order, next);
  }

  /** The count over a list without repeats is the number of standing allocations it lists. */
  lemma {:induction false} CountOfListed(order: seq<CandidateId>, allocations: map<CandidateId, int>, standing: set<CandidateId>)
    requires Distinct(order)
    requires forall c :: c in order ==> c in allocations
    ensures CountStanding(order, standing) == |Known(allocations, ToSet(order) * standing)|
  {
    if |order| > 0 {
      var init := order[..|order| - 1];
      ListedPrefix(order, allocations);
      CountOfListed(init, allocations, standing);
      ListedOneMore(order, allocations, standing);
    }
  }

  /** The cost over a list without repeats is the cost of the standing allocations it lists. */
  lemma {:induction false} CostOfListed(order: seq<CandidateId>, allocations: map<CandidateId, int>, standing: set<CandidateId>)
    requires Distinct(order)
    requires forall c :: c in order ==> c in allocations
    ensures CostStanding(order, allocations, standing) == SumOf(Known(allocations, ToSet(order) * standing), Square)
  {
    if |order| > 0 {
      var init := order[..|order| - 1];
      ListedPrefix(order, allocations);
      CostOfListed(init, allocations, standing);
      ListedOneMore(order, allocations, standing);
    }
  }

  /** Dropping the last key keeps a list without repeats of allocated keys. */
  lemma {:induction false} ListedPrefix(order: seq<CandidateId>, allocations: map<CandidateId, int>)
    requires Distinct(order) && |order| > 0
    requires forall c :: c in order ==> c in allocations
    ensures Distinct(order[..|order| - 1])
    ensures forall c :: c in order[..|order| - 1] ==> c in allocations
  {
    assert forall c :: c in order[..|order| - 1] ==> c in order;
  }

  /** The standing allocations listed by a list are those of its prefix, plus its last key's when that one stands. */
  lemma {:induction false} ListedOneMore(order: seq<CandidateId>, allocations: map<CandidateId, int>, standing: set<CandidateId>)
    requires Distinct(order) && |order| > 0
    requires forall c :: c in order ==> c in allocations
    ensures var init, last := order[..|order| - 1], order[|order| - 1];
      var before := Known(allocations, ToSet(init) * standing);
      && |Known(allocations, ToSet(order) * standing)| == |before| + (if last in standing then 1 else 0)
      && SumOf(Known(allocations, ToSet(order) * standing), Square) ==
           SumOf(before, Square) + (if last in standing then Square(allocations[last]) else 0)
  {
    var init, last := order[..|order| - 1], order[|order| - 1];
    var s := ToSet(init) * standing;
    assert last !in ToSet(init);
    if last in standing {
      assert ToSet(order) * standing == s + {last};
      KnownAdd(allocations, s, last);
      SumOfAdd(Known(allocations, s), Square, last, allocations[last]);
    } else {
      assert ToSet(order) * standing == s;
    }
  }

  /** One more key in the selection adds its allocation. */
  lemma {:induction false} KnownAdd(allocations: map<CandidateId, int>, s: set<CandidateId>, c: CandidateId)
    requires c in allocations && c !in s
    ensures Known(allocations, s + {c}) == Known(allocations, s)[c := allocations[c]]
  {
  }

  /** Selections that agree on the allocated keys select the same allocations. */
  lemma {:induction false} KnownSame(allocations: map<CandidateId, int>, s: set<CandidateId>, t: set<CandidateId>)
    requires allocations.Keys * s == allocations.Keys * t
    ensures Known(allocations, s) == Known(allocations, t)
  {
  }

  /** After every allocation is seen, the running figures are the ballot's contribution. */
  lemma {:induction false} AllSeen(totals: map<CandidateId, int>, allocations: map<CandidateId, int>, standing: set<CandidateId>,
    order: seq<CandidateId>, next: map<CandidateId, int>)
    requires standing == totals.Keys
    requires Distinct(order)
    requires forall c :: c in order ==> c in allocations
    requires forall c :: c in allocations ==> c in order
    requires next.Keys == totals.Keys
    requires forall d :: d in totals ==> next[d] == totals[d] + (if d in allocations then allocations[d] else 0)
    ensures next == AddVotes(totals, Known(allocations, standing))
    ensures CountStanding(order, standing) == |Known(allocations, standing)|
    ensures CostStanding(order, allocations, standing) == SumOf(Known(allocations, standing), Square)
  {
    AllVotesSeen(totals, allocations, standing, next);
    CountOfListed(order, allocations, standing);
    CostOfListed(order, allocations, standing);
    AllListed(order, allocations, standing);
  }

  lemma {:induction false} AllVotesSeen(totals: map<CandidateId, int>, allocations: map<CandidateId, int>, standing: set<CandidateId>, next: map<CandidateId, int>)
    requires standing == totals.Keys
    requires next.Keys == totals.Keys
    requires forall d :: d in totals ==> next[d] == totals[d] + (if d in allocations then allocations[d] else 0)
    ensures next == AddVotes(totals, Known(allocations, standing))
  {
  }

  lemma {:induction false} AllListed(order: seq<CandidateId>, allocations: map<CandidateId, int>, standing: set<CandidateId>)
    requires forall c :: c in order ==> c in allocations
    requires forall c :: c in allocations ==> c in order
    ensures Known(allocations, ToSet(order) * standing) == Known(allocations, standing)
  {
    assert allocations.Keys * (ToSet(order) * standing) == allocations.Keys * standing;
    KnownSame(allocations, ToSet(order) * standing, standing);
  }

  /** The running figures after counting the ballots `counted`. */
  ghost predicate Counts(
    keys: seq<CandidateId>, standing: set<CandidateId>, seen: seq<QuadraticBallot>,
    totals: map<CandidateId, int>, abstentions: int, counted: int, spent: int, available: int)
  {
    && totals == Tally(keys, seen)
    && abstentions == Abstentions(seen)
    && counted == Counted(seen, standing)
    && spent == CreditsSpent(seen, standing)
    && available == CreditsAvailable(seen)
  }

  /** Before any ballot, every total is zero and nothing is counted. */
  lemma {:induction false} NothingCounted(keys: seq<CandidateId>, standing: set<CandidateId>, ballots: seq<QuadraticBallot>, totals: map<CandidateId, int>)
    requires totals == map c | c in keys :: 0
    ensures Counts(keys, standing, ballots[..0], totals, 0, 0, 0, 0)
  {
    assert ballots[..0] == [];
  }

  /** After the last ballot, the running figures are those of all the ballots. */
  lemma {:induction false} AllCounted(
    keys: seq<CandidateId>, standing: set<CandidateId>, ballots: seq<QuadraticBallot>,
    totals: map<CandidateId, int>, abstentions: int, counted: int, spent: int, available: int)
    requires Counts(keys, standing, ballots[..|ballots|], totals, abstentions, counted, spent, available)
    ensures Counts(keys, standing, ballots, totals, abstentions, counted, spent, available)
  {
    assert ballots[..|ballots|] == ballots;
  }

  /** Counting a non-abstaining ballot adds its allocations, its count, its cost and its budget. */
  lemma {:induction false} CountBallot(
    keys: seq<CandidateId>, standing: set<CandidateId>, ballots: seq<QuadraticBallot>, i: nat,
    totals: map<CandidateId, int>, abstentions: int, counted: int, spent: int, available: int,
    next: map<CandidateId, int>, ballotCounted: int, knownCost: int)
    requires standing == ToSet(keys) && i < |ballots| && !IsQuadraticAbstention(ballots[i])
    requires Counts(keys, standing, ballots[..i], totals, abstentions, counted, spent, available)
    requires next == AddVotes(totals, Known(ballots[i].allocations, standing))
    requires ballotCounted == |Known(ballots[i].allocations, standing)|
    requires knownCost == SumOf(Known(ballots[i].allocations, standing), Square)
    ensures Counts(keys, standing, ballots[..i + 1], next, abstentions, counted + ballotCounted,
      spent + knownCost, available + ballots[i].creditBudget)
  {
    assert ballots[..i + 1][..i] == ballots[..i];
  }

  /** Counting an abstaining ballot adds one abstention and nothing else. */
  lemma {:induction false} CountAbstention(
    keys: seq<CandidateId>, standing: set<CandidateId>, ballots: seq<QuadraticBallot>, i: nat,
    totals: map<CandidateId, int>, abstentions: int, counted: int, spent: int, available: int)
    requires i < |ballots| && IsQuadraticAbstention(ballots[i])
    requires Counts(keys, standing, ballots[..i], totals, abstentions, counted, spent, available)
    ensures Counts(keys, standing, ballots[..i + 1], totals, abstentions + 1, counted, spent, available)
  {
    assert ballots[..i + 1][..i] == ballots[..i];
    assert Known(ballots[i].allocations, standing) == map[];
  }

  /**
   * One pass of the counting loop: an abstaining ballot adds one abstention;
   * any other adds its allocations to standing candidates, their number,
   * their cost and the ballot's budget.
   */
  method CountOne(
    keys: seq<CandidateId>, standing: set<CandidateId>, ballots: seq<QuadraticBallot>, i: nat,
    totals: map<CandidateId, int>, abstentions: int, counted: int, spent: int, available: int)
    returns (totals': map<CandidateId, int>, abstentions': int, counted': int, spent': int, available': int)
    requires standing == ToSet(keys) && i < |ballots|
    requires Counts(keys, standing, ballots[..i], totals, abstentions, counted, spent, available)
    ensures Counts(keys, standing, ballots[..i + 1], totals', abstentions', counted', spent', available')
  {
    var b := ballots[i];
    if IsQuadraticAbstention(b) {
      CountAbstention(keys, standing, ballots, i, totals, abstentions, counted, spent, available);
      totals', abstentions', counted', spent', available' := totals, abstentions + 1, counted, spent, available;
    } else {
      var next, ballotCounted, knownCost := CountAllocations(totals, b.allocations, standing);
      CountBallot(keys, standing, ballots, i, totals, abstentions, counted, spent, available, next, ballotCounted, knownCost);
      totals', abstentions', counted', spent', available' :=
        next, abstentions, counted + ballotCounted, spent + knownCost, available + b.creditBudget;
    }
  }

  /**
   * Adds every non-abstaining ballot's allocations to standing candidates,
   * with their cost and the ballot's budget; declares no winner when no
   * vote reached a standing candidate, and otherwise applies the winner
   * rule.
   */
  method ResolveQuadratic(candidates: seq<Candidate>, ballots: seq<QuadraticBallot>, tiebreak: Tiebreak)
    returns (result: QuadraticResult)
    requires PicksMember(tiebreak)
    ensures var keys, standing := Dedup(Ids(candidates)), ToSet(Ids(candidates));
      && result.voteTotals == Tally(keys, ballots)
      && result.base.voteCounts == result.voteTotals
      && result.base.totalBallots == |ballots|
      && result.base.abstentions == Abstentions(ballots)
      && result.totalCreditsSpent == CreditsSpent(ballots, standing)
      && result.totalCreditsAvailable == CreditsAvailable(ballots)
      && result.candidatesWithNegativeTotals == NegativeTotals(result.voteTotals)
      && (Counted(ballots, standing) == 0 ==> result.base.winners == [] && !result.base.tiebreakApplied)
      && (Counted(ballots, standing) > 0 ==>
            Decision(result.base.winners, result.base.tiebreakApplied) == DecideWinner(keys, result.voteTotals, tiebreak))
  {
    var keys := Dedup(Ids(candidates));
    var standing := ToSet(Ids(candidates));
    assert standing == ToSet(keys);
    var totals: map<CandidateId, int> := map c | c in keys :: 0;
    var abstentions, spent, available, counted := 0, 0, 0, 0;
    var i := 0;
    NothingCounted(keys, standing, ballots, totals);
    while i < |ballots|
      invariant 0 <= i <= |ballots|
      invariant Counts(keys, standing, ballots[..i], totals, abstentions, counted, spent, available)
    {
      totals, abstentions, counted, spent, available :=
        CountOne(keys, standing, ballots, i, totals, abstentions, counted, spent, available);
      i := i + 1;
    }
    AllCounted(keys, standing, ballots, totals, abstentions, counted, spent, available);
    var decision: Decision;
    if counted == 0 {
      decision := Decision([], false);
    } else {
      decision := DecideWinner(keys, totals, tiebreak);
    }
    result := QuadraticResult(
      ElectionResult(decision.winners, totals, |ballots|, abstentions, decision.tiebreakApplied),
      totals, spent, available, NegativeTotals(totals));
  }

  /**
   * When some vote reached a standing candidate there are standing
   * candidates, so a winner is declared.
   */
  lemma {:induction false} CountedMeansCandidates(ballots: seq<QuadraticBallot>, standing: set<CandidateId>)
    requires Counted(ballots, standing) > 0
    ensures standing != {}
  {
    var init, b := ballots[..|ballots| - 1], ballots[|ballots| - 1];
    if Counted(init, standing) > 0 {
      CountedMeansCandidates(init, standing);
    } else {
      var c :| c in Known(b.allocations, standing);
    }
  }

  /**
   * On ballots that passed validation (each within its budget), the credits
   * spent on standing candidates never exceed the credits available, so the
   * overall utilization is at most 1; and every counted allocation costs at
   * least one credit.
   */
  lemma {:induction false} SpentWithinAvailable(ballots: seq<QuadraticBallot>, standing: set<CandidateId>, allowNegative: bool)
    requires forall i :: 0 <= i < |ballots| ==>
      EntriesValid(ballots[i].allocations, allowNegative) && QuadraticTotalCost(ballots[i]) <= ballots[i].creditBudget
    ensures Counted(ballots, standing) <= CreditsSpent(ballots, standing) <= CreditsAvailable(ballots)
  {
    if |ballots| > 0 {
      var init, b := ballots[..|ballots| - 1], ballots[|ballots| - 1];
      assert forall i :: 0 <= i < |init| ==> init[i] == ballots[i];
      SpentWithinAvailable(init, standing, allowNegative);
      BallotSpentBounds(b, standing, allowNegative);
    }
  }

  /** One validated ballot: each counted allocation costs a credit, and the counted cost is within the budget it contributes. */
  lemma {:induction false} BallotSpentBounds(b: QuadraticBallot, standing: set<CandidateId>, allowNegative: bool)
    requires EntriesValid(b.allocations, allowNegative) && QuadraticTotalCost(b) <= b.creditBudget
    ensures |Known(b.allocations, standing)| <= SumOf(Known(b.allocations, standing), Square)
    ensures SumOf(Known(b.allocations, standing), Square) <= (if IsQuadraticAbstention(b) then 0 else b.creditBudget)
  {
    var known := Known(b.allocations, standing);
    KnownCostBounds(b.allocations, known, allowNegative);
    if IsQuadraticAbstention(b) {
      assert known == map[];
      SumOfBounds(known, Square, 0, 0);
    }
  }

  /** A part of a valid allocation map costs at least one credit per entry and no more than the whole. */
  lemma {:induction false} KnownCostBounds(allocations: map<CandidateId, int>, known: map<CandidateId, int>, allowNegative: bool)
    requires EntriesValid(allocations, allowNegative)
    requires forall c :: c in known ==> c in allocations && known[c] == allocations[c]
    ensures |known| <= SumOf(known, Square) <= SumOf(allocations, Square)
  {
    forall c | c in allocations
      ensures Square(allocations[c]) >= 1
    {
      SquarePositive(allocations[c]);
    }
    SumOfSubmap(known, allocations, Square);
    SumOfBounds(known, Square, 1, MaxWeight(known, Square));
  }

  lemma {:induction false} SquarePositive(v: int)
    requires v != 0
    ensures Square(v) >= 1
  {
    var cost := QuadraticCost(v);
  }
}
