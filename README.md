# Verified model of the `voting` library

This project models the core of the Python `voting` package in Dafny and proves properties of the model:

- **The five ballot types:** single choice, approval, ranked choice, score and quadratic. For each it models the constructor, its validation errors and its query helpers.
- **The seven tallying methods:**
  - plurality, approval, score, Borda and quadratic voting;
  - instant-runoff voting (IRV);
  - Condorcet with Ranked Pairs completion.

A tally turns the declared candidates and a list of ballots into an election result:
- the winners;
- integer per-candidate counts;
- the number of ballots and abstentions;
- whether the tie-break decided the outcome;
- method-specific diagnostics.

Two sources of randomness in the library become inputs:
- **The tie-break** (`Types.Tiebreak`) is a function parameter. Its only assumption is `PicksMember`: it returns a member of any non-empty list it is given.
- **The shuffle before Ranked Pairs sorts its victories** (`RankedPairs.Shuffle`) is a function parameter. Its only assumption is `Shuffles`: it returns a permutation of its argument.

The Python dictionaries and sets become Dafny `map`s and `set`s. Where the library iterates over them, the model walks the declared candidate order.

The modules follow the source files:

| module | source |
|---|---|
| `Types` | `voting/types.py` |
| `SingleChoiceBallots`, `ApprovalBallots`, `RankedChoiceBallots`, `ScoreBallots`, `QuadraticBallots` | `voting/ballots/*.py` |
| `Plurality`, `ApprovalTally`, `ScoreTally`, `Borda`, `QuadraticTally`, `Irv` | `voting/methods/*.py` |
| `RankedPairsMatrix`, `RankedPairsGraph`, `RankedPairs` | `voting/methods/ranked_pairs.py` |

Three modules hold shared helpers:
- `Seqs`: sequences, distinctness and sums over the keys of a map.
- `MapSums`: sums over the values of a map.
- `WinnerRule`: the "unique maximum wins, otherwise ask the tie-break" rule that five of the methods repeat.

The tallies keep the source's imperative form. Each counting loop is a method with loop invariants. It is proved equal to a recursive specification function over the prefix of ballots counted so far, and the lemmas state what that function means.

Where the written specification of the library and its code disagree, the model follows the code:
- **Approval ballots from a list:** the code collapses duplicate entries into one approval instead of rejecting them.
- **Ballots that name undeclared candidates:** plurality, approval, score, Borda and quadratic voting ignore these instead of rejecting the batch. IRV fails with a `KeyError` only once such an id becomes a ballot's active choice (the first of its ranked candidates not yet eliminated); the model keeps that as an error result, and a ballot whose undeclared ids are never reached counts normally.
- **Borda points:** they are based on the number of declared candidates, not the number of candidates on the ballot.
- **Undeclared ids on a Borda ballot:** they earn nothing but still use up their position.
- **The IRV log:** it records a final recount round after the last elimination. A single candidate with no continuing ballots therefore produces two rounds.

## Model

| member | source | states |
|---|---|---|
| Types.Ids | voting/methods/score.py:60 | the candidate ids, one per candidate, in declared order |
| WinnerRule.MaxCount | voting/methods/plurality.py:52 | the highest count among the declared candidates: attained by one of them, and 0 when there are none |
| WinnerRule.Tied | voting/methods/plurality.py:55-59 | exactly the declared candidates holding the highest count, without repeats, and not empty when candidates exist |
| WinnerRule.DecideWinner | voting/methods/plurality.py:61-73 | no winner exactly when there are no candidates; otherwise one winner, whose count is at least every declared candidate's; the tie-break flag is set exactly when two or more candidates share the top; without the flag the winner is strictly ahead of everyone else; with the flag, the winner is the tie-break's pick from the tied candidates |
| WinnerRule.TopTieIffSeveral | voting/methods/plurality.py:62-73 | the top is tied exactly when the tied list has two or more members |
| WinnerRule.StrictLeaderWins | voting/methods/plurality.py:66-69 | a candidate strictly ahead of all others wins without the tie-break |
| SingleChoiceBallots.IsAbstention | voting/ballots/single_choice.py:30-32 | a single-choice ballot abstains exactly when it names no candidate |
| SingleChoiceBallots.CreateSingleChoiceBallot | voting/ballots/single_choice.py:22-32 | keeps the voter and the choice unchanged and checks no candidate list; the ballot abstains exactly when no choice was given |
| ApprovalBallots.IsAbstention | voting/ballots/approval.py:44-46 | an approval ballot abstains exactly when it approves nobody; ApprovalCount is then 0 |
| ApprovalBallots.CreateApprovalBallot | voting/ballots/approval.py:23-41 | no input gives the empty set; a list gives the set of its entries; a set is kept as given |
| ApprovalBallots.ApprovalCount | voting/ballots/approval.py:44-51 | the count is 0 exactly when the ballot abstains, and at least 1 when anything is approved |
| ApprovalBallots.ListApprovalCount | voting/ballots/approval.py:36-37 | a list's approval count is at most its length, equals it exactly when the list has no repeats, and is 0 exactly when the list is empty |
| RankedChoiceBallots.IsAbstention | voting/ballots/ranked_choice.py:99-101 | a ranked ballot abstains exactly when it ranks nobody; GetFirstChoice is then None |
| RankedChoiceBallots.RankLookup | voting/ballots/ranked_choice.py:89-90 | the rank map's keys are exactly the ranked candidates, and the candidate at index i has rank i + 1 |
| RankedChoiceBallots.CreateRankedChoiceBallot | voting/ballots/ranked_choice.py:60-96 | no ranking gives an empty abstention; a repeated candidate is rejected as a duplicate; with a candidate list, the ranking must name exactly its candidates, else the error is "wrong", "incomplete" or "unknown" by which of the missing and extra sets are non-empty; a built ballot keeps the ranking and has a rank map that agrees with it |
| RankedChoiceBallots.GetRank | voting/ballots/ranked_choice.py:104-111 | None exactly for an unranked candidate; otherwise a rank between 1 and the ranking's length, at which the ranking holds that candidate |
| RankedChoiceBallots.GetChoiceAtRank | voting/ballots/ranked_choice.py:114-128 | a candidate exactly for ranks 1 to the ranking's length: the one at that position |
| RankedChoiceBallots.GetFirstChoice | voting/ballots/ranked_choice.py:131-133 | None exactly for an abstention, otherwise the first-ranked candidate, whose rank is 1 |
| RankedChoiceBallots.RankRoundTrip | voting/ballots/ranked_choice.py:104-128 | rank-then-choice and choice-then-rank both return what they started from |
| RankedChoiceBallots.Prefers | voting/ballots/ranked_choice.py:136-155 | None exactly when either candidate is unranked; never prefers a candidate to itself |
| RankedChoiceBallots.LookupAt | voting/ballots/ranked_choice.py:89-90 | on a built ballot, the candidate at index i has rank i + 1 |
| RankedChoiceBallots.LookupBack | voting/ballots/ranked_choice.py:89-90 | on a built ballot, every rank in the map points back to the same candidate in the ranking |
| RankedChoiceBallots.PrefersFollowsRanking | voting/ballots/ranked_choice.py:149-155 | a preference exists exactly for two ranked candidates, and it is true exactly when the first is ranked above the second |
| RankedChoiceBallots.PrefersAntisymmetric | voting/ballots/ranked_choice.py:149-155 | for two distinct ranked candidates exactly one is preferred to the other; a candidate is not preferred to itself |
| ScoreBallots.IsAbstention | voting/ballots/score.py:73-75 | a score ballot abstains exactly when it scores nobody; CandidatesScored is then 0 |
| ScoreBallots.TotalPointsGiven | voting/ballots/score.py:90-92 | the sum of every score on the ballot; TotalPointsBounds bounds it |
| ScoreBallots.CreateScoreBallot | voting/ballots/score.py:40-70 | no scores give an empty abstention; fails exactly when validating and some score is outside 0 to 10; otherwise keeps the scores as given, which are in range when validated |
| ScoreBallots.GetScore | voting/ballots/score.py:78-82 | the stored score, or 0 for an unscored candidate; within 0 to 10 on a ballot in range |
| ScoreBallots.CandidatesScored | voting/ballots/score.py:73-87 | 0 exactly when the ballot abstains |
| ScoreBallots.TotalPointsBounds | voting/ballots/score.py:85-92 | on a ballot in range, the total lies between 0 and 10 per scored candidate, and is at least any single score |
| ScoreBallots.MaxScoreOnBallot | voting/ballots/score.py:95-99 | None exactly for an abstention, otherwise a score on the ballot that no other score exceeds |
| ScoreBallots.MinScoreOnBallot | voting/ballots/score.py:102-106 | None exactly for an abstention, otherwise a score on the ballot that no other score undercuts |
| ScoreBallots.ScoreExtremesOrdered | voting/ballots/score.py:95-106 | on a non-abstaining ballot in range, 0 <= lowest <= highest <= 10 |
| QuadraticBallots.IsQuadraticAbstention | voting/ballots/quadratic.py:99-101 | a quadratic ballot abstains exactly when it allocates nothing; CandidatesVotedFor is then 0 |
| QuadraticBallots.QuadraticCost | voting/ballots/quadratic.py:104-106 | the cost is non-negative, 0 exactly for no votes, and at least the number of votes in either direction |
| QuadraticBallots.CostIgnoresSign | voting/ballots/quadratic.py:104-106 | opposing costs as much as supporting with the same number of votes |
| QuadraticBallots.CreateQuadraticBallot | voting/ballots/quadratic.py:66-96 | no allocations give an empty abstention that keeps the budget; when validating, a zero entry (or a negative one when negatives are disallowed) is rejected first, then a total cost above the budget; cost equal to the budget is accepted; otherwise the allocations are kept as given and a validated ballot is within budget |
| QuadraticBallots.QuadraticTotalCost | voting/ballots/quadratic.py:109-111 | non-negative, and 0 for an abstention |
| QuadraticBallots.CreditsRemaining | voting/ballots/quadratic.py:114-116 | never more than the budget; non-negative when the ballot is within budget; equal to the budget exactly when nothing was spent |
| QuadraticBallots.GetVotes | voting/ballots/quadratic.py:119-121 | the allocation, or 0 for an unallocated candidate |
| QuadraticBallots.CandidatesVotedFor | voting/ballots/quadratic.py:124-126 | 0 exactly when the ballot abstains |
| QuadraticBallots.TotalCostBounds | voting/ballots/quadratic.py:109-126 | with valid entries, the total cost is at least the number of candidates voted for, and at least any one candidate's cost |
| QuadraticBallots.MaxVotesForBudget | voting/ballots/quadratic.py:136-138 | fails exactly for a negative budget (as the integer square root does); otherwise r with r*r <= budget < (r+1)*(r+1) |
| QuadraticBallots.Isqrt | voting/ballots/quadratic.py:136-138 | the integer square root: r*r <= n < (r+1)*(r+1) |
| QuadraticBallots.ValidatedVotesWithinBudget | voting/ballots/quadratic.py:88-92 | on a validated ballot, every allocation lies between minus and plus the largest number of votes the budget can buy |
| Plurality.VotesFor | voting/methods/plurality.py:43-49 | the number of ballots choosing a candidate, at most the number of ballots |
| Plurality.Abstentions | voting/methods/plurality.py:42-45 | the number of ballots without a choice, at most the number of ballots |
| Plurality.Ignored | voting/methods/plurality.py:46-49 | the number of ballots choosing an undeclared candidate, at most the number of ballots |
| Plurality.Tally | voting/methods/plurality.py:39-49 | keyed by exactly the declared candidates |
| Plurality.TallyCountsVotes | voting/methods/plurality.py:39-49 | each declared candidate's count is the number of ballots choosing it |
| Plurality.CountStep | voting/methods/plurality.py:43-49 | one more ballot adds one to the chosen declared candidate, adds nothing for an unknown choice, and adds one abstention for an empty one |
| Plurality.CountBallot | voting/methods/plurality.py:44-49 | counting ballot i in place moves the counts and abstentions from those of the first i ballots to those of the first i + 1 |
| Plurality.CountVotes | voting/methods/plurality.py:39-49 | the loop's counts and abstentions are those of all the ballots |
| Plurality.ResolvePlurality | voting/methods/plurality.py:22-81 | counts every declared candidate's votes, reports all ballots and the abstentions, and applies the winner rule to the counts |
| Plurality.PluralityConservation | voting/methods/plurality.py:43-49 | the counts, the abstentions and the ballots for unknown candidates add up to the number of ballots |
| Plurality.PluralityMajorityWins | voting/methods/plurality.py:52-69 | a candidate chosen by more than half of the non-abstaining ballots wins without the tie-break |
| ApprovalTally.Abstentions | voting/methods/approval.py:58-60 | the number of ballots approving nobody, at most the number of ballots |
| ApprovalTally.ApprovalsFor | voting/methods/approval.py:62-65 | the number of ballots approving a candidate; with the abstentions, at most the number of ballots |
| ApprovalTally.Tally | voting/methods/approval.py:51-65 | keyed by exactly the declared candidates |
| ApprovalTally.AddOnes | voting/methods/approval.py:64-65 | adds one to exactly the approved candidates and keeps the keys |
| ApprovalTally.CountApprovals | voting/methods/approval.py:64-65 | the inner loop adds one for each approved declared candidate |
| ApprovalTally.TallyCountsApprovals | voting/methods/approval.py:51-65 | each declared candidate's count is the number of ballots approving it |
| ApprovalTally.CountStep | voting/methods/approval.py:58-65 | one more ballot adds one to each of its approved declared candidates and adds their number to the total approvals, or counts one abstention |
| ApprovalTally.CountBallot | voting/methods/approval.py:58-65 | counting ballot i moves the counts, abstentions and total approvals to those of the first i + 1 ballots |
| ApprovalTally.CountAll | voting/methods/approval.py:50-65 | the loop's counts, abstentions and total approvals are those of all the ballots |
| ApprovalTally.ResolveApproval | voting/methods/approval.py:34-110 | counts approvals of declared candidates, reports all ballots, the abstentions, the non-abstaining ballots and the total approvals, and applies the winner rule |
| ApprovalTally.ApprovalTotals | voting/methods/approval.py:62-69 | the total approvals equal the sum of the counts, and are at most one per candidate per non-abstaining ballot |
| ApprovalTally.ApprovalSum | voting/methods/approval.py:62-65 | the sum of the counts equals the total approvals |
| ApprovalTally.TallyAtMostVoting | voting/methods/approval.py:58-69 | no candidate's count exceeds the number of non-abstaining ballots |
| ScoreTally.Abstentions | voting/methods/score.py:66-70 | the number of ballots scoring nobody, at most the number of ballots |
| ScoreTally.AddScores | voting/methods/score.py:73-74 | adding one ballot's scores keeps the keys |
| ScoreTally.Tally | voting/methods/score.py:62-74 | keyed by exactly the declared candidates |
| ScoreTally.AddScoresOnce | voting/methods/score.py:73-74 | one ballot adds its score to each listed candidate once and leaves the rest alone |
| ScoreTally.AddBallotScores | voting/methods/score.py:73-74 | the inner loop adds the ballot's score for every candidate id |
| ScoreTally.CountStep | voting/methods/score.py:66-74 | an abstaining ballot changes no total; any other ballot adds its scores |
| ScoreTally.CountBallot | voting/methods/score.py:67-74 | counting ballot i moves the totals and abstentions to those of the first i + 1 ballots |
| ScoreTally.CountScores | voting/methods/score.py:62-74 | the loop's totals and abstentions are those of all the ballots |
| ScoreTally.ResolveScore | voting/methods/score.py:41-124 | reports the score totals (also as vote counts), all ballots, the abstentions and a maximum possible score of 10 per non-abstaining ballot, and applies the winner rule |
| ScoreTally.TotalsAreScoreSums | voting/methods/score.py:63-74 | with distinct ids, a candidate's total is the sum of its scores over the ballots |
| ScoreTally.ScoreSumWithinMaximum | voting/methods/score.py:73-78 | with validated ballots, a candidate's sum lies between 0 and the maximum possible score |
| ScoreTally.ScoreForRemove | voting/methods/score.py:66-74 | taking one ballot out takes exactly its score out of a candidate's sum |
| ScoreTally.ScoreForReordered | voting/methods/score.py:66-74 | a candidate's sum does not depend on the order of the ballots |
| ScoreTally.TotalsIgnoreOrder | voting/methods/score.py:66-74 | reordering the ballots leaves every total unchanged |
| Borda.AddPositions | voting/methods/borda.py:72-75 | awarding one ballot's positional points keeps the keys |
| Borda.Tally | voting/methods/borda.py:61-75 | keyed by exactly the declared candidates |
| Borda.AwardPositions | voting/methods/borda.py:72-75 | the inner loop awards the ballot's positional points |
| Borda.CountStep | voting/methods/borda.py:65-75 | an abstaining ballot adds no points and one abstention; any other ballot adds its positional points |
| Borda.CountBallot | voting/methods/borda.py:65-75 | counting ballot i moves the totals and abstentions to those of the first i + 1 ballots |
| Borda.CountPoints | voting/methods/borda.py:61-75 | the loop's totals and abstentions are those of all the ballots |
| Borda.ResolveBorda | voting/methods/borda.py:38-113 | n - 1 points at most per ballot (0 without candidates), the point totals also reported as vote counts, all ballots and the abstentions, and the winner rule applied |
| Borda.PointsFollowRank | voting/methods/borda.py:72-75 | a declared candidate ranked r-th gains max + 1 - r points; an unranked one gains nothing |
| Borda.SumAfterPositions | voting/methods/borda.py:72-75 | a ballot raises the sum of the totals by exactly the points it hands out to declared candidates |
| Borda.PointsGivenComplete | voting/methods/borda.py:72-75 | a ranking of L declared candidates hands out L * max - L * (L - 1) / 2 points |
| Borda.CompleteBallotPoints | voting/methods/borda.py:72-75 | a complete ballot over n candidates hands out n * (n - 1) / 2 points |
| Borda.BordaTotalPoints | voting/methods/borda.py:72-75 | when every non-abstaining ballot is complete, the totals add up to n * (n - 1) / 2 per non-abstaining ballot |
| Borda.CompleteBallotBounds | voting/methods/borda.py:72-75 | a complete ballot gives each candidate between 0 and n - 1 points |
| Borda.BordaTotalBounds | voting/methods/borda.py:72-75 | when every non-abstaining ballot is complete, each total lies between 0 and n - 1 per non-abstaining ballot |
| QuadraticTally.NetVotes | voting/methods/quadratic.py:83-85 | a candidate's signed votes summed over the ballots; Tally holds it for every declared candidate |
| QuadraticTally.Counted | voting/methods/quadratic.py:83-86 | the allocations to declared candidates over the ballots; SpentWithinAvailable bounds it by the credits spent |
| QuadraticTally.CreditsSpent | voting/methods/quadratic.py:82-90 | the credits spent on declared candidates, summed over the ballots; SpentWithinAvailable bounds it |
| QuadraticTally.CreditsAvailable | voting/methods/quadratic.py:91 | the budgets of the non-abstaining ballots, added up |
| QuadraticTally.Known | voting/methods/quadratic.py:83-84 | the allocations restricted to declared candidates |
| QuadraticTally.AddVotes | voting/methods/quadratic.py:84-85 | adds each candidate's signed votes and keeps the keys |
| QuadraticTally.Tally | voting/methods/quadratic.py:64-86 | keyed by the declared candidates, each holding its net signed votes over all ballots |
| QuadraticTally.NegativeTotals | voting/methods/quadratic.py:108-111 | the number of negative totals, at most the number of candidates |
| QuadraticTally.CountAllocations | voting/methods/quadratic.py:82-87 | the inner loop adds the declared candidates' votes and counts their allocations and their cost |
| QuadraticTally.CountAbstention | voting/methods/quadratic.py:76-79 | an abstaining ballot adds one abstention and nothing else |
| QuadraticTally.CountBallot | voting/methods/quadratic.py:81-91 | any other ballot adds its known votes, its known allocations, its known cost and its budget |
| QuadraticTally.CountOne | voting/methods/quadratic.py:76-91 | counting ballot i carries every running total from the first i ballots to the first i + 1 |
| QuadraticTally.ResolveQuadratic | voting/methods/quadratic.py:45-146 | reports the net totals (also as vote counts), all ballots, the abstentions, the credits spent on declared candidates, the credits available and the number of negative totals; no winner and no tie-break without a counted allocation, otherwise the winner rule |
| QuadraticTally.CountedMeansCandidates | voting/methods/quadratic.py:113-129 | a counted allocation implies a declared candidate, so the winner rule then always finds one |
| QuadraticTally.SpentWithinAvailable | voting/methods/quadratic.py:87-91 | with validated ballots, counted allocations <= credits spent <= credits available |
| QuadraticTally.BallotSpentBounds | voting/methods/quadratic.py:82-91 | one validated ballot spends at least one credit per known allocation and at most its budget, and nothing if it abstains |
| QuadraticTally.KnownCostBounds | voting/methods/quadratic.py:82-87 | the known part of valid allocations costs at least one per entry and no more than the whole |
| Irv.ActiveBallots | voting/methods/irv.py:91-92 | exactly the non-abstaining ballots; with the abstentions they make up all the ballots |
| Irv.ActiveChoice | voting/methods/irv.py:58-71 | None exactly when every ranked candidate is eliminated, otherwise a ranked candidate not eliminated |
| Irv.ActiveChoiceIsFirst | voting/methods/irv.py:68-71 | the choice is the first ranked candidate not eliminated |
| Irv.GetActiveChoice | voting/methods/irv.py:58-71 | the scanning loop returns that first non-eliminated choice |
| Irv.Supporters | voting/methods/irv.py:111-117 | the number of ballots whose active choice is a candidate, at most the number of ballots |
| Irv.Exhausted | voting/methods/irv.py:111-114 | the number of ballots without an active choice, at most the number of ballots |
| Irv.CountVotes | voting/methods/irv.py:107-117 | keyed by the remaining candidates; continuing and exhausted ballots add up to the active ballots |
| Irv.CountsAreSupporters | voting/methods/irv.py:107-117 | each remaining candidate's count is the number of ballots whose first non-eliminated choice it is; exhausted ballots are those with none |
| Irv.CountFailsIffStray | voting/methods/irv.py:111-117 | counting fails exactly when some ballot's active choice is neither eliminated nor remaining |
| Irv.FailureStays | voting/methods/irv.py:111-117 | once counting has failed on a prefix, later ballots do not change the error |
| Irv.CountsAddUp | voting/methods/irv.py:107-117 | the counts add up to the continuing ballots |
| Irv.CountOneMore | voting/methods/irv.py:111-117 | one more ballot is exhausted, adds one to its choice, or fails on an unknown choice |
| Irv.CountRound | voting/methods/irv.py:107-117 | the counting loop computes that round count |
| Irv.MajorityOf | voting/methods/irv.py:120-126 | finds a candidate exactly when one has more than half of the continuing ballots |
| Irv.FindMajority | voting/methods/irv.py:122-126 | the search loop finds that candidate |
| Irv.MajorityUnique | voting/methods/irv.py:120-126 | at most one candidate can hold a majority, so the order searched does not matter |
| Irv.MinCount | voting/methods/irv.py:164 | the fewest votes among the remaining candidates |
| Irv.Without | voting/methods/irv.py:177 | all remaining candidates but the survivor |
| Irv.ChooseElimination | voting/methods/irv.py:164-185 | eliminates only candidates on the fewest votes and always leaves a survivor; with two or more remaining it eliminates someone; the tie-break is used exactly when all remaining candidates are tied, and then everyone but its pick goes; otherwise all candidates at the minimum go; the single-pick fallback is never reached |
| Irv.AllTiedIff | voting/methods/irv.py:173 | the tied-at-minimum list is as long as the remaining set exactly when all are tied |
| Irv.EliminationShrinks | voting/methods/irv.py:197-200 | an elimination leaves a non-empty remaining set, strictly smaller when two or more remained |
| Irv.Eliminate | voting/methods/irv.py:197-200 | the loop moves the eliminated candidates from the remaining set to the eliminated set |
| Irv.PartitionKept | voting/methods/irv.py:197-200 | eliminated and remaining stay disjoint and together make up all candidates |
| Irv.FinalRound | voting/methods/irv.py:202-238 | the last remaining candidate wins in the next round number, with all ballots and abstentions reported |
| Irv.AfterElimination | voting/methods/irv.py:187-238 | the elimination round is logged and its candidates leave the remaining set |
| Irv.EliminationStep | voting/methods/irv.py:164-238 | a round that continues leaves two or more candidates, strictly fewer than before, and eliminates exactly those it removes |
| Irv.Play | voting/methods/irv.py:103-238 | one round either ends the count or continues with strictly fewer candidates |
| Irv.EliminationRound | voting/methods/irv.py:164-200 | the imperative elimination code computes that step |
| Irv.PlayRound | voting/methods/irv.py:103-238 | the imperative round code computes one round of the count |
| Irv.Run | voting/methods/irv.py:103-251 | the rounds from a state until the count ends; RunSettled and IrvOutcome state what its results mean |
| Irv.RunStep | voting/methods/irv.py:103-238 | the whole count is one round followed by the count from its outcome |
| Irv.PlayRounds | voting/methods/irv.py:103-251 | the round loop computes the whole count from all candidates and an empty log; it ends because the remaining set shrinks |
| Irv.ResolveIrv | voting/methods/irv.py:74-251 | removes abstentions, then runs the round loop over all declared candidates |
| Irv.EliminationRoundSound | voting/methods/irv.py:164-195 | a logged elimination round accounts for every active ballot, eliminates only counted candidates on the fewest votes, and had no majority; a tie-break round leaves one candidate |
| Irv.MajorityWinSettled | voting/methods/irv.py:128-148 | a majority ends the count with that candidate in a logged winning round, its counts reported, and no tie-break |
| Irv.NoCandidateSettled | voting/methods/irv.py:151-162 | with nobody remaining the count ends with no winner and winning round 0 |
| Irv.FinalResultSettled | voting/methods/irv.py:229-238 | the final recount reports the survivor, its round and the tie-break flag of the round before |
| Irv.FinalSettled | voting/methods/irv.py:202-238 | the final recount yields a settled result |
| Irv.AfterEliminationSettled | voting/methods/irv.py:187-238 | after an elimination, the count either ends settled or continues with one more sound round, not decided by the tie-break |
| Irv.EliminationSettled | voting/methods/irv.py:164-238 | the same for the whole elimination branch |
| Irv.PlaySettled | voting/methods/irv.py:103-238 | the same for any round |
| Irv.SettledFromNext | voting/methods/irv.py:103-238 | a result settled after one more sound round is settled from before it |
| Irv.RunSettled | voting/methods/irv.py:103-238 | the count's log extends the given one with sound, consecutively numbered rounds; the winner is a remaining candidate with a majority in the last round (or no continuing ballots); the tie-break flag is set exactly when a logged round used it |
| Irv.RunCarries | voting/methods/irv.py:139-143 | the reported totals are the ballots and abstentions passed in |
| Irv.PlayCarries | voting/methods/irv.py:139-143 | the same for a single round |
| Irv.SettledFromStart | voting/methods/irv.py:95-104 | settled from the start means: at most one winner, none exactly without candidates, a declared winner in the last round, at most one round per candidate plus the final one, rounds numbered from 1, and the flag exactly when a round used the tie-break |
| Irv.IrvOutcome | voting/methods/irv.py:74-251 | a successful IRV result reports the election as a whole in that sense, with all ballots and the abstentions |
| RankedPairsMatrix.Row | voting/methods/ranked_pairs.py:78 | pairs a candidate with each later candidate, in order |
| RankedPairsMatrix.Pairs | voting/methods/ranked_pairs.py:77-78 | pairs of declared candidates, never a candidate with itself |
| RankedPairsMatrix.PairsOnce | voting/methods/ranked_pairs.py:77-78 | each unordered pair of declared candidates is visited exactly once |
| RankedPairsMatrix.ZeroMatrix | voting/methods/ranked_pairs.py:66-69 | zero for every ordered pair of distinct candidates, with no diagonal entries |
| RankedPairsMatrix.CountPairEffect | voting/methods/ranked_pairs.py:79-83 | visiting a pair adds one to the side the ballot ranks higher and nothing else |
| RankedPairsMatrix.CountPairsEffect | voting/methods/ranked_pairs.py:77-83 | a ballot adds, for each visit of the pair, one to the entry of the preferred candidate |
| RankedPairsMatrix.Tally | voting/methods/ranked_pairs.py:63-86 | keyed by the ordered pairs of distinct declared candidates |
| RankedPairsMatrix.CountBallot | voting/methods/ranked_pairs.py:77-83 | the pair loop counts one ballot |
| RankedPairsMatrix.BuildPairwiseMatrix | voting/methods/ranked_pairs.py:54-86 | the in-place loops compute the matrix |
| RankedPairsMatrix.MatrixCounts | voting/methods/ranked_pairs.py:63-86 | entry (a, b) is the number of ballots ranking both a and b, with a above b |
| RankedPairsMatrix.MatrixPairTotal | voting/methods/ranked_pairs.py:72-83 | with complete ballots, entries (a, b) and (b, a) add up to the non-abstaining ballots |
| RankedPairsMatrix.PreferringSplit | voting/methods/ranked_pairs.py:72-83 | with complete ballots, every non-abstaining ballot prefers exactly one of two candidates |
| RankedPairs.Margin | voting/methods/ranked_pairs.py:89-91 | the margin of a over b, positive when a beats b; MarginCounts shows it is the difference of the voters preferring each side and the negation of b's margin over a |
| RankedPairs.MarginCounts | voting/methods/ranked_pairs.py:89-91 | the margin of a over b is the voters preferring a minus those preferring b, and is the negation of b's margin over a |
| RankedPairs.BeatsAll | voting/methods/ranked_pairs.py:103-110 | true exactly when the candidate has a positive margin over every other candidate |
| RankedPairs.FirstBeatingAll | voting/methods/ranked_pairs.py:103-113 | finds a candidate beating all others exactly when one exists |
| RankedPairs.CondorcetWinner | voting/methods/ranked_pairs.py:94-113 | the Condorcet winner when there is one, and it is the only candidate beating all others |
| RankedPairs.BeatsEveryone | voting/methods/ranked_pairs.py:104-111 | the inner loop decides whether a candidate beats all others |
| RankedPairs.FindCondorcetWinner | voting/methods/ranked_pairs.py:94-113 | the search loop finds the Condorcet winner |
| RankedPairs.Victories | voting/methods/ranked_pairs.py:125-136 | at most one victory per visited pair |
| RankedPairs.VictoriesSound | voting/methods/ranked_pairs.py:127-136 | every victory has a positive margin, the winner's margin over the loser, and the winner's votes, for a visited pair |
| RankedPairs.VictoriesOccurrences | voting/methods/ranked_pairs.py:127-134 | a pair yields a victory for each visit when its margin is non-zero, none when it is zero |
| RankedPairs.OneVictoryPerPair | voting/methods/ranked_pairs.py:127-136 | exactly one victory per pair of declared candidates with a non-zero margin |
| RankedPairs.CollectVictories | voting/methods/ranked_pairs.py:116-136 | the collecting loop computes the victories |
| RankedPairs.Slot | voting/methods/ranked_pairs.py:149-152 | the insertion point: after every victory at least as strong, before the first weaker one |
| RankedPairs.Insert | voting/methods/ranked_pairs.py:149-152 | inserting adds exactly the one victory |
| RankedPairs.SortByStrength | voting/methods/ranked_pairs.py:149-152 | the sorted victories are a permutation of the input |
| RankedPairs.InsertSorted | voting/methods/ranked_pairs.py:149-152 | inserting into a sorted list keeps it sorted |
| RankedPairs.SortByStrengthSorted | voting/methods/ranked_pairs.py:149-152 | the result is ordered by margin, then by winning votes, both descending |
| RankedPairs.FindSlot | voting/methods/ranked_pairs.py:149-152 | the scanning loop finds the insertion point |
| RankedPairs.SortVictories | voting/methods/ranked_pairs.py:139-154 | shuffles, then sorts by insertion |
| RankedPairs.SortVictoriesSpec | voting/methods/ranked_pairs.py:139-154 | the sorted victories are a permutation of the input, ordered by margin, then by winning votes |
| RankedPairs.EmptyGraph | voting/methods/ranked_pairs.py:201 | one node per declared candidate, with no edges |
| RankedPairs.EmptyGraphAcyclic | voting/methods/ranked_pairs.py:201 | the starting graph has no cycle |
| RankedPairs.LockNext | voting/methods/ranked_pairs.py:206-211 | locking or skipping a victory keeps the graph's nodes |
| RankedPairs.LockAll | voting/methods/ranked_pairs.py:201-211 | locking all sorted victories keeps the graph's nodes |
| RankedPairs.LockOne | voting/methods/ranked_pairs.py:206-211 | one victory is locked as an edge, or skipped when the loser already reaches the winner |
| RankedPairs.LockVictories | voting/methods/ranked_pairs.py:201-211 | the locking loop processes the sorted victories in order |
| RankedPairs.LockAcyclic | voting/methods/ranked_pairs.py:206-211 | the locked graph stays acyclic |
| RankedPairs.LockPartition | voting/methods/ranked_pairs.py:206-211 | every sorted victory ends up in exactly one of locked and skipped |
| RankedPairs.LockJustified | voting/methods/ranked_pairs.py:206-211 | every locked victory is an edge of the graph; every skipped one would have closed a cycle |
| RankedPairs.Completion | voting/methods/ranked_pairs.py:139-211 | the victories shuffled, sorted by strength and locked in that order; LockAcyclic, LockPartition and LockJustified state what it yields |
| RankedPairs.PickWinner | voting/methods/ranked_pairs.py:220-227 | a winner exactly when there is a source, and it is one of the sources |
| RankedPairs.SortedWinnersHaveRows | voting/methods/ranked_pairs.py:197-201 | every sorted victory's winner has a node in the graph |
| RankedPairs.ApplyRankedPairs | voting/methods/ranked_pairs.py:187-227 | returns the locked and skipped victories, the sources of the locked graph and the winner picked from them |
| RankedPairs.CompletionWinner | voting/methods/ranked_pairs.py:213-227 | the locked graph is acyclic and has a source, so a winner is always found and the "no source" branch is unreachable |
| RankedPairs.Wins | voting/methods/ranked_pairs.py:293 | a candidate beats at most as many opponents as are listed |
| RankedPairs.WinsAll | voting/methods/ranked_pairs.py:293 | a candidate with a positive margin over every other opponent beats all of them |
| RankedPairs.WinsMissing | voting/methods/ranked_pairs.py:293 | a candidate that fails to beat some other opponent beats fewer than all of them |
| RankedPairs.WinsAtMost | voting/methods/ranked_pairs.py:293 | no candidate beats itself, so it beats at most all other opponents |
| RankedPairs.CountWins | voting/methods/ranked_pairs.py:289-294 | each candidate's count is the number of opponents it beats pairwise |
| RankedPairs.CondorcetWins | voting/methods/ranked_pairs.py:289-294 | the Condorcet winner beats all n - 1 opponents, and everyone else beats fewer |
| RankedPairs.Voting | voting/methods/ranked_pairs.py:269 | the number of non-abstaining ballots, counted one ballot at a time; with the abstentions they make up every ballot |
| RankedPairs.WinCounts | voting/methods/ranked_pairs.py:312-315 | keyed by the declared candidates |
| RankedPairs.TiebreakAppliedAsWritten | voting/methods/ranked_pairs.py:317-322 | the flag as the library computes it: set when no winner was found or some victory was skipped |
| RankedPairs.TiebreakApplied | voting/methods/ranked_pairs.py:220-227 | the corrected flag: set when the tie-break chose among several sources (or no source existed) or some victory was skipped |
| RankedPairs.ContestedOutcome | voting/methods/ranked_pairs.py:279-334 | the result for two or more candidates: the Condorcet winner, or the completion's winner with the corrected tie-break flag; CondorcetWinnerWins, CompletionOutcome and ContestedWinner state its properties |
| RankedPairs.Outcome | voting/methods/ranked_pairs.py:250-334 | the whole method's result case by case; OutcomeWinner states its properties |
| RankedPairs.ResolveContested | voting/methods/ranked_pairs.py:279-334 | the code for two or more candidates computes the outcome |
| RankedPairs.ResolveRankedPairs | voting/methods/ranked_pairs.py:230-334 | the whole method computes the outcome, including the cases with no candidates and with one |
| RankedPairs.CondorcetWinnerWins | voting/methods/ranked_pairs.py:286-306 | a candidate preferred to every other by more voters wins alone, with no tie-break, no locked or skipped victories, and the most pairwise wins |
| RankedPairs.CompletionOutcome | voting/methods/ranked_pairs.py:308-334 | without a Condorcet winner, the single winner is a source of the acyclic locked graph (the tie-break's pick if there are several); the tie-break flag is set exactly when several sources were tied or a victory was skipped |
| RankedPairs.ContestedWinner | voting/methods/ranked_pairs.py:279-334 | with two or more candidates, exactly one declared winner, counts for every declared candidate, and all ballots and abstentions reported |
| RankedPairs.OutcomeWinner | voting/methods/ranked_pairs.py:250-334 | no winner exactly without candidates, otherwise a single declared winner, with all ballots and abstentions reported |
| RankedPairs.TwoCandidatesOnePair | voting/methods/ranked_pairs.py:77-78 | two candidates give the single pair (a, b) |
| RankedPairs.NoBallotsTie | voting/methods/ranked_pairs.py:63-91 | with no ballots two candidates are tied head to head |
| RankedPairs.SourcesWithoutIncoming | voting/methods/ranked_pairs.py:213-218 | with no edges, every candidate is a source, in declared order |
| RankedPairs.TieNoVictory | voting/methods/ranked_pairs.py:127-134 | two candidates tied head to head give no Condorcet winner and no victory |
| RankedPairs.NoVictoryLocksNothing | voting/methods/ranked_pairs.py:206-211 | with no victories, nothing is locked or skipped and the graph stays empty |
| RankedPairs.TiebreakFlagAsWrittenMissesTie | voting/methods/ranked_pairs.py:317-322 | two candidates and no ballots: the tie-break picks between two sources, yet the flag as written stays false; the corrected flag is true |
| RankedPairsGraph.PushAll | voting/methods/ranked_pairs.py:181-182 | pushes every candidate the current one beats |
| RankedPairsGraph.SearchStep | voting/methods/ranked_pairs.py:172-182 | one step of the search either reaches the target or keeps the search invariant while making progress |
| RankedPairsGraph.SearchExhausted | voting/methods/ranked_pairs.py:172-184 | an emptied stack means the target is unreachable |
| RankedPairsGraph.WouldCreateCycle | voting/methods/ranked_pairs.py:157-184 | true exactly when the loser already reaches the winner |
| RankedPairsGraph.AddEdge | voting/methods/ranked_pairs.py:210 | adding an edge keeps the graph's nodes |
| RankedPairsGraph.NoTwoWayReach | voting/methods/ranked_pairs.py:206-211 | in an acyclic graph, two distinct candidates never reach each other both ways |
| RankedPairsGraph.AddEdgeReach | voting/methods/ranked_pairs.py:206-211 | after adding an edge, a new path must go through that edge |
| RankedPairsGraph.AddEdgeAcyclic | voting/methods/ranked_pairs.py:206-211 | adding an edge whose loser does not reach its winner keeps the graph acyclic |
| RankedPairsGraph.MinimalExists | voting/methods/ranked_pairs.py:213-218 | every non-empty set of nodes in an acyclic graph has a member no other member reaches |
| RankedPairsGraph.Incoming | voting/methods/ranked_pairs.py:214-216 | the candidates with an incoming edge; Sources are the declared candidates outside it |
| RankedPairsGraph.CollectIncoming | voting/methods/ranked_pairs.py:214-216 | the loop collects every node with an incoming edge |
| RankedPairsGraph.Sources | voting/methods/ranked_pairs.py:218 | exactly the declared candidates without an incoming edge |
| RankedPairsGraph.SourceExists | voting/methods/ranked_pairs.py:218-224 | a non-empty acyclic graph has a source |

## Left out

- Floating-point metrics are not modelled:
  - approval's average approvals and approval rates;
  - score averages and percentages;
  - the Borda average;
  - the quadratic utilisations and `credit_utilization`.
- Message text of the exceptions is not modelled. Each error is a constructor of an error datatype.
- The `isinstance(..., int)` checks in the score and quadratic constructors are not modelled. Every value is a Dafny `int`, so the checks cannot fail.
- The random tie-break and the random shuffle are parameters with only the properties described above. `random_tiebreak` itself (voting/types.py) is not part of this model.
- Dictionary and set iteration order is replaced by the declared candidate order:
  - the order of the tied list handed to the tie-break;
  - for IRV, also the order of the remaining candidates.
  With a unique majority (proved) or a unique maximum, this order does not change the result.
- The package `__init__` files and the tests are not part of this model.
- RankedPairs.ResolveRankedPairs: the model requires distinct candidate ids. The library raises a `KeyError` once a ballot ranks a duplicated id, and with only abstaining ballots it would report per-copy counts that the model does not describe.
- RankedPairs.ResolveContested: the reuse of a precomputed `pairwise_matrix` is modelled by passing the matrix in. The model does not check that the caller's matrix matches the ballots, and a given empty matrix is not treated as absent.
- RankedPairs.ResolveRankedPairs: with one candidate the library reports the matrix `{c: {}}`. The model reports the empty matrix, which holds the same (no) pairs.
- RankedPairs.ResolveContested: the reported `tiebreakApplied` is the corrected flag of the Findings row (`TiebreakApplied`), not the flag computed at voting/methods/ranked_pairs.py:317-322; they differ when the tie-break picks among several sources with no victory skipped.
- RankedPairs.ContestedOutcome: reports the same corrected flag.
- RankedPairs.ResolveRankedPairs: with two or more candidates and no Condorcet winner it reports the same corrected flag.
- QuadraticBallots.CreateQuadraticBallot, QuadraticBallots.QuadraticTotalCost, QuadraticBallots.CreditsRemaining and ScoreBallots.TotalPointsGiven are ghost functions. They sum over a map's values by picking keys one at a time, which Dafny cannot compile.
- QuadraticTally.ResolveQuadratic: the spent credits are stated through the ghost `CreditsSpent`.
- Irv.ResolveIrv: a `KeyError` for a ballot whose active choice is not a declared candidate becomes the error `UnknownCandidate`. Which unknown id is reported follows the ballot order.

## Findings

| source | as written | input that shows it | evidently intended | confidence | as-written member | corrected member |
|---|---|---|---|---|---|---|
| voting/methods/ranked_pairs.py:317-322 | `tiebreak_applied = winner is None or len(skipped) > 0` ignores that `_apply_ranked_pairs` (lines 225-227) calls the tie-break when several candidates are sources | two candidates and no ballots (or the ballots [A, B] and [B, A]): no Condorcet winner, no victory, both candidates are sources, the tie-break picks the winner, yet `tiebreak_applied` is false | the flag is set whenever the tie-break chose the winner: several sources, or a skipped victory | not executed | RankedPairs.TiebreakFlagAsWrittenMissesTie | RankedPairs.CompletionOutcome, RankedPairs.ContestedOutcome, RankedPairs.ResolveContested, RankedPairs.ResolveRankedPairs |
