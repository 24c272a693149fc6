/**
 * The ranked-choice ballot used by IRV, Borda and ranked pairs: an ordered
 * ranking (most preferred first) together with a rank lookup from candidate
 * to its 1-based rank. An empty ranking is an abstention.
 */
module RankedChoiceBallots {
  import opened Types
  import opened Seqs

  datatype RankedChoiceBallot = RankedChoiceBallot(
    voterId: VoterId,
    ranking: seq<CandidateId>,
    rankLookup: map<CandidateId, int>)

  /** The reasons `create_ranked_choice_ballot` rejects a ranking. */
  datatype RankingError =
    | DuplicateCandidates
    | WrongCandidates(missing: set<CandidateId>, extra: set<CandidateId>)
    | IncompleteRanking(missing: set<CandidateId>)
    | UnknownCandidates(extra: set<CandidateId>)

  /** Candidate to 1-based position in a ranking without repeats. */
  function RankLookup(ranking: seq<CandidateId>): (lookup: map<CandidateId, int>)
    requires Distinct(ranking)
    ensures lookup.Keys == ToSet(ranking)
    ensures forall i :: 0 <= i < |ranking| ==> lookup[ranking[i]] == i + 1
  {
    if |ranking| == 0 then map[]
    else
      var init, last := ranking[..|ranking| - 1], ranking[|ranking| - 1];
      assert forall i :: 0 <= i < |init| ==> init[i] == ranking[i] && init[i] != last;
      assert ToSet(ranking) == ToSet(init) + {last};
      RankLookup(init)[last := |ranking|]
  }

  /** The shape every constructed ballot has: no repeats, and the lookup agrees with the ranking. */
  ghost predicate WellFormed(b: RankedChoiceBallot)
  {
    Distinct(b.ranking) && b.rankLookup == RankLookup(b.ranking)
  }

  /**
   * No ranking gives an abstaining ballot. A ranking with a repeated
   * candidate is rejected; so, when a candidate list is supplied, is a
   * ranking whose set of candidates differs from it, classified by whether
   * candidates are missing, extra, or both.
   */
  function CreateRankedChoiceBallot(
    voterId: VoterId,
    ranking: Option<seq<CandidateId>>,
    candidates: Option<seq<CandidateId>>): (r: Result<RankedChoiceBallot, RankingError>)
    ensures ranking.None? ==> r == Ok(RankedChoiceBallot(voterId, [], map[]))
    ensures r.Ok? ==> WellFormed(r.value) && r.value.voterId == voterId
    ensures r.Ok? && ranking.Some? ==> r.value.ranking == ranking.value
    ensures r == Err(DuplicateCandidates) <==> ranking.Some? && !Distinct(ranking.value)
    ensures r.Ok? <==> (ranking.None? ||
      (Distinct(ranking.value) && (candidates.None? || ToSet(ranking.value) == ToSet(candidates.value))))
    ensures r.Err? && !r.error.DuplicateCandidates? ==>
      var missing := ToSet(candidates.value) - ToSet(ranking.value);
      var extra := ToSet(ranking.value) - ToSet(candidates.value);
      r.error == (if missing != {} && extra != {} then WrongCandidates(missing, extra)
                  else if missing != {} then IncompleteRanking(missing)
                  else UnknownCandidates(extra))
  {
    match ranking
    case None => Ok(RankedChoiceBallot(voterId, [], map[]))
    case Some(order) =>
      DistinctCardinality(order);
      if |order| != |ToSet(order)| then Err(DuplicateCandidates)
      else if candidates.Some? && ToSet(order) != ToSet(candidates.value) then
        var missing := ToSet(candidates.value) - ToSet(order);
        var extra := ToSet(order) - ToSet(candidates.value);
        if missing != {} && extra != {} then Err(WrongCandidates(missing, extra))
        else if missing != {} then Err(IncompleteRanking(missing))
        else Err(UnknownCandidates(extra))
      else Ok(RankedChoiceBallot(voterId, order, RankLookup(order)))
  }

  predicate IsAbstention(b: RankedChoiceBallot)
  {
    |b.ranking| == 0
  }

  /** The number of abstaining ballots in a list. */
  function Abstentions(ballots: seq<RankedChoiceBallot>): (n: nat)
    ensures n <= |ballots|
  {
    if |ballots| == 0 then 0
    else Abstentions(ballots[..|ballots| - 1]) + (if IsAbstention(ballots[|ballots| - 1]) then 1 else 0)
  }

  /** The 1-based rank of a candidate, or None when it is not ranked. */
  function GetRank(b: RankedChoiceBallot, c: CandidateId): (r: Option<int>)
    ensures r.None? <==> c !in b.rankLookup
    ensures WellFormed(b) ==> (r.None? <==> c !in b.ranking)
    ensures WellFormed(b) && r.Some? ==> 1 <= r.value <= |b.ranking| && b.ranking[r.value - 1] == c
  {
    if c in b.rankLookup then Some(b.rankLookup[c]) else None
  }

  /** The candidate at a 1-based rank, or None when the rank is out of range. */
  function GetChoiceAtRank(b: RankedChoiceBallot, rank: int): (r: Option<CandidateId>)
    ensures r.Some? <==> 1 <= rank <= |b.ranking|
    ensures r.Some? ==> r.value == b.ranking[rank - 1]
  {
    var index := rank - 1;
    if 0 <= index < |b.ranking| then Some(b.ranking[index]) else None
  }

  /** The most preferred candidate, None exactly for an abstention. */
  function GetFirstChoice(b: RankedChoiceBallot): (r: Option<CandidateId>)
    ensures r.None? <==> IsAbstention(b)
    ensures r.Some? ==> r.value == b.ranking[0] && (WellFormed(b) ==> GetRank(b, r.value) == Some(1))
  {
    GetChoiceAtRank(b, 1)
  }

  /** On a well-formed ballot, rank and choice-at-rank are inverse lookups. */
  lemma {:induction false} RankRoundTrip(b: RankedChoiceBallot, c: CandidateId, rank: int)
    requires WellFormed(b)
    ensures GetRank(b, c).Some? ==> GetChoiceAtRank(b, GetRank(b, c).value) == Some(c)
    ensures GetChoiceAtRank(b, rank).Some? ==> GetRank(b, GetChoiceAtRank(b, rank).value) == Some(rank)
  {
  }

  /** `x` is placed strictly before `y` in the ranking. */
  ghost predicate RankedAbove(ranking: seq<CandidateId>, x: CandidateId, y: CandidateId)
  {
    exists i, j :: 0 <= i < j < |ranking| && ranking[i] == x && ranking[j] == y
  }

  /**
   * Some(true) when `x` has the smaller rank, Some(false) when it does not,
   * None when either candidate is unranked.
   */
  function Prefers(b: RankedChoiceBallot, x: CandidateId, y: CandidateId): (r: Option<bool>)
    ensures r.None? <==> x !in b.rankLookup || y !in b.rankLookup
    ensures r == Some(true) ==> x != y
  {
    if x !in b.rankLookup || y !in b.rankLookup then None
    else Some(b.rankLookup[x] < b.rankLookup[y])
  }

  /** On a well-formed ballot the candidate at position `i` has rank `i + 1`. */
  lemma {:induction false} LookupAt(b: RankedChoiceBallot, i: int)
    requires WellFormed(b)
    requires 0 <= i < |b.ranking|
    ensures b.ranking[i] in b.rankLookup && b.rankLookup[b.ranking[i]] == i + 1
  {
    var lookup := RankLookup(b.ranking);
    assert lookup[b.ranking[i]] == i + 1;
  }

  /** On a well-formed ballot a looked-up rank points back at its candidate. */
  lemma {:induction false} LookupBack(b: RankedChoiceBallot, x: CandidateId)
    requires WellFormed(b)
    requires x in b.rankLookup
    ensures 1 <= b.rankLookup[x] <= |b.ranking| && b.ranking[b.rankLookup[x] - 1] == x
  {
    assert GetRank(b, x) == Some(b.rankLookup[x]);
  }

  /**
   * On a well-formed ballot the rank lookup agrees with the ranking order:
   * a preference is stated exactly when both candidates are ranked, and it
   * is true exactly when the first is ranked above the second.
   */
  lemma {:induction false} PrefersFollowsRanking(b: RankedChoiceBallot, x: CandidateId, y: CandidateId)
    requires WellFormed(b)
    ensures Prefers(b, x, y).None? <==> x !in b.ranking || y !in b.ranking
    ensures Prefers(b, x, y) == Some(true) <==> RankedAbove(b.ranking, x, y)
  {
    assert b.rankLookup.Keys == ToSet(b.ranking);
    if RankedAbove(b.ranking, x, y) {
      var i, j :| 0 <= i < j < |b.ranking| && b.ranking[i] == x && b.ranking[j] == y;
      LookupAt(b, i);
      LookupAt(b, j);
    }
    if Prefers(b, x, y) == Some(true) {
      LookupBack(b, x);
      LookupBack(b, y);
      RankedAboveAt(b.ranking, b.rankLookup[x] - 1, b.rankLookup[y] - 1);
    }
  }

  lemma {:induction false} RankedAboveAt(ranking: seq<CandidateId>, i: int, j: int)
    requires 0 <= i < j < |ranking|
    ensures RankedAbove(ranking, ranking[i], ranking[j])
  {
  }

  /**
   * Between two different ranked candidates exactly one direction of
   * preference holds, and no ranked candidate is preferred to itself.
   */
  lemma {:induction false} PrefersAntisymmetric(b: RankedChoiceBallot, x: CandidateId, y: CandidateId)
    requires WellFormed(b)
    ensures x != y && Prefers(b, x, y).Some? ==> Prefers(b, y, x) == Some(!Prefers(b, x, y).value)
    ensures x == y && x in b.ranking ==> Prefers(b, x, y) == Some(false)
  {
    assert b.rankLookup.Keys == ToSet(b.ranking);
    if x != y && Prefers(b, x, y).Some? {
      LookupBack(b, x);
      LookupBack(b, y);
    }
  }
}
