/**
 * Instant-runoff voting. Round by round, every non-abstaining ballot counts
 * for its most preferred candidate not yet eliminated, or is exhausted. A
 * candidate backed by more than half of the round's continuing ballots
 * wins. Otherwise the candidates on the fewest votes are all eliminated,
 * unless that would eliminate every remaining candidate, in which case the
 * tie-break picks the one survivor. When one candidate remains, a final
 * round is counted and that candidate wins.
 */
module Irv {
  import opened Types
  import opened Seqs
  import opened WinnerRule
  import opened RankedChoiceBallots

  /** One logged round of counting. */
  datatype IrvRound = IrvRound(
    roundNumber: nat,
    voteCounts: map<CandidateId, int>,
    exhaustedBallots: nat,
    activeBallots: nat,
    eliminated: seq<CandidateId>,
    eliminationWasTiebreak: bool)

  /** The IRV result: the common envelope, the round log, the exhausted ballots of the last round and its number. */
  datatype IrvResult = IrvResult(
    base: ElectionResult,
    rounds: seq<IrvRound>,
    totalExhausted: nat,
    winningRound: nat)

  /**
   * A ballot whose highest continuing choice is not a candidate makes the
   * count fail on the missing key.
   */
  datatype IrvError = UnknownCandidate(id: CandidateId)

  /** The non-abstaining ballots, in order; together with the abstentions they are all the ballots. */
  function ActiveBallots(ballots: seq<RankedChoiceBallot>): (active: seq<RankedChoiceBallot>)
    ensures |active| + Abstentions(ballots) == |ballots|
    ensures forall b :: b in active <==> b in ballots && !IsAbstention(b)
  {
    if |ballots| == 0 then []
    else
      var init, b := ballots[..|ballots| - 1], ballots[|ballots| - 1];
      assert forall x :: x in ballots <==> x in init || x == b;
      if IsAbstention(b) then ActiveBallots(init) else ActiveBallots(init) + [b]
  }

  /**
   * The voter's most preferred candidate not yet eliminated: None exactly
   * when every ranked candidate is eliminated; otherwise a ranked candidate
   * not eliminated.
   */
  function ActiveChoice(ranking: seq<CandidateId>, eliminated: set<CandidateId>): (choice: Option<CandidateId>)
    ensures choice.None? <==> forall c :: c in ranking ==> c in eliminated
    ensures choice.Some? ==> choice.value in ranking && choice.value !in eliminated
  {
    if |ranking| == 0 then None
    else if ranking[0] !in eliminated then Some(ranking[0])
    else
      assert forall c :: c in ranking <==> c == ranking[0] || c in ranking[1..];
      ActiveChoice(ranking[1..], eliminated)
  }

  /** The active choice is the first ranked candidate not eliminated: every candidate ranked above it is eliminated. */
  lemma {:induction false} ActiveChoiceIsFirst(ranking: seq<CandidateId>, eliminated: set<CandidateId>)
    ensures var choice := ActiveChoice(ranking, eliminated);
      choice.Some? ==> exists i :: (0 <= i < |ranking| && ranking[i] == choice.value
        && forall j :: 0 <= j < i ==> ranking[j] in eliminated)
  {
    if |ranking| > 0 && ranking[0] in eliminated {
      var rest := ActiveChoice(ranking[1..], eliminated);
      ActiveChoiceIsFirst(ranking[1..], eliminated);
      if rest.Some? {
        var k :| 0 <= k < |ranking[1..]| && ranking[1..][k] == rest.value
          && forall j :: 0 <= j < k ==> ranking[1..][j] in eliminated;
        assert ranking[k + 1] == rest.value;
        forall j | 0 <= j < k + 1
          ensures ranking[j] in eliminated
        {
          if j > 0 {
            assert ranking[j] == ranking[1..][j - 1];
          }
        }
      }
    } else if |ranking| > 0 {
      assert ranking[0] == ActiveChoice(ranking, eliminated).value;
    }
  }

  /** The scan of a ballot's ranking that stops at the first candidate not eliminated. */
  method GetActiveChoice(b: RankedChoiceBallot, eliminated: set<CandidateId>) returns (choice: Option<CandidateId>)
    ensures choice == ActiveChoice(b.ranking, eliminated)
  {
    var i := 0;
    assert b.ranking[0..] == b.ranking;
    while i < |b.ranking|
      invariant 0 <= i <= |b.ranking|
      invariant ActiveChoice(b.ranking[i..], eliminated) == ActiveChoice(b.ranking, eliminated)
    {
      if b.ranking[i] !in eliminated {
        return Some(b.ranking[i]);
      }
      assert b.ranking[i..][1..] == b.ranking[i + 1..];
      i := i + 1;
    }
    return None;
  }

  /** The ballot's continuing choice exists but is not among the remaining candidates. */
  predicate Stray(b: RankedChoiceBallot, eliminated: set<CandidateId>, remaining: set<CandidateId>)
  {
    var choice := ActiveChoice(b.ranking, eliminated);
    choice.Some? && choice.value !in remaining
  }

  /** The number of ballots whose continuing choice is `c`. */
  function Supporters(ballots: seq<RankedChoiceBallot>, eliminated: set<CandidateId>, c: CandidateId): (n: nat)
    ensures n <= |ballots|
  {
    if |ballots| == 0 then 0
    else
      Supporters(ballots[..|ballots| - 1], eliminated, c)
        + (if ActiveChoice(ballots[|ballots| - 1].ranking, eliminated) == Some(c) then 1 else 0)
  }

  /** The number of ballots with no continuing choice. */
  function Exhausted(ballots: seq<RankedChoiceBallot>, eliminated: set<CandidateId>): (n: nat)
    ensures n <= |ballots|
  {
    if |ballots| == 0 then 0
    else
      Exhausted(ballots[..|ballots| - 1], eliminated)
        + (if ActiveChoice(ballots[|ballots| - 1].ranking, eliminated).None? then 1 else 0)
  }

  /** The figures of one round: the count per remaining candidate, the exhausted and the continuing ballots. */
  datatype RoundCount = RoundCount(voteCounts: map<CandidateId, int>, exhausted: nat, active: nat)

  /**
   * One round's count over the ballots, in order. It fails on the first
   * stray ballot; otherwise every remaining candidate's count is its number
   * of supporters, and every ballot is either continuing or exhausted.
   */
  function CountVotes(remaining: set<CandidateId>, eliminated: set<CandidateId>, ballots: seq<RankedChoiceBallot>)
    : (r: Result<RoundCount, IrvError>)
    ensures r.Ok? ==> r.value.voteCounts.Keys == remaining
    ensures r.Ok? ==> r.value.active + r.value.exhausted == |ballots|
  {
    if |ballots| == 0 then Ok(RoundCount(map c | c in remaining :: 0, 0, 0))
    else
      var init, b := ballots[..|ballots| - 1], ballots[|ballots| - 1];
      match CountVotes(remaining, eliminated, init)
      case Err(e) => Err(e)
      case Ok(count) =>
        match ActiveChoice(b.ranking, eliminated)
        case None => Ok(RoundCount(count.voteCounts, count.exhausted + 1, count.active))
        case Some(c) =>
          if c in remaining then
            Ok(RoundCount(count.voteCounts[c := count.voteCounts[c] + 1], count.exhausted, count.active + 1))
          else Err(UnknownCandidate(c))
  }

  /**
   * A successful count gives every remaining candidate its number of
   * supporters and reports the exhausted ballots.
   */
  lemma {:induction false} CountsAreSupporters(
    remaining: set<CandidateId>, eliminated: set<CandidateId>, ballots: seq<RankedChoiceBallot>, count: RoundCount)
    requires CountVotes(remaining, eliminated, ballots) == Ok(count)
    ensures forall c :: c in remaining ==> count.voteCounts[c] == Supporters(ballots, eliminated, c)
    ensures count.exhausted == Exhausted(ballots, eliminated)
  {
    if |ballots| > 0 {
      var init := ballots[..|ballots| - 1];
      var r := CountVotes(remaining, eliminated, init);
      assert r.Ok?;
      CountsAreSupporters(remaining, eliminated, init, r.value);
    }
  }

  /** A round's count fails exactly when some ballot is stray. */
  lemma {:induction false} CountFailsIffStray(remaining: set<CandidateId>, eliminated: set<CandidateId>, ballots: seq<RankedChoiceBallot>)
    ensures CountVotes(remaining, eliminated, ballots).Err? <==> exists b :: b in ballots && Stray(b, eliminated, remaining)
  {
    if |ballots| > 0 {
      var init, b := ballots[..|ballots| - 1], ballots[|ballots| - 1];
      CountFailsIffStray(remaining, eliminated, init);
      assert forall x :: x in ballots <==> x in init || x == b;
      if Stray(b, eliminated, remaining) {
        assert b in ballots;
      }
    }
  }

  /** Once a prefix of the ballots fails, the whole count fails with the same error. */
  lemma {:induction false} FailureStays(remaining: set<CandidateId>, eliminated: set<CandidateId>, ballots: seq<RankedChoiceBallot>, k: nat)
    requires k <= |ballots|
    requires CountVotes(remaining, eliminated, ballots[..k]).Err?
    ensures CountVotes(remaining, eliminated, ballots) == CountVotes(remaining, eliminated, ballots[..k])
  {
    if k == |ballots| {
      assert ballots[..k] == ballots;
    } else {
      var init := ballots[..|ballots| - 1];
      assert init[..k] == ballots[..k];
      FailureStays(remaining, eliminated, init, k);
    }
  }

  /**
   * The counts of a round add up to its continuing ballots, summed over any
   * listing of the remaining candidates without repeats.
   */
  lemma {:induction false} CountsAddUp(
    remaining: set<CandidateId>, eliminated: set<CandidateId>, ballots: seq<RankedChoiceBallot>,
    count: RoundCount, order: seq<CandidateId>)
    requires CountVotes(remaining, eliminated, ballots) == Ok(count)
    requires Distinct(order) && forall c :: c in order <==> c in remaining
    ensures SumOver(order, count.voteCounts) == count.active
  {
    if |ballots| == 0 {
      SumOverZero(order, count.voteCounts);
    } else {
      var init, b := ballots[..|ballots| - 1], ballots[|ballots| - 1];
      var r := CountVotes(remaining, eliminated, init);
      assert r.Ok?;
      CountsAddUp(remaining, eliminated, init, r.value, order);
      var choice := ActiveChoice(b.ranking, eliminated);
      if choice.Some? {
        SumOverPointUpdate(order, r.value.voteCounts, choice.value, 1);
      }
    }
  }

  /** The counting loop of one round, stopping at the first stray ballot. */
  method CountRound(remaining: set<CandidateId>, eliminated: set<CandidateId>, ballots: seq<RankedChoiceBallot>)
    returns (r: Result<RoundCount, IrvError>)
    ensures r == CountVotes(remaining, eliminated, ballots)
  {
    var voteCounts := map c | c in remaining :: 0;
    var exhausted, active := 0, 0;
    var i := 0;
    while i < |ballots|
      invariant 0 <= i <= |ballots|
      invariant CountVotes(remaining, eliminated, ballots[..i]) == Ok(RoundCount(voteCounts, exhausted, active))
    {
      CountOneMore(remaining, eliminated, ballots, i, voteCounts, exhausted, active);
      var choice := GetActiveChoice(ballots[i], eliminated);
      if choice.None? {
        exhausted := exhausted + 1;
      } else if choice.value in remaining {
        voteCounts := voteCounts[choice.value := voteCounts[choice.value] + 1];
        active := active + 1;
      } else {
        FailureStays(remaining, eliminated, ballots, i + 1);
        return Err(UnknownCandidate(choice.value));
      }
      i := i + 1;
    }
    assert ballots[..|ballots|] == ballots;
    return Ok(RoundCount(voteCounts, exhausted, active));
  }

  /** Counting one more ballot after a successful prefix. */
  lemma {:induction false} CountOneMore(
    remaining: set<CandidateId>, eliminated: set<CandidateId>, ballots: seq<RankedChoiceBallot>, i: nat,
    voteCounts: map<CandidateId, int>, exhausted: nat, active: nat)
    requires i < |ballots|
    requires CountVotes(remaining, eliminated, ballots[..i]) == Ok(RoundCount(voteCounts, exhausted, active))
    ensures var choice := ActiveChoice(ballots[i].ranking, eliminated);
      && (choice.None? ==>
            CountVotes(remaining, eliminated, ballots[..i + 1]) == Ok(RoundCount(voteCounts, exhausted + 1, active)))
      && (choice.Some? && choice.value in remaining ==>
            CountVotes(remaining, eliminated, ballots[..i + 1])
              == Ok(RoundCount(voteCounts[choice.value := voteCounts[choice.value] + 1], exhausted, active + 1)))
      && (choice.Some? && choice.value !in remaining ==>
            CountVotes(remaining, eliminated, ballots[..i + 1]) == Err(UnknownCandidate(choice.value)))
  {
    assert ballots[..i + 1][..i] == ballots[..i];
  }

  /** The first listed candidate backed by more than half of the continuing ballots. */
  function MajorityOf(order: seq<CandidateId>, counts: map<CandidateId, int>, active: int): (w: Option<CandidateId>)
    ensures w.None? <==> forall c :: c in order ==> 2 * Get(counts, c) <= active
    ensures w.Some? ==> w.value in order && 2 * Get(counts, w.value) > active
  {
    if |order| == 0 then None
    else if 2 * Get(counts, order[0]) > active then Some(order[0])
    else
      assert forall c :: c in order <==> c == order[0] || c in order[1..];
      MajorityOf(order[1..], counts, active)
  }

  /** The scan for a majority, stopping at the first candidate that has one. */
  method FindMajority(order: seq<CandidateId>, counts: map<CandidateId, int>, active: int) returns (w: Option<CandidateId>)
    ensures w == MajorityOf(order, counts, active)
  {
    var i := 0;
    assert order[0..] == order;
    while i < |order|
      invariant 0 <= i <= |order|
      invariant MajorityOf(order[i..], counts, active) == MajorityOf(order, counts, active)
    {
      if 2 * Get(counts, order[i]) > active {
        return Some(order[i]);
      }
      assert order[i..][1..] == order[i + 1..];
      i := i + 1;
    }
    return None;
  }

  /**
   * Counts that are not negative and add up to the continuing ballots give
   * a majority to at most one candidate, so the order of the scan does not
   * matter.
   */
  lemma {:induction false} MajorityUnique(order: seq<CandidateId>, counts: map<CandidateId, int>, active: int, a: CandidateId, b: CandidateId)
    requires Distinct(order)
    requires forall c :: c in order ==> Get(counts, c) >= 0
    requires SumOver(order, counts) == active
    requires a in order && b in order
    requires 2 * Get(counts, a) > active && 2 * Get(counts, b) > active
    ensures a == b
  {
    SumOverAtLeast(order, counts, a, b);
  }

  /** The fewest votes among the listed candidates (0 when none is listed). */
  function MinCount(order: seq<CandidateId>, counts: map<CandidateId, int>): (m: int)
    ensures forall c :: c in order ==> m <= Get(counts, c)
    ensures |order| > 0 ==> exists c :: c in order && Get(counts, c) == m
  {
    if |order| <= 1 then (if |order| == 0 then 0 else Get(counts, order[0]))
    else
      var init := order[..|order| - 1];
      var rest := MinCount(init, counts);
      assert forall c :: c in order <==> c in init || c == order[|order| - 1];
      var last := Get(counts, order[|order| - 1]);
      if last < rest then last else rest
  }

  /** The listed candidates other than `w`, in order. */
  function Without(order: seq<CandidateId>, w: CandidateId): (r: seq<CandidateId>)
    ensures forall c :: c in r <==> c in order && c != w
    ensures Distinct(order) ==> Distinct(r)
  {
    if |order| == 0 then []
    else
      var init, last := order[..|order| - 1], order[|order| - 1];
      assert forall c :: c in order <==> c in init || c == last;
      assert Distinct(order) ==> last !in init;
      if last == w then Without(init, w) else Without(init, w) + [last]
  }

  /** Who a round eliminates, and whether the tie-break chose. */
  datatype Elimination = Elimination(toEliminate: seq<CandidateId>, wasTiebreak: bool)

  /**
   * The elimination of a round without a majority. Every eliminated
   * candidate is remaining and has no more votes than any remaining
   * candidate, and at least one remaining candidate survives. When every
   * remaining candidate is tied at the fewest votes, the tie-break's pick
   * survives and all the others are eliminated; otherwise exactly the
   * candidates on the fewest votes are eliminated. The fallback of
   * eliminating only the tie-break's pick among the fewest is never reached.
   */
  function ChooseElimination(order: seq<CandidateId>, counts: map<CandidateId, int>, tiebreak: Tiebreak): (e: Elimination)
    requires Distinct(order) && |order| > 0
    requires PicksMember(tiebreak)
    ensures Distinct(e.toEliminate)
    ensures forall c :: c in e.toEliminate ==> c in order
    ensures exists s :: s in order && s !in e.toEliminate
    ensures |order| >= 2 ==> |e.toEliminate| > 0
    ensures forall c, d :: c in e.toEliminate && d in order ==> Get(counts, c) <= Get(counts, d)
    ensures e.wasTiebreak <==> forall c :: c in order ==> Get(counts, c) == MinCount(order, counts)
    ensures e.wasTiebreak ==> forall c :: c in e.toEliminate <==> c in order && c != tiebreak(order)
    ensures !e.wasTiebreak ==> forall c :: c in e.toEliminate <==> c in order && Get(counts, c) == MinCount(order, counts)
  {
    var fewest := MinCount(order, counts);
    var atMin := AtCount(order, counts, fewest);
    AllTiedIff(order, atMin, counts, fewest);
    if |atMin| >= |order| then
      var survivor := tiebreak(order);
      assert survivor in order;
      var others := Without(order, survivor);
      assert |order| >= 2 ==> |others| > 0 by {
        if |order| >= 2 {
          var other := if order[0] == survivor then order[1] else order[0];
          assert other in others;
        }
      }
      Elimination(others, true)
    else
      assert |order| - |atMin| >= 1;
      var s :| s in order && Get(counts, s) != fewest;
      assert s !in atMin;
      var c :| c in order && Get(counts, c) == fewest;
      assert c in atMin;
      Elimination(atMin, false)
  }

  /** The candidates at the fewest votes are all the listed ones exactly when there are as many of them. */
  lemma {:induction false} AllTiedIff(order: seq<CandidateId>, atMin: seq<CandidateId>, counts: map<CandidateId, int>, fewest: int)
    requires Distinct(order) && Distinct(atMin)
    requires forall c :: c in atMin <==> c in order && Get(counts, c) == fewest
    ensures |atMin| >= |order| <==> forall c :: c in order ==> Get(counts, c) == fewest
  {
    DistinctCardinality(order);
    DistinctCardinality(atMin);
    if forall c :: c in order ==> Get(counts, c) == fewest {
      assert ToSet(atMin) == ToSet(order);
    } else {
      var s :| s in order && Get(counts, s) != fewest;
      assert ToSet(atMin) <= ToSet(order) - {s};
      SubsetCardinality(ToSet(atMin), ToSet(order) - {s});
    }
  }

  /** The figures carried from round to round. */
  datatype IrvState = IrvState(eliminated: set<CandidateId>, remaining: set<CandidateId>, rounds: seq<IrvRound>)

  /** Removing a listing's candidates, when one of them survives, leaves a smaller set only when two or more remained. */
  lemma {:induction false} EliminationShrinks(order: seq<CandidateId>, remaining: set<CandidateId>, toEliminate: seq<CandidateId>)
    requires Distinct(order) && |order| == |remaining| && forall c :: c in order <==> c in remaining
    requires forall c :: c in toEliminate ==> c in order
    requires exists s :: s in order && s !in toEliminate
    requires |order| >= 2 ==> |toEliminate| > 0
    ensures ToSet(toEliminate) <= remaining
    ensures remaining - ToSet(toEliminate) != {}
    ensures |order| >= 2 ==> |remaining - ToSet(toEliminate)| < |remaining|
    ensures |order| == 1 ==> remaining - ToSet(toEliminate) == remaining
  {
    var s :| s in order && s !in toEliminate;
    assert s in remaining - ToSet(toEliminate);
    if |order| >= 2 {
      var c := toEliminate[0];
      assert remaining - ToSet(toEliminate) <= remaining - {c};
      SubsetCardinality(remaining - ToSet(toEliminate), remaining - {c});
    }
    assert |order| == 1 ==> forall c :: c in toEliminate ==> c == s;
  }

  /** The declared-order listing of the remaining candidates has one entry per remaining candidate. */
  lemma {:induction false} ListingOfRemaining(keys: seq<CandidateId>, remaining: set<CandidateId>)
    requires Distinct(keys) && remaining <= ToSet(keys)
    ensures |InOrder(keys, remaining)| == |remaining|
  {
    InOrderLength(keys, remaining);
    assert ToSet(keys) * remaining == remaining;
  }

  /** What one round leads to: the end of the count, or the state of the next round. */
  datatype Step = Done(result: Result<IrvResult, IrvError>) | Next(state: IrvState)

  /**
   * The final round, once one candidate remains: that candidate wins on a
   * fresh count, which is logged.
   */
  function FinalRound(
    keys: seq<CandidateId>, active: seq<RankedChoiceBallot>, eliminated: set<CandidateId>, remaining: set<CandidateId>,
    rounds: seq<IrvRound>, total: nat, abstentions: nat, tiebreakApplied: bool): (r: Result<IrvResult, IrvError>)
    requires Distinct(keys) && remaining <= ToSet(keys) && |remaining| == 1
    ensures r.Ok? ==> r.value.base.winners == InOrder(keys, remaining) && r.value.winningRound == |rounds| + 1
    ensures r.Ok? ==> r.value.base.totalBallots == total && r.value.base.abstentions == abstentions
  {
    ListingOfRemaining(keys, remaining);
    var winner := InOrder(keys, remaining)[0];
    match CountVotes(remaining, eliminated, active)
    case Err(e) => Err(e)
    case Ok(last) =>
      var round := IrvRound(|rounds| + 1, last.voteCounts, last.exhausted, last.active, [], false);
      Ok(IrvResult(
        ElectionResult([winner], last.voteCounts, total, abstentions, tiebreakApplied),
        rounds + [round], last.exhausted, |rounds| + 1))
  }

  /**
   * What follows a logged elimination round: its candidates are moved from
   * the remaining set to the eliminated set; with one candidate left the
   * final round follows, otherwise the next round.
   */
  function AfterElimination(
    keys: seq<CandidateId>, active: seq<RankedChoiceBallot>, st: IrvState, elim: IrvRound,
    total: nat, abstentions: nat): (s: Step)
    requires Distinct(keys) && st.remaining <= ToSet(keys)
    ensures s.Next? ==> s.state.rounds == st.rounds + [elim] && s.state.remaining == st.remaining - ToSet(elim.eliminated)
    ensures s.Done? && s.result.Ok? ==> s.result.value.base.totalBallots == total && s.result.value.base.abstentions == abstentions
  {
    var rounds := st.rounds + [elim];
    var eliminated := st.eliminated + ToSet(elim.eliminated);
    var remaining := st.remaining - ToSet(elim.eliminated);
    if |remaining| == 1 then Done(FinalRound(keys, active, eliminated, remaining, rounds, total, abstentions, elim.eliminationWasTiebreak))
    else Next(IrvState(eliminated, remaining, rounds))
  }

  /** A round without a majority: the elimination is chosen and logged, and what follows it is played. */
  function EliminationStep(
    keys: seq<CandidateId>, active: seq<RankedChoiceBallot>, st: IrvState, count: RoundCount,
    total: nat, abstentions: nat, tiebreak: Tiebreak): (s: Step)
    requires Distinct(keys) && st.remaining <= ToSet(keys) && st.remaining != {}
    requires PicksMember(tiebreak)
    ensures s.Next? ==> s.state.remaining <= ToSet(keys) && 2 <= |s.state.remaining| < |st.remaining|
    ensures s.Next? ==> s.state.remaining < st.remaining && s.state.eliminated == st.eliminated + (st.remaining - s.state.remaining)
    ensures s.Done? && s.result.Ok? ==> s.result.value.base.totalBallots == total && s.result.value.base.abstentions == abstentions
  {
    var order := InOrder(keys, st.remaining);
    ListingOfRemaining(keys, st.remaining);
    var e := ChooseElimination(order, count.voteCounts, tiebreak);
    EliminationShrinks(order, st.remaining, e.toEliminate);
    var elim := IrvRound(|st.rounds| + 1, count.voteCounts, count.exhausted, count.active, e.toEliminate, e.wasTiebreak);
    AfterEliminationShrinks(keys, active, st, elim, total, abstentions);
    AfterElimination(keys, active, st, elim, total, abstentions)
  }

  /** Eliminating remaining candidates, one of whom survives, leads to a next round only with fewer, but at least two, candidates. */
  lemma {:induction false} AfterEliminationShrinks(
    keys: seq<CandidateId>, active: seq<RankedChoiceBallot>, st: IrvState, elim: IrvRound, total: nat, abstentions: nat)
    requires Distinct(keys) && st.remaining <= ToSet(keys)
    requires ToSet(elim.eliminated) <= st.remaining && st.remaining - ToSet(elim.eliminated) != {}
    requires |st.remaining| >= 2 ==> |st.remaining - ToSet(elim.eliminated)| < |st.remaining|
    requires |st.remaining| == 1 ==> st.remaining - ToSet(elim.eliminated) == st.remaining
    ensures var s := AfterElimination(keys, active, st, elim, total, abstentions);
      && (s.Next? ==> s.state.remaining <= ToSet(keys) && 2 <= |s.state.remaining| < |st.remaining|)
      && (s.Next? ==> s.state.remaining < st.remaining && s.state.eliminated == st.eliminated + (st.remaining - s.state.remaining))
  {
    var left := st.remaining - ToSet(elim.eliminated);
    assert st.remaining - left == ToSet(elim.eliminated);
    if |left| != 1 {
      assert |left| != 0;
      assert |st.remaining| >= 2;
    }
  }

  /**
   * One round of the loop: a failed count ends it; a majority wins the
   * round; no remaining candidate ends the count without a winner;
   * otherwise the elimination step.
   */
  function Play(
    keys: seq<CandidateId>, active: seq<RankedChoiceBallot>, st: IrvState,
    total: nat, abstentions: nat, tiebreak: Tiebreak): (s: Step)
    requires Distinct(keys) && st.remaining <= ToSet(keys)
    requires PicksMember(tiebreak)
    ensures s.Next? ==> s.state.remaining <= ToSet(keys) && 2 <= |s.state.remaining| < |st.remaining|
    ensures s.Next? ==> s.state.remaining < st.remaining && s.state.eliminated == st.eliminated + (st.remaining - s.state.remaining)
  {
    match CountVotes(st.remaining, st.eliminated, active)
    case Err(e) => Done(Err(e))
    case Ok(count) =>
      var majority := MajorityOf(InOrder(keys, st.remaining), count.voteCounts, count.active);
      if majority.Some? then Done(Ok(MajorityWin(st.rounds, count, majority.value, total, abstentions)))
      else if |count.voteCounts| == 0 then
        Done(Ok(IrvResult(ElectionResult([], map[], total, abstentions, false), st.rounds, count.exhausted, 0)))
      else EliminationStep(keys, active, st, count, total, abstentions, tiebreak)
  }

  /** The result of a round won by `w` on a majority: the round is logged and `w` wins in it, without the tie-break. */
  function MajorityWin(rounds: seq<IrvRound>, count: RoundCount, w: CandidateId, total: nat, abstentions: nat): IrvResult
  {
    IrvResult(
      ElectionResult([w], count.voteCounts, total, abstentions, false),
      rounds + [IrvRound(|rounds| + 1, count.voteCounts, count.exhausted, count.active, [], false)], count.exhausted, |rounds| + 1)
  }

  /** The rounds from `st` on, as the round loop plays them. */
  function Run(
    keys: seq<CandidateId>, active: seq<RankedChoiceBallot>, st: IrvState,
    total: nat, abstentions: nat, tiebreak: Tiebreak): (r: Result<IrvResult, IrvError>)
    requires Distinct(keys) && st.remaining <= ToSet(keys)
    requires PicksMember(tiebreak)
    decreases |st.remaining|
  {
    match Play(keys, active, st, total, abstentions, tiebreak)
    case Done(r) => r
    case Next(next) => Run(keys, active, next, total, abstentions, tiebreak)
  }

  /** The elimination loop: each listed candidate moves from the remaining set to the eliminated set. */
  method Eliminate(eliminated: set<CandidateId>, remaining: set<CandidateId>, toEliminate: seq<CandidateId>)
    returns (eliminated': set<CandidateId>, remaining': set<CandidateId>)
    ensures eliminated' == eliminated + ToSet(toEliminate)
    ensures remaining' == remaining - ToSet(toEliminate)
  {
    eliminated', remaining' := eliminated, remaining;
    var k := 0;
    while k < |toEliminate|
      invariant 0 <= k <= |toEliminate|
      invariant eliminated' == eliminated + ToSet(toEliminate[..k])
      invariant remaining' == remaining - ToSet(toEliminate[..k])
    {
      assert ToSet(toEliminate[..k + 1]) == ToSet(toEliminate[..k]) + {toEliminate[k]} by {
        assert toEliminate[..k + 1] == toEliminate[..k] + [toEliminate[k]];
      }
      eliminated' := eliminated' + {toEliminate[k]};
      remaining' := remaining' - {toEliminate[k]};
      k := k + 1;
    }
    assert toEliminate[..k] == toEliminate;
  }

  /**
   * The part of a round after a count without a majority: chooses, logs and
   * applies the elimination, and counts the final round when one candidate
   * is left.
   */
  method EliminationRound(
    keys: seq<CandidateId>, active: seq<RankedChoiceBallot>, eliminated: set<CandidateId>, remaining: set<CandidateId>,
    rounds: seq<IrvRound>, count: RoundCount, total: nat, abstentions: nat, tiebreak: Tiebreak)
    returns (s: Step)
    requires Distinct(keys) && remaining <= ToSet(keys) && remaining != {}
    requires PicksMember(tiebreak)
    ensures s == EliminationStep(keys, active, IrvState(eliminated, remaining, rounds), count, total, abstentions, tiebreak)
  {
    var order := InOrder(keys, remaining);
    ListingOfRemaining(keys, remaining);
    var e := ChooseElimination(order, count.voteCounts, tiebreak);
    var logged := rounds + [IrvRound(|rounds| + 1, count.voteCounts, count.exhausted, count.active, e.toEliminate, e.wasTiebreak)];
    var eliminated', remaining' := Eliminate(eliminated, remaining, e.toEliminate);
    if |remaining'| != 1 {
      return Next(IrvState(eliminated', remaining', logged));
    }
    ListingOfRemaining(keys, remaining');
    var finalWinner := InOrder(keys, remaining')[0];
    var finalCount := CountRound(remaining', eliminated', active);
    if finalCount.Err? {
      return Done(Err(finalCount.error));
    }
    var last := finalCount.value;
    var round := IrvRound(|logged| + 1, last.voteCounts, last.exhausted, last.active, [], false);
    return Done(Ok(IrvResult(
      ElectionResult([finalWinner], last.voteCounts, total, abstentions, e.wasTiebreak),
      logged + [round], last.exhausted, |logged| + 1)));
  }

  /**
   * One pass of the round loop: counts the round, declares a majority
   * winner, ends the count when no candidate remains, and otherwise goes on
   * to the elimination.
   */
  method PlayRound(
    keys: seq<CandidateId>, active: seq<RankedChoiceBallot>, eliminated: set<CandidateId>, remaining: set<CandidateId>,
    rounds: seq<IrvRound>, total: nat, abstentions: nat, tiebreak: Tiebreak)
    returns (s: Step)
    requires Distinct(keys) && remaining <= ToSet(keys)
    requires PicksMember(tiebreak)
    ensures s == Play(keys, active, IrvState(eliminated, remaining, rounds), total, abstentions, tiebreak)
  {
    var counted := CountRound(remaining, eliminated, active);
    if counted.Err? {
      return Done(Err(counted.error));
    }
    var count := counted.value;
    var winner := FindMajority(InOrder(keys, remaining), count.voteCounts, count.active);
    if winner.Some? {
      return Done(Ok(MajorityWin(rounds, count, winner.value, total, abstentions)));
    }
    if |count.voteCounts| == 0 {
      return Done(Ok(IrvResult(ElectionResult([], map[], total, abstentions, false), rounds, count.exhausted, 0)));
    }
    s := EliminationRound(keys, active, eliminated, remaining, rounds, count, total, abstentions, tiebreak);
  }

  /** The rounds from a state are its round followed by the rounds from the state it leads to. */
  lemma {:induction false} RunStep(
    keys: seq<CandidateId>, active: seq<RankedChoiceBallot>, st: IrvState,
    total: nat, abstentions: nat, tiebreak: Tiebreak)
    requires Distinct(keys) && st.remaining <= ToSet(keys)
    requires PicksMember(tiebreak)
    ensures var s := Play(keys, active, st, total, abstentions, tiebreak);
      && (s.Done? ==> Run(keys, active, st, total, abstentions, tiebreak) == s.result)
      && (s.Next? ==> Run(keys, active, st, total, abstentions, tiebreak) == Run(keys, active, s.state, total, abstentions, tiebreak))
  {
  }

  /** Moving candidates from the remaining set to the eliminated set keeps the two a split of all candidates. */
  lemma {:induction false} PartitionKept(
    all: set<CandidateId>, eliminated: set<CandidateId>, remaining: set<CandidateId>,
    eliminated': set<CandidateId>, remaining': set<CandidateId>)
    requires eliminated !! remaining && eliminated + remaining == all
    requires remaining' <= remaining && eliminated' == eliminated + (remaining - remaining')
    ensures eliminated' !! remaining' && eliminated' + remaining' == all
  {
  }

  /**
   * The round loop from the first round, where every candidate remains,
   * until the count ends. The eliminated and the remaining candidates
   * always split the candidate set between them, and the remaining set
   * shrinks in every round that does not end the count.
   */
  method PlayRounds(
    keys: seq<CandidateId>, active: seq<RankedChoiceBallot>, total: nat, abstentions: nat, tiebreak: Tiebreak)
    returns (r: Result<IrvResult, IrvError>)
    requires Distinct(keys)
    requires PicksMember(tiebreak)
    ensures r == Run(keys, active, IrvState({}, ToSet(keys), []), total, abstentions, tiebreak)
  {
    var eliminated: set<CandidateId> := {};
    var remaining := ToSet(keys);
    var rounds: seq<IrvRound> := [];
    while true
      invariant remaining <= ToSet(keys)
      invariant eliminated !! remaining && eliminated + remaining == ToSet(keys)
      invariant Run(keys, active, IrvState(eliminated, remaining, rounds), total, abstentions, tiebreak)
        == Run(keys, active, IrvState({}, ToSet(keys), []), total, abstentions, tiebreak)
      decreases |remaining|
    {
      var step := PlayRound(keys, active, eliminated, remaining, rounds, total, abstentions, tiebreak);
      RunStep(keys, active, IrvState(eliminated, remaining, rounds), total, abstentions, tiebreak);
      match step
      case Done(result) =>
        return result;
      case Next(next) =>
        PartitionKept(ToSet(keys), eliminated, remaining, next.eliminated, next.remaining);
        eliminated, remaining, rounds := next.eliminated, next.remaining, next.rounds;
    }
  }

  /**
   * Instant-runoff resolution: drops the abstentions, then plays rounds
   * until the count ends, reporting the result of the rounds or the failure
   * of a count on a stray ballot.
   */
  method ResolveIrv(candidates: seq<Candidate>, ballots: seq<RankedChoiceBallot>, tiebreak: Tiebreak)
    returns (r: Result<IrvResult, IrvError>)
    requires PicksMember(tiebreak)
    ensures r == Run(Dedup(Ids(candidates)), ActiveBallots(ballots), IrvState({}, ToSet(Ids(candidates)), []),
      |ballots|, Abstentions(ballots), tiebreak)
  {
    var keys := Dedup(Ids(candidates));
    var active := ActiveBallots(ballots);
    var abstentions: nat := |ballots| - |active|;
    SameElements(Ids(candidates), keys);
    r := PlayRounds(keys, active, |ballots|, abstentions, tiebreak);
  }

  /**
   * A logged round accounts for every non-abstaining ballot as continuing
   * or exhausted; the candidates it eliminated were counted in it and had
   * no more votes than any counted candidate; and a round that eliminated
   * had no majority.
   */
  ghost predicate SoundRound(round: IrvRound, ballotCount: nat)
  {
    && round.activeBallots + round.exhaustedBallots == ballotCount
    && (forall c :: c in round.eliminated ==> c in round.voteCounts)
    && (forall c, d :: c in round.eliminated && d in round.voteCounts ==> round.voteCounts[c] <= round.voteCounts[d])
    && (|round.eliminated| > 0 ==> forall c :: c in round.voteCounts ==> 2 * round.voteCounts[c] <= round.activeBallots)
  }

  /** The rounds logged from index `from` on are numbered on from `from + 1` and sound. */
  ghost predicate Logged(rounds: seq<IrvRound>, from: nat, ballotCount: nat)
  {
    from <= |rounds| && forall i :: from <= i < |rounds| ==> rounds[i].roundNumber == i + 1 && SoundRound(rounds[i], ballotCount)
  }

  /**
   * The log of a count that started from `st`: the log it was given,
   * extended by sound, consecutively numbered rounds, at most one more than
   * the candidates that remained.
   */
  ghost predicate LogExtended(r: IrvResult, st: IrvState, ballotCount: nat)
  {
    && st.rounds <= r.rounds
    && Logged(r.rounds, |st.rounds|, ballotCount)
    && |r.rounds| <= |st.rounds| + |st.remaining| + 1
  }

  /**
   * The winner of a count that started from `st`: there is one exactly when
   * some candidate remained, and it is one of them, winning in the last
   * logged round, whose counts are reported, with more than half of that
   * round's continuing ballots unless none continued.
   */
  ghost predicate WinnerSettled(r: IrvResult, st: IrvState)
  {
    && |r.base.winners| <= 1
    && (r.base.winners == [] <==> st.remaining == {})
    && (forall w :: w in r.base.winners ==> w in st.remaining)
    && (r.base.winners == [] ==> r.winningRound == 0)
    && (r.base.winners != [] ==>
          && r.winningRound == |r.rounds| > |st.rounds|
          && r.base.voteCounts == r.rounds[|r.rounds| - 1].voteCounts
          && r.totalExhausted == r.rounds[|r.rounds| - 1].exhaustedBallots
          && (2 * Get(r.base.voteCounts, r.base.winners[0]) > r.rounds[|r.rounds| - 1].activeBallots
              || r.rounds[|r.rounds| - 1].activeBallots == 0))
  }

  /** The tie-break flag is set exactly when some round logged since `st` was decided by the tie-break. */
  ghost predicate TiebreakSettled(r: IrvResult, st: IrvState)
  {
    r.base.tiebreakApplied <==> exists i :: |st.rounds| <= i < |r.rounds| && r.rounds[i].eliminationWasTiebreak
  }

  /** What a count that started from `st` reports. */
  ghost predicate Settled(r: IrvResult, st: IrvState, ballotCount: nat)
  {
    LogExtended(r, st, ballotCount) && WinnerSettled(r, st) && TiebreakSettled(r, st)
  }

  /** A sound round numbered after the log extends the log. */
  lemma {:induction false} LoggedOneMore(rounds: seq<IrvRound>, round: IrvRound, ballotCount: nat)
    requires round.roundNumber == |rounds| + 1 && SoundRound(round, ballotCount)
    ensures Logged(rounds + [round], |rounds|, ballotCount)
  {
  }

  /** A set of one element that contains `w` is `{w}`. */
  lemma {:induction false} Singleton(s: set<CandidateId>, w: CandidateId)
    requires |s| == 1 && w in s
    ensures s == {w}
  {
    if s != {w} {
      var c :| c in s && c != w;
      assert {w, c} <= s;
      SubsetCardinality({w, c}, s);
    }
  }

  /** A set whose only member is `w` has one element. */
  lemma {:induction false} OneMember(s: set<CandidateId>, w: CandidateId)
    requires w in s && forall c :: c in s ==> c == w
    ensures |s| == 1
  {
    assert s == {w};
  }

  /** The round that eliminates is sound, and it used the tie-break only if one candidate is left after it. */
  lemma {:induction false} EliminationRoundSound(keys: seq<CandidateId>, active: seq<RankedChoiceBallot>, st: IrvState, count: RoundCount, tiebreak: Tiebreak)
    requires Distinct(keys) && st.remaining <= ToSet(keys) && st.remaining != {}
    requires PicksMember(tiebreak)
    requires CountVotes(st.remaining, st.eliminated, active) == Ok(count)
    requires MajorityOf(InOrder(keys, st.remaining), count.voteCounts, count.active).None?
    ensures var order := InOrder(keys, st.remaining);
      var e := ChooseElimination(order, count.voteCounts, tiebreak);
      && SoundRound(IrvRound(|st.rounds| + 1, count.voteCounts, count.exhausted, count.active, e.toEliminate, e.wasTiebreak), |active|)
      && (e.wasTiebreak ==> |st.remaining - ToSet(e.toEliminate)| == 1)
  {
    var order := InOrder(keys, st.remaining);
    ListingOfRemaining(keys, st.remaining);
    var e := ChooseElimination(order, count.voteCounts, tiebreak);
    var m := count.voteCounts;
    assert forall d :: d in m ==> d in order by {
      forall d | d in m ensures d in order {
        assert d in ToSet(keys);
      }
    }
    forall c | c in e.toEliminate
      ensures c in m
    {
      assert c in order;
    }
    forall c, d | c in e.toEliminate && d in m
      ensures m[c] <= m[d]
    {
      assert d in order;
      assert Get(m, c) <= Get(m, d);
    }
    forall c | c in m
      ensures 2 * m[c] <= count.active
    {
      assert c in order;
      assert 2 * Get(m, c) <= count.active;
    }
    var round := IrvRound(|st.rounds| + 1, m, count.exhausted, count.active, e.toEliminate, e.wasTiebreak);
    assert SoundRound(round, |active|);
    if e.wasTiebreak {
      var survivor := tiebreak(order);
      var left := st.remaining - ToSet(e.toEliminate);
      forall c | c in left
        ensures c == survivor
      {
        assert c in order && c !in e.toEliminate;
      }
      assert survivor in left;
      OneMember(left, survivor);
    }
  }

  /** A final round after a sound elimination round settles the count for the remaining candidate. */
  lemma {:induction false} FinalResultSettled(r: IrvResult, st: IrvState, elim: IrvRound, last: RoundCount, w: CandidateId, ballotCount: nat)
    requires w in st.remaining
    requires elim.roundNumber == |st.rounds| + 1 && SoundRound(elim, ballotCount)
    requires last.active + last.exhausted == ballotCount
    requires 2 * Get(last.voteCounts, w) > last.active || last.active == 0
    requires r.base.winners == [w] && r.base.voteCounts == last.voteCounts
    requires r.base.tiebreakApplied == elim.eliminationWasTiebreak
    requires r.rounds == st.rounds + [elim, IrvRound(|st.rounds| + 2, last.voteCounts, last.exhausted, last.active, [], false)]
    requires r.totalExhausted == last.exhausted && r.winningRound == |st.rounds| + 2
    ensures Settled(r, st, ballotCount)
  {
    assert |st.remaining| >= 1 by {
      assert {w} <= st.remaining;
      SubsetCardinality({w}, st.remaining);
    }
    assert Logged(r.rounds, |st.rounds|, ballotCount);
    if elim.eliminationWasTiebreak {
      assert r.rounds[|st.rounds|].eliminationWasTiebreak;
    } else {
      assert forall i :: |st.rounds| <= i < |r.rounds| ==> !r.rounds[i].eliminationWasTiebreak;
    }
  }

  /** The final round completes a settled count. */
  lemma {:induction false} FinalSettled(
    keys: seq<CandidateId>, active: seq<RankedChoiceBallot>, eliminated: set<CandidateId>, remaining: set<CandidateId>,
    st: IrvState, elim: IrvRound, total: nat, abstentions: nat)
    requires Distinct(keys) && st.remaining <= ToSet(keys) && remaining <= st.remaining && |remaining| == 1
    requires elim.roundNumber == |st.rounds| + 1 && SoundRound(elim, |active|)
    ensures var r := FinalRound(keys, active, eliminated, remaining, st.rounds + [elim], total, abstentions, elim.eliminationWasTiebreak);
      r.Ok? ==> Settled(r.value, st, |active|)
  {
    ListingOfRemaining(keys, remaining);
    var w := InOrder(keys, remaining)[0];
    Singleton(remaining, w);
    var r := FinalRound(keys, active, eliminated, remaining, st.rounds + [elim], total, abstentions, elim.eliminationWasTiebreak);
    if r.Ok? {
      var last := CountVotes(remaining, eliminated, active).value;
      CountsAddUp(remaining, eliminated, active, last, [w]);
      assert SumOver([w], last.voteCounts) == Get(last.voteCounts, w);
      assert st.rounds + [elim] + [IrvRound(|st.rounds| + 2, last.voteCounts, last.exhausted, last.active, [], false)]
        == st.rounds + [elim, IrvRound(|st.rounds| + 2, last.voteCounts, last.exhausted, last.active, [], false)];
      FinalResultSettled(r.value, st, elim, last, w, |active|);
    }
  }

  /**
   * What follows a sound elimination round either completes a settled count
   * or goes on to the next round with that round logged; a round decided by
   * the tie-break leaves one candidate, so it is never followed by another
   * elimination round.
   */
  lemma {:induction false} AfterEliminationSettled(
    keys: seq<CandidateId>, active: seq<RankedChoiceBallot>, st: IrvState, elim: IrvRound, total: nat, abstentions: nat)
    requires Distinct(keys) && st.remaining <= ToSet(keys)
    requires elim.roundNumber == |st.rounds| + 1 && SoundRound(elim, |active|)
    requires elim.eliminationWasTiebreak ==> |st.remaining - ToSet(elim.eliminated)| == 1
    ensures var s := AfterElimination(keys, active, st, elim, total, abstentions);
      && (s.Done? && s.result.Ok? ==> Settled(s.result.value, st, |active|))
      && (s.Next? ==>
            && st.rounds <= s.state.rounds && |s.state.rounds| == |st.rounds| + 1
            && Logged(s.state.rounds, |st.rounds|, |active|)
            && !s.state.rounds[|st.rounds|].eliminationWasTiebreak)
  {
    var remaining := st.remaining - ToSet(elim.eliminated);
    if |remaining| == 1 {
      FinalSettled(keys, active, st.eliminated + ToSet(elim.eliminated), remaining, st, elim, total, abstentions);
    } else {
      LoggedOneMore(st.rounds, elim, |active|);
    }
  }

  /** A logged round in which a remaining candidate has a majority settles the count for that candidate. */
  lemma {:induction false} WinningRoundSettled(r: IrvResult, st: IrvState, round: IrvRound, w: CandidateId, ballotCount: nat)
    requires w in st.remaining
    requires round.roundNumber == |st.rounds| + 1 && round.eliminated == [] && !round.eliminationWasTiebreak
    requires round.activeBallots + round.exhaustedBallots == ballotCount
    requires 2 * Get(round.voteCounts, w) > round.activeBallots
    requires r.base.winners == [w] && r.base.voteCounts == round.voteCounts && !r.base.tiebreakApplied
    requires r.rounds == st.rounds + [round] && r.totalExhausted == round.exhaustedBallots && r.winningRound == |st.rounds| + 1
    ensures Settled(r, st, ballotCount)
  {
    assert |st.remaining| >= 1 by {
      assert {w} <= st.remaining;
      SubsetCardinality({w}, st.remaining);
    }
    assert SoundRound(r.rounds[|st.rounds|], ballotCount);
    assert Logged(r.rounds, |st.rounds|, ballotCount);
    assert forall i :: |st.rounds| <= i < |r.rounds| ==> !r.rounds[i].eliminationWasTiebreak;
  }

  /** A round won on a majority settles the count. */
  lemma {:induction false} MajorityWinSettled(
    keys: seq<CandidateId>, active: seq<RankedChoiceBallot>, st: IrvState, count: RoundCount, w: CandidateId,
    total: nat, abstentions: nat)
    requires Distinct(keys) && st.remaining <= ToSet(keys)
    requires CountVotes(st.remaining, st.eliminated, active) == Ok(count)
    requires MajorityOf(InOrder(keys, st.remaining), count.voteCounts, count.active) == Some(w)
    ensures Settled(MajorityWin(st.rounds, count, w, total, abstentions), st, |active|)
  {
    var r := MajorityWin(st.rounds, count, w, total, abstentions);
    WinningRoundSettled(r, st, r.rounds[|st.rounds|], w, |active|);
  }

  /** A count that finds no candidate remaining settles with no winner. */
  lemma {:induction false} NoCandidateSettled(active: seq<RankedChoiceBallot>, st: IrvState, count: RoundCount, total: nat, abstentions: nat)
    requires CountVotes(st.remaining, st.eliminated, active) == Ok(count)
    requires |count.voteCounts| == 0
    ensures Settled(IrvResult(ElectionResult([], map[], total, abstentions, false), st.rounds, count.exhausted, 0), st, |active|)
  {
    assert st.remaining == count.voteCounts.Keys;
  }

  /**
   * A round without a majority either completes a settled count or logs one
   * more sound round, not decided by the tie-break, before the next round.
   */
  lemma {:induction false} EliminationSettled(
    keys: seq<CandidateId>, active: seq<RankedChoiceBallot>, st: IrvState, count: RoundCount,
    total: nat, abstentions: nat, tiebreak: Tiebreak)
    requires Distinct(keys) && st.remaining <= ToSet(keys) && st.remaining != {}
    requires PicksMember(tiebreak)
    requires CountVotes(st.remaining, st.eliminated, active) == Ok(count)
    requires MajorityOf(InOrder(keys, st.remaining), count.voteCounts, count.active).None?
    ensures var s := EliminationStep(keys, active, st, count, total, abstentions, tiebreak);
      && (s.Done? && s.result.Ok? ==> Settled(s.result.value, st, |active|))
      && (s.Next? ==>
            && st.rounds <= s.state.rounds && |s.state.rounds| == |st.rounds| + 1
            && Logged(s.state.rounds, |st.rounds|, |active|)
            && !s.state.rounds[|st.rounds|].eliminationWasTiebreak)
  {
    var order := InOrder(keys, st.remaining);
    ListingOfRemaining(keys, st.remaining);
    var e := ChooseElimination(order, count.voteCounts, tiebreak);
    EliminationRoundSound(keys, active, st, count, tiebreak);
    var elim := IrvRound(|st.rounds| + 1, count.voteCounts, count.exhausted, count.active, e.toEliminate, e.wasTiebreak);
    AfterEliminationSettled(keys, active, st, elim, total, abstentions);
  }

  /**
   * One round either completes a settled count, fails, or logs one more
   * sound round, not decided by the tie-break, before the next round.
   */
  lemma {:induction false} PlaySettled(
    keys: seq<CandidateId>, active: seq<RankedChoiceBallot>, st: IrvState,
    total: nat, abstentions: nat, tiebreak: Tiebreak)
    requires Distinct(keys) && st.remaining <= ToSet(keys)
    requires PicksMember(tiebreak)
    ensures var s := Play(keys, active, st, total, abstentions, tiebreak);
      && (s.Done? && s.result.Ok? ==> Settled(s.result.value, st, |active|))
      && (s.Next? ==>
            && st.rounds <= s.state.rounds && |s.state.rounds| == |st.rounds| + 1
            && Logged(s.state.rounds, |st.rounds|, |active|)
            && !s.state.rounds[|st.rounds|].eliminationWasTiebreak)
  {
    var counted := CountVotes(st.remaining, st.eliminated, active);
    if counted.Ok? {
      var count := counted.value;
      var majority := MajorityOf(InOrder(keys, st.remaining), count.voteCounts, count.active);
      if majority.Some? {
        MajorityWinSettled(keys, active, st, count, majority.value, total, abstentions);
      } else if |count.voteCounts| == 0 {
        NoCandidateSettled(active, st, count, total, abstentions);
      } else {
        assert st.remaining != {} by {
          assert st.remaining == count.voteCounts.Keys;
        }
        EliminationSettled(keys, active, st, count, total, abstentions, tiebreak);
      }
    }
  }

  /** A count settled from the next round is settled from the round before it, which logged one round not decided by the tie-break. */
  lemma {:induction false} SettledFromNext(r: IrvResult, st: IrvState, next: IrvState, ballotCount: nat)
    requires st.rounds <= next.rounds && |next.rounds| == |st.rounds| + 1
    requires Logged(next.rounds, |st.rounds|, ballotCount) && !next.rounds[|st.rounds|].eliminationWasTiebreak
    requires next.remaining < st.remaining && 2 <= |next.remaining| < |st.remaining|
    requires Settled(r, next, ballotCount)
    ensures Settled(r, st, ballotCount)
  {
    assert r.rounds[|st.rounds|] == next.rounds[|st.rounds|];
    assert Logged(r.rounds, |st.rounds|, ballotCount);
    assert r.base.winners != [];
    if r.base.tiebreakApplied {
      var i :| |next.rounds| <= i < |r.rounds| && r.rounds[i].eliminationWasTiebreak;
      assert |st.rounds| <= i;
    }
  }

  /**
   * Every count the loop completes from `st` is settled: its log extends
   * the given one by sound rounds, it names the single winner exactly when
   * a candidate remained, and it reports the tie-break exactly when a
   * logged round used it.
   */
  lemma {:induction false} RunSettled(
    keys: seq<CandidateId>, active: seq<RankedChoiceBallot>, st: IrvState,
    total: nat, abstentions: nat, tiebreak: Tiebreak)
    requires Distinct(keys) && st.remaining <= ToSet(keys)
    requires PicksMember(tiebreak)
    ensures var r := Run(keys, active, st, total, abstentions, tiebreak);
      r.Ok? ==> Settled(r.value, st, |active|)
    decreases |st.remaining|
  {
    PlaySettled(keys, active, st, total, abstentions, tiebreak);
    RunStep(keys, active, st, total, abstentions, tiebreak);
    match Play(keys, active, st, total, abstentions, tiebreak)
    case Done(_) =>
    case Next(next) =>
      RunSettled(keys, active, next, total, abstentions, tiebreak);
      var r := Run(keys, active, st, total, abstentions, tiebreak);
      if r.Ok? {
        SettledFromNext(r.value, st, next, |active|);
      }
  }

  /** A round that ends the count reports the ballot and abstention totals it was given. */
  lemma {:induction false} PlayCarries(
    keys: seq<CandidateId>, active: seq<RankedChoiceBallot>, st: IrvState,
    total: nat, abstentions: nat, tiebreak: Tiebreak)
    requires Distinct(keys) && st.remaining <= ToSet(keys)
    requires PicksMember(tiebreak)
    ensures var s := Play(keys, active, st, total, abstentions, tiebreak);
      s.Done? && s.result.Ok? ==> s.result.value.base.totalBallots == total && s.result.value.base.abstentions == abstentions
  {
    var counted := CountVotes(st.remaining, st.eliminated, active);
    if counted.Ok? && MajorityOf(InOrder(keys, st.remaining), counted.value.voteCounts, counted.value.active).None?
      && |counted.value.voteCounts| != 0
    {
      assert st.remaining != {} by {
        assert st.remaining == counted.value.voteCounts.Keys;
      }
    }
  }

  /** Every count the loop completes reports the ballot and abstention totals it was given. */
  lemma {:induction false} RunCarries(
    keys: seq<CandidateId>, active: seq<RankedChoiceBallot>, st: IrvState,
    total: nat, abstentions: nat, tiebreak: Tiebreak)
    requires Distinct(keys) && st.remaining <= ToSet(keys)
    requires PicksMember(tiebreak)
    ensures var r := Run(keys, active, st, total, abstentions, tiebreak);
      r.Ok? ==> r.value.base.totalBallots == total && r.value.base.abstentions == abstentions
    decreases |st.remaining|
  {
    PlayCarries(keys, active, st, total, abstentions, tiebreak);
    RunStep(keys, active, st, total, abstentions, tiebreak);
    match Play(keys, active, st, total, abstentions, tiebreak)
    case Done(_) =>
    case Next(next) =>
      RunCarries(keys, active, next, total, abstentions, tiebreak);
  }

  /**
   * What an instant-runoff election reports when no count fails: at most
   * one winner, and one exactly when there are candidates, drawn from them;
   * at most one logged round per candidate plus the final one, numbered
   * from 1, each accounting for every non-abstaining ballot and eliminating
   * only candidates on the fewest votes in a round without a majority; the
   * tie-break flag exactly when some round used it; and every ballot and
   * abstention counted.
   */
  lemma {:induction false} IrvOutcome(candidates: seq<Candidate>, ballots: seq<RankedChoiceBallot>, tiebreak: Tiebreak)
    requires PicksMember(tiebreak)
    ensures var r := Run(Dedup(Ids(candidates)), ActiveBallots(ballots), IrvState({}, ToSet(Ids(candidates)), []),
      |ballots|, Abstentions(ballots), tiebreak);
      r.Ok? ==> (
        && Reported(r.value, candidates, |ActiveBallots(ballots)|)
        && r.value.base.totalBallots == |ballots|
        && r.value.base.abstentions == Abstentions(ballots))
  {
    var keys := Dedup(Ids(candidates));
    var st := IrvState({}, ToSet(Ids(candidates)), []);
    assert st.remaining == ToSet(keys);
    var active := ActiveBallots(ballots);
    RunSettled(keys, active, st, |ballots|, Abstentions(ballots), tiebreak);
    RunCarries(keys, active, st, |ballots|, Abstentions(ballots), tiebreak);
    var r := Run(keys, active, st, |ballots|, Abstentions(ballots), tiebreak);
    if r.Ok? {
      SettledFromStart(r.value, candidates, |active|);
    }
  }

  /**
   * What an instant-runoff election reports: at most one winner, and one
   * exactly when there are candidates, drawn from them and winning in the
   * last logged round; at most one logged round per candidate plus the
   * final one, numbered from 1, each accounting for every non-abstaining
   * ballot and eliminating only candidates on the fewest votes in a round
   * without a majority; and the tie-break flag exactly when some round
   * used it.
   */
  ghost predicate Reported(r: IrvResult, candidates: seq<Candidate>, ballotCount: nat)
  {
    && |r.base.winners| <= 1
    && (r.base.winners == [] <==> |candidates| == 0)
    && (forall w :: w in r.base.winners ==> w in Ids(candidates))
    && (r.base.winners != [] ==> 1 <= r.winningRound == |r.rounds|)
    && |r.rounds| <= |candidates| + 1
    && Logged(r.rounds, 0, ballotCount)
    && (r.base.tiebreakApplied <==> exists i :: 0 <= i < |r.rounds| && r.rounds[i].eliminationWasTiebreak)
  }

  /** A count settled from the first round reports the election as a whole. */
  lemma {:induction false} SettledFromStart(r: IrvResult, candidates: seq<Candidate>, ballotCount: nat)
    requires Settled(r, IrvState({}, ToSet(Ids(candidates)), []), ballotCount)
    ensures Reported(r, candidates, ballotCount)
  {
    DistinctCardinality(Ids(candidates));
    if |candidates| > 0 {
      assert Ids(candidates)[0] in ToSet(Ids(candidates));
    }
  }
}
