/**
 * The score ballot: a score from MIN_SCORE to MAX_SCORE per candidate;
 * unscored candidates get 0 and an empty score map is an abstention.
 */
module ScoreBallots {
  import opened Types
  import opened Seqs
  import opened MapSums

  const MIN_SCORE: int := 0
  const MAX_SCORE: int := 10

  datatype ScoreBallot = ScoreBallot(voterId: VoterId, scores: map<CandidateId, int>)

  /** Raised by validation for a score outside the allowed range. */
  datatype ScoreError = InvalidScore

  /** Every score on the ballot lies in [MIN_SCORE, MAX_SCORE]. */
  predicate InRange(scores: map<CandidateId, int>)
  {
    forall c :: c in scores ==> MIN_SCORE <= scores[c] <= MAX_SCORE
  }

  /**
   * No scores give an abstaining ballot; with validation on, a score out of
   * range is rejected; otherwise the scores are kept as given.
   */
  function CreateScoreBallot(voterId: VoterId, scores: Option<map<CandidateId, int>>, validate: bool): (r: Result<ScoreBallot, ScoreError>)
    ensures scores.None? ==> r == Ok(ScoreBallot(voterId, map[]))
    ensures r.Err? <==> scores.Some? && validate && !InRange(scores.value)
    ensures r.Ok? && scores.Some? ==> r.value == ScoreBallot(voterId, scores.value)
    ensures r.Ok? && validate ==> InRange(r.value.scores)
  {
    match scores
    case None => Ok(ScoreBallot(voterId, map[]))
    case Some(given) =>
      if validate && exists c :: c in given && (given[c] < MIN_SCORE || given[c] > MAX_SCORE) then Err(InvalidScore)
      else Ok(ScoreBallot(voterId, given))
  }

  predicate IsAbstention(b: ScoreBallot)
  {
    |b.scores| == 0
  }

  /** The score of a candidate; unscored candidates score 0. */
  function GetScore(b: ScoreBallot, c: CandidateId): (s: int)
    ensures c !in b.scores ==> s == 0
    ensures c in b.scores ==> s == b.scores[c]
    ensures InRange(b.scores) ==> MIN_SCORE <= s <= MAX_SCORE
  {
    Get(b.scores, c)
  }

  /** The number of candidates given a score. */
  function CandidatesScored(b: ScoreBallot): (n: nat)
    ensures n == 0 <==> IsAbstention(b)
  {
    |b.scores|
  }

  /** The sum of all scores on the ballot. */
  ghost function TotalPointsGiven(b: ScoreBallot): int
  {
    SumOf(b.scores, Plain)
  }

  /**
   * On a ballot with scores in range, the total lies between 0 and
   * MAX_SCORE per scored candidate, and it is at least any single score.
   */
  lemma {:induction false} TotalPointsBounds(b: ScoreBallot, c: CandidateId)
    requires InRange(b.scores)
    ensures 0 <= TotalPointsGiven(b) <= MAX_SCORE * CandidatesScored(b)
    ensures GetScore(b, c) <= TotalPointsGiven(b)
  {
    SumOfBounds(b.scores, Plain, MIN_SCORE, MAX_SCORE);
    if c in b.scores {
      SumOfAtLeast(b.scores, Plain, c);
    }
  }

  /** The highest score on the ballot, or None for an abstention. */
  ghost function MaxScoreOnBallot(b: ScoreBallot): (r: Option<int>)
    ensures r.None? <==> IsAbstention(b)
    ensures r.Some? ==> r.value in b.scores.Values && forall c :: c in b.scores ==> b.scores[c] <= r.value
  {
    if IsAbstention(b) then None else Some(Extreme(b.scores, true))
  }

  /** The lowest score on the ballot, or None for an abstention. */
  ghost function MinScoreOnBallot(b: ScoreBallot): (r: Option<int>)
    ensures r.None? <==> IsAbstention(b)
    ensures r.Some? ==> r.value in b.scores.Values && forall c :: c in b.scores ==> r.value <= b.scores[c]
  {
    if IsAbstention(b) then None else Some(Extreme(b.scores, false))
  }

  /** The largest (`highest`) or smallest value of a non-empty map. */
  ghost function Extreme(m: map<CandidateId, int>, highest: bool): (v: int)
    requires |m| > 0
    ensures v in m.Values
    ensures forall c :: c in m ==> if highest then m[c] <= v else v <= m[c]
    decreases |m|
  {
    var k := Pick(m.Keys);
    if |m| == 1 then
      assert forall c :: c in m ==> c == k by {
        forall c | c in m ensures c == k {
          if c != k {
            assert {c, k} <= m.Keys;
            SubsetCardinality({c, k}, m.Keys);
          }
        }
      }
      m[k]
    else
      var rest := m - {k};
      assert |rest| == |m| - 1;
      var v := Extreme(rest, highest);
      assert forall c :: c in m ==> c == k || c in rest;
      assert v in m.Values by {
        var j :| j in rest && rest[j] == v;
        assert m[j] == v;
      }
      if highest then (if m[k] > v then m[k] else v)
      else (if m[k] < v then m[k] else v)
  }

  /** On a non-abstaining ballot with scores in range, MIN_SCORE <= min <= max <= MAX_SCORE. */
  lemma {:induction false} ScoreExtremesOrdered(b: ScoreBallot)
    requires InRange(b.scores)
    requires !IsAbstention(b)
    ensures MIN_SCORE <= MinScoreOnBallot(b).value <= MaxScoreOnBallot(b).value <= MAX_SCORE
  {
    var c :| c in b.scores;
    assert MinScoreOnBallot(b).value <= b.scores[c] <= MaxScoreOnBallot(b).value;
    var lo :| lo in b.scores && b.scores[lo] == MinScoreOnBallot(b).value;
    var hi :| hi in b.scores && b.scores[hi] == MaxScoreOnBallot(b).value;
  }
}
