/**
 * The winner rule shared by the plurality, approval, score, Borda and
 * quadratic tallies: take the highest count (0 when there are no
 * candidates), list the candidates that reach it in count-map order, and
 * declare the single one the winner or hand the list to the tie-break.
 */
module WinnerRule {
  import opened Types
  import opened Seqs

  /** `max(counts.values()) if counts else 0`, over the listed keys. */
  function MaxCount(keys: seq<CandidateId>, counts: map<CandidateId, int>): (m: int)
    ensures forall k :: k in keys ==> Get(counts, k) <= m
    ensures |keys| > 0 ==> exists i :: 0 <= i < |keys| && Get(counts, keys[i]) == m
    ensures |keys| == 0 ==> m == 0
  {
    if |keys| <= 1 then (if |keys| == 0 then 0 else Get(counts, keys[0]))
    else
      var init := keys[..|keys| - 1];
      var rest := MaxCount(init, counts);
      assert forall k :: k in keys ==> k in init || k == keys[|keys| - 1];
      var last := Get(counts, keys[|keys| - 1]);
      if last > rest then last else rest
  }

  /** The listed keys whose count is `m`, in key order. */
  function AtCount(keys: seq<CandidateId>, counts: map<CandidateId, int>, m: int): (t: seq<CandidateId>)
    ensures forall k :: k in t <==> k in keys && Get(counts, k) == m
    ensures Distinct(keys) ==> Distinct(t)
  {
    if |keys| == 0 then []
    else
      var init := keys[..|keys| - 1];
      var last := keys[|keys| - 1];
      var t0 := AtCount(init, counts, m);
      assert forall k :: k in init ==> k in keys;
      assert Distinct(keys) ==> last !in init;
      if Get(counts, last) == m then t0 + [last] else t0
  }

  /** The candidates tied on the highest count, in key order. */
  function Tied(keys: seq<CandidateId>, counts: map<CandidateId, int>): (t: seq<CandidateId>)
    ensures forall k :: k in t <==> k in keys && Get(counts, k) == MaxCount(keys, counts)
    ensures |keys| > 0 ==> |t| > 0
    ensures Distinct(keys) ==> Distinct(t)
  {
    var t := AtCount(keys, counts, MaxCount(keys, counts));
    assert |keys| > 0 ==> t != [] by {
      if |keys| > 0 {
        var i :| 0 <= i < |keys| && Get(counts, keys[i]) == MaxCount(keys, counts);
        assert keys[i] in t;
      }
    }
    t
  }

  /** Two different candidates share the highest count. */
  ghost predicate TopTie(keys: seq<CandidateId>, counts: map<CandidateId, int>)
  {
    exists a, b :: a in keys && b in keys && a != b
      && Get(counts, a) == MaxCount(keys, counts) && Get(counts, b) == MaxCount(keys, counts)
  }

  /** The winners list and the tie-break flag of a result. */
  datatype Decision = Decision(winners: seq<CandidateId>, tiebreakApplied: bool)

  /**
   * No candidates: no winner. One candidate on the highest count: that
   * candidate, no tie-break. Several: the tie-break's pick among them.
   */
  function DecideWinner(keys: seq<CandidateId>, counts: map<CandidateId, int>, tiebreak: Tiebreak): (d: Decision)
    requires Distinct(keys)
    requires PicksMember(tiebreak)
    ensures d.winners == [] <==> |keys| == 0
    ensures |d.winners| <= 1
    ensures forall w :: w in d.winners ==> w in keys && forall k :: k in keys ==> Get(counts, k) <= Get(counts, w)
    ensures d.tiebreakApplied <==> TopTie(keys, counts)
    ensures !d.tiebreakApplied ==> forall w, k :: w in d.winners && k in keys && k != w ==> Get(counts, k) < Get(counts, w)
    ensures d.tiebreakApplied ==> d.winners == [tiebreak(Tied(keys, counts))]
  {
    var tied := Tied(keys, counts);
    TopTieIffSeveral(keys, counts);
    if |tied| == 0 then Decision([], false)
    else if |tied| == 1 then
      assert forall k :: k in keys && Get(counts, k) == MaxCount(keys, counts) ==> k == tied[0];
      Decision(tied, false)
    else Decision([tiebreak(tied)], true)
  }

  /** The tie-break is consulted exactly when the tied list has more than one entry. */
  lemma {:induction false} TopTieIffSeveral(keys: seq<CandidateId>, counts: map<CandidateId, int>)
    requires Distinct(keys)
    ensures TopTie(keys, counts) <==> |Tied(keys, counts)| >= 2
  {
    var t := Tied(keys, counts);
    if |t| >= 2 {
      assert t[0] in t && t[1] in t;
      assert t[0] != t[1];
    }
    if TopTie(keys, counts) {
      var a, b :| a in keys && b in keys && a != b
        && Get(counts, a) == MaxCount(keys, counts) && Get(counts, b) == MaxCount(keys, counts);
      assert a in t && b in t;
    }
  }

  /** A candidate whose count is strictly above every other candidate's wins without the tie-break. */
  lemma {:induction false} StrictLeaderWins(keys: seq<CandidateId>, counts: map<CandidateId, int>, w: CandidateId, tiebreak: Tiebreak)
    requires Distinct(keys)
    requires PicksMember(tiebreak)
    requires w in keys
    requires forall c :: c in keys && c != w ==> Get(counts, c) < Get(counts, w)
    ensures DecideWinner(keys, counts, tiebreak) == Decision([w], false)
  {
    var m := MaxCount(keys, counts);
    assert Get(counts, w) == m;
    assert !TopTie(keys, counts);
    var d := DecideWinner(keys, counts, tiebreak);
    assert d.winners[0] in keys;
  }
}
