/**
 * The pairwise comparison matrix of ranked pairs: for every ordered pair of
 * different candidates, the number of non-abstaining ballots that prefer the
 * first to the second. Each ballot is read pair by pair, every unordered
 * pair of candidates once, in the declared candidate order.
 */
module RankedPairsMatrix {
  import opened Types
  import opened Seqs
  import opened RankedChoiceBallots

  type Pair = (CandidateId, CandidateId)

  /**
   * `m[(a, b)]` stands for `matrix[a][b]`: the nested dictionary is kept as
   * one map keyed by ordered pairs.
   */
  type Matrix = map<Pair, int>

  /** The pairs `(a, b)` for each `b` of `later`, in order. */
  function Row(a: CandidateId, later: seq<CandidateId>): (ps: seq<Pair>)
    ensures |ps| == |later|
    ensures forall i :: 0 <= i < |later| ==> ps[i] == (a, later[i])
  {
    if |later| == 0 then [] else Row(a, later[..|later| - 1]) + [(a, later[|later| - 1])]
  }

  /**
   * The pair loop: `a = ids[i]` together with each `b` of `ids[i + 1:]`,
   * for i = 0, 1, … With distinct candidates no pair joins a candidate to
   * itself.
   */
  function Pairs(ids: seq<CandidateId>): (ps: seq<Pair>)
    ensures forall p :: p in ps ==> p.0 in ids && p.1 in ids
    ensures Distinct(ids) ==> forall p :: p in ps ==> p.0 != p.1
  {
    if |ids| == 0 then []
    else
      var row, rest := Row(ids[0], ids[1..]), Pairs(ids[1..]);
      assert forall p :: p in row ==> p.0 == ids[0] && p.1 in ids[1..];
      row + rest
  }

  /** How many entries of `ps` join x and y, in either orientation. */
  function Occurrences(ps: seq<Pair>, x: CandidateId, y: CandidateId): nat
  {
    if |ps| == 0 then 0
    else Occurrences(ps[..|ps| - 1], x, y) + (if ps[|ps| - 1] == (x, y) || ps[|ps| - 1] == (y, x) then 1 else 0)
  }

  lemma {:induction false} OccurrencesAppend(a: seq<Pair>, b: seq<Pair>, x: CandidateId, y: CandidateId)
    ensures Occurrences(a + b, x, y) == Occurrences(a, x, y) + Occurrences(b, x, y)
  {
    if |b| == 0 {
      assert a + b == a;
    } else {
      OccurrencesAppend(a, b[..|b| - 1], x, y);
      assert (a + b)[..|a + b| - 1] == a + b[..|b| - 1];
    }
  }

  lemma {:induction false} RowOccurrences(a: CandidateId, later: seq<CandidateId>, x: CandidateId, y: CandidateId)
    requires a !in later && Distinct(later) && x != y
    ensures Occurrences(Row(a, later), x, y) == if (x == a && y in later) || (y == a && x in later) then 1 else 0
  {
    if |later| > 0 {
      var init, last := later[..|later| - 1], later[|later| - 1];
      assert Distinct(init);
      RowOccurrences(a, init, x, y);
      assert Row(a, later)[..|later| - 1] == Row(a, init);
      assert forall c :: c in later <==> c in init || c == last;
      assert last !in init;
    }
  }

  /** With distinct candidates the pair loop meets every pair of two different candidates exactly once. */
  lemma {:induction false} PairsOnce(ids: seq<CandidateId>, x: CandidateId, y: CandidateId)
    requires Distinct(ids) && x != y
    ensures Occurrences(Pairs(ids), x, y) == if x in ids && y in ids then 1 else 0
  {
    if |ids| > 0 {
      var h, t := ids[0], ids[1..];
      assert Distinct(t);
      assert h !in t by {
        forall i | 0 <= i < |t|
          ensures t[i] != h
        {
          assert t[i] == ids[i + 1];
        }
      }
      PairsOnce(t, x, y);
      RowOccurrences(h, t, x, y);
      OccurrencesAppend(Row(h, t), Pairs(t), x, y);
      assert forall c :: c in ids <==> c == h || c in t;
    }
  }

  /** Every ordered pair of two different candidates: the matrix has no diagonal entries. */
  function OrderedPairs(ids: seq<CandidateId>): set<Pair>
  {
    set a, b | a in ids && b in ids && a != b :: (a, b)
  }

  /** A zero for every ordered pair of different candidates. */
  function ZeroMatrix(ids: seq<CandidateId>): (m: Matrix)
    ensures m.Keys == OrderedPairs(ids)
    ensures forall p :: p in m ==> m[p] == 0
  {
    map p | p in OrderedPairs(ids) :: 0
  }

  /**
   * One pair of one ballot: when the ballot states a preference between
   * `p.0` and `p.1`, the preferred side's entry gains one.
   */
  function CountPair(m: Matrix, b: RankedChoiceBallot, p: Pair): (next: Matrix)
    requires p in m && (p.1, p.0) in m
    ensures next.Keys == m.Keys
  {
    match Prefers(b, p.0, p.1)
    case Some(true) => m[p := m[p] + 1]
    case Some(false) => m[(p.1, p.0) := m[(p.1, p.0)] + 1]
    case None => m
  }

  /** The matrix entries between candidates of different pairs are set both ways. */
  ghost predicate Covers(m: Matrix, ps: seq<Pair>)
  {
    forall p :: p in ps ==> p in m && (p.1, p.0) in m
  }

  /** All pairs of one ballot, in the loop order. */
  function CountPairs(m: Matrix, b: RankedChoiceBallot, ps: seq<Pair>): (next: Matrix)
    requires Covers(m, ps)
    ensures next.Keys == m.Keys
  {
    if |ps| == 0 then m
    else
      assert Covers(m, ps[..|ps| - 1]);
      CountPair(CountPairs(m, b, ps[..|ps| - 1]), b, ps[|ps| - 1])
  }

  lemma {:induction false} PairsCovered(ids: seq<CandidateId>, m: Matrix)
    requires Distinct(ids) && m.Keys == OrderedPairs(ids)
    ensures Covers(m, Pairs(ids))
  {
    forall p | p in Pairs(ids)
      ensures p in m && (p.1, p.0) in m
    {
      assert p == (p.0, p.1);
      assert (p.0, p.1) in OrderedPairs(ids) && (p.1, p.0) in OrderedPairs(ids);
    }
  }

  /** The matrix after the non-abstaining ballots of `ballots`, starting from zero. */
  function Tally(ids: seq<CandidateId>, ballots: seq<RankedChoiceBallot>): (m: Matrix)
    requires Distinct(ids)
    ensures m.Keys == OrderedPairs(ids)
  {
    if |ballots| == 0 then ZeroMatrix(ids)
    else
      var m := Tally(ids, ballots[..|ballots| - 1]);
      var b := ballots[|ballots| - 1];
      if IsAbstention(b) then m
      else
        PairsCovered(ids, m);
        CountPairs(m, b, Pairs(ids))
  }

  /** The inner loops for one ballot, over the pairs in order. */
  method CountBallot(m: Matrix, b: RankedChoiceBallot, ps: seq<Pair>) returns (next: Matrix)
    requires Covers(m, ps)
    ensures next == CountPairs(m, b, ps)
  {
    next := m;
    var k := 0;
    while k < |ps|
      invariant 0 <= k <= |ps|
      invariant Covers(m, ps[..k])
      invariant next == CountPairs(m, b, ps[..k])
    {
      assert ps[..k + 1][..k] == ps[..k];
      var p := ps[k];
      var pref := Prefers(b, p.0, p.1);
      if pref == Some(true) {
        next := next[p := next[p] + 1];
      } else if pref == Some(false) {
        next := next[(p.1, p.0) := next[(p.1, p.0)] + 1];
      }
      k := k + 1;
    }
    assert ps[..|ps|] == ps;
  }

  /** Builds the matrix: zeros, then every non-abstaining ballot in turn. */
  method BuildPairwiseMatrix(ids: seq<CandidateId>, ballots: seq<RankedChoiceBallot>) returns (m: Matrix)
    requires Distinct(ids)
    ensures m == Tally(ids, ballots)
  {
    var pairs := Pairs(ids);
    m := ZeroMatrix(ids);
    var i := 0;
    while i < |ballots|
      invariant 0 <= i <= |ballots|
      invariant m == Tally(ids, ballots[..i])
    {
      assert ballots[..i + 1][..i] == ballots[..i];
      if !IsAbstention(ballots[i]) {
        PairsCovered(ids, m);
        m := CountBallot(m, ballots[i], pairs);
      }
      i := i + 1;
    }
    assert ballots[..|ballots|] == ballots;
  }

  /** The number of non-abstaining ballots that rank x above y. */
  ghost function Preferring(ballots: seq<RankedChoiceBallot>, x: CandidateId, y: CandidateId): nat
  {
    if |ballots| == 0 then 0
    else
      var b := ballots[|ballots| - 1];
      Preferring(ballots[..|ballots| - 1], x, y) + (if !IsAbstention(b) && RankedAbove(b.ranking, x, y) then 1 else 0)
  }

  /** On a well-formed ballot, a pair adds one to the (x, y) entry exactly when it joins x and y and x is ranked above y. */
  lemma {:induction false} CountPairEffect(m: Matrix, b: RankedChoiceBallot, p: Pair, x: CandidateId, y: CandidateId)
    requires WellFormed(b) && x != y
    requires p in m && (p.1, p.0) in m && (x, y) in m
    ensures CountPair(m, b, p)[(x, y)] ==
      m[(x, y)] + (if (p == (x, y) || p == (y, x)) && RankedAbove(b.ranking, x, y) then 1 else 0)
  {
    PrefersFollowsRanking(b, x, y);
    PrefersAntisymmetric(b, x, y);
    PrefersFollowsRanking(b, y, x);
  }

  lemma {:induction false} CountPairsEffect(m: Matrix, b: RankedChoiceBallot, ps: seq<Pair>, x: CandidateId, y: CandidateId)
    requires WellFormed(b) && x != y
    requires Covers(m, ps) && (x, y) in m
    ensures CountPairs(m, b, ps)[(x, y)] ==
      m[(x, y)] + (if RankedAbove(b.ranking, x, y) then Occurrences(ps, x, y) else 0)
  {
    if |ps| > 0 {
      var init := ps[..|ps| - 1];
      assert Covers(m, init);
      CountPairsEffect(m, b, init, x, y);
      CountPairEffect(CountPairs(m, b, init), b, ps[|ps| - 1], x, y);
    }
  }

  /**
   * With distinct candidates and well-formed ballots, `matrix[x][y]` is the
   * number of non-abstaining ballots ranking x above y.
   */
  lemma {:induction false} MatrixCounts(ids: seq<CandidateId>, ballots: seq<RankedChoiceBallot>, x: CandidateId, y: CandidateId)
    requires Distinct(ids)
    requires forall i :: 0 <= i < |ballots| ==> WellFormed(ballots[i])
    requires x in ids && y in ids && x != y
    ensures (x, y) in Tally(ids, ballots)
    ensures Tally(ids, ballots)[(x, y)] == Preferring(ballots, x, y)
  {
    assert (x, y) in OrderedPairs(ids);
    if |ballots| > 0 {
      var init, b := ballots[..|ballots| - 1], ballots[|ballots| - 1];
      assert forall i :: 0 <= i < |init| ==> init[i] == ballots[i];
      MatrixCounts(ids, init, x, y);
      if !IsAbstention(b) {
        var m := Tally(ids, init);
        PairsCovered(ids, m);
        CountPairsEffect(m, b, Pairs(ids), x, y);
        PairsOnce(ids, x, y);
      }
    }
  }

  /**
   * When every non-abstaining ballot ranks both x and y, each such ballot
   * counts on exactly one side: the two entries add up to the number of
   * non-abstaining ballots.
   */
  lemma {:induction false} MatrixPairTotal(ids: seq<CandidateId>, ballots: seq<RankedChoiceBallot>, x: CandidateId, y: CandidateId)
    requires Distinct(ids)
    requires forall i :: 0 <= i < |ballots| ==> WellFormed(ballots[i])
    requires forall i :: 0 <= i < |ballots| && !IsAbstention(ballots[i]) ==> x in ballots[i].ranking && y in ballots[i].ranking
    requires x in ids && y in ids && x != y
    ensures Tally(ids, ballots)[(x, y)] + Tally(ids, ballots)[(y, x)] == |ballots| - Abstentions(ballots)
  {
    MatrixCounts(ids, ballots, x, y);
    MatrixCounts(ids, ballots, y, x);
    PreferringSplit(ballots, x, y);
  }

  lemma {:induction false} PreferringSplit(ballots: seq<RankedChoiceBallot>, x: CandidateId, y: CandidateId)
    requires forall i :: 0 <= i < |ballots| ==> WellFormed(ballots[i])
    requires forall i :: 0 <= i < |ballots| && !IsAbstention(ballots[i]) ==> x in ballots[i].ranking && y in ballots[i].ranking
    requires x != y
    ensures Preferring(ballots, x, y) + Preferring(ballots, y, x) == |ballots| - Abstentions(ballots)
  {
    if |ballots| > 0 {
      var init, b := ballots[..|ballots| - 1], ballots[|ballots| - 1];
      assert forall i :: 0 <= i < |init| ==> init[i] == ballots[i];
      PreferringSplit(init, x, y);
      if !IsAbstention(b) {
        PrefersFollowsRanking(b, x, y);
        PrefersFollowsRanking(b, y, x);
        PrefersAntisymmetric(b, x, y);
      }
    }
  }
}
