/**
 * Condorcet with ranked pairs (Tideman) completion. A candidate with a
 * positive margin over every other wins outright. Otherwise the pairwise
 * victories are sorted strongest first and locked one by one into a graph,
 * skipping any that would close a cycle; a candidate without an incoming
 * locked edge wins, the tie-break choosing among several.
 */
module RankedPairs {
  import opened Types
  import opened Seqs
  import opened RankedChoiceBallots
  import opened RankedPairsMatrix
  import opened RankedPairsGraph

  /** A pairwise victory: winner, loser, margin and the winner's votes over the loser. */
  datatype Victory = Victory(winner: CandidateId, loser: CandidateId, margin: int, winningVotes: int)

  /** A locked or skipped victory as reported: winner, loser and margin. */
  datatype Decided = Decided(winner: CandidateId, loser: CandidateId, margin: int)

  datatype RankedPairsResult = RankedPairsResult(
    base: ElectionResult,
    pairwiseMatrix: Matrix,
    hadCondorcetWinner: bool,
    lockedVictories: seq<Decided>,
    skippedVictories: seq<Decided>)

  /** Reorders the victories before sorting; stands for the random shuffle. */
  type Shuffle = seq<Victory> -> seq<Victory>

  /** The contract of the shuffle: it returns a permutation of its argument. */
  ghost predicate Shuffles(shuffle: Shuffle)
  {
    forall vs: seq<Victory> :: multiset(shuffle(vs)) == multiset(vs)
  }

  /** The margin of a over b: positive when a beats b. */
  function Margin(m: Matrix, a: CandidateId, b: CandidateId): int
  {
    Get(m, (a, b)) - Get(m, (b, a))
  }

  /**
   * On the matrix of well-formed ballots the margin of x over y is the
   * number of ballots ranking x above y less the number ranking y above x;
   * so it is the opposite of the margin of y over x.
   */
  lemma {:induction false} MarginCounts(ids: seq<CandidateId>, ballots: seq<RankedChoiceBallot>, x: CandidateId, y: CandidateId)
    requires Distinct(ids)
    requires forall i :: 0 <= i < |ballots| ==> WellFormed(ballots[i])
    requires x in ids && y in ids && x != y
    ensures Margin(Tally(ids, ballots), x, y) == Preferring(ballots, x, y) - Preferring(ballots, y, x)
    ensures Margin(Tally(ids, ballots), x, y) == -Margin(Tally(ids, ballots), y, x)
  {
    MatrixCounts(ids, ballots, x, y);
    MatrixCounts(ids, ballots, y, x);
  }

  /** The inner scan of the Condorcet check: `c` has a positive margin over every other candidate of `opponents`. */
  function BeatsAll(m: Matrix, c: CandidateId, opponents: seq<CandidateId>): (r: bool)
    ensures r <==> forall o :: o in opponents && o != c ==> Margin(m, c, o) > 0
  {
    if |opponents| == 0 then true
    else
      assert forall o :: o in opponents <==> o == opponents[0] || o in opponents[1..];
      (opponents[0] == c || Margin(m, c, opponents[0]) > 0) && BeatsAll(m, c, opponents[1..])
  }

  /** The outer scan: the first of `candidates` that beats every other candidate of `ids`. */
  function FirstBeatingAll(candidates: seq<CandidateId>, ids: seq<CandidateId>, m: Matrix): (r: Option<CandidateId>)
    ensures r.None? <==> forall c :: c in candidates ==> !BeatsAll(m, c, ids)
    ensures r.Some? ==> r.value in candidates && BeatsAll(m, r.value, ids)
  {
    if |candidates| == 0 then None
    else
      assert candidates[0] in candidates;
      assert forall c :: c in candidates <==> c == candidates[0] || c in candidates[1..];
      if BeatsAll(m, candidates[0], ids) then Some(candidates[0]) else FirstBeatingAll(candidates[1..], ids, m)
  }

  /**
   * The Condorcet winner, when there is one: it beats every other candidate,
   * and no other candidate does.
   */
  function CondorcetWinner(ids: seq<CandidateId>, m: Matrix): (r: Option<CandidateId>)
    ensures r.None? <==> forall c :: c in ids ==> !BeatsAll(m, c, ids)
    ensures r.Some? ==> r.value in ids && BeatsAll(m, r.value, ids)
    ensures r.Some? ==> forall c :: c in ids && BeatsAll(m, c, ids) ==> c == r.value
  {
    FirstBeatingAll(ids, ids, m)
  }

  /** The inner loop of the Condorcet check, leaving at the first opponent not beaten. */
  method BeatsEveryone(ids: seq<CandidateId>, m: Matrix, c: CandidateId) returns (beats: bool)
    ensures beats == BeatsAll(m, c, ids)
  {
    beats := true;
    var k := 0;
    while k < |ids|
      invariant 0 <= k <= |ids|
      invariant forall j :: 0 <= j < k ==> ids[j] == c || Margin(m, c, ids[j]) > 0
    {
      if ids[k] != c && Margin(m, c, ids[k]) <= 0 {
        beats := false;
        break;
      }
      k := k + 1;
    }
  }

  /** The outer loop of the Condorcet check: the first candidate beating every other one. */
  method FindCondorcetWinner(ids: seq<CandidateId>, m: Matrix) returns (r: Option<CandidateId>)
    ensures r == CondorcetWinner(ids, m)
  {
    var i := 0;
    while i < |ids|
      invariant 0 <= i <= |ids|
      invariant FirstBeatingAll(ids[i..], ids, m) == FirstBeatingAll(ids, ids, m)
    {
      var beats := BeatsEveryone(ids, m, ids[i]);
      if beats {
        return Some(ids[i]);
      }
      assert ids[i..][1..] == ids[i + 1..];
      i := i + 1;
    }
    return None;
  }

  /** The victories of the pairs `ps`, each oriented winner → loser; a zero margin gives none. */
  function Victories(m: Matrix, ps: seq<Pair>): (vs: seq<Victory>)
    ensures |vs| <= |ps|
  {
    if |ps| == 0 then []
    else
      var rest := Victories(m, ps[..|ps| - 1]);
      var a, b := ps[|ps| - 1].0, ps[|ps| - 1].1;
      var margin := Margin(m, a, b);
      if margin > 0 then rest + [Victory(a, b, margin, Get(m, (a, b)))]
      else if margin < 0 then rest + [Victory(b, a, -margin, Get(m, (b, a)))]
      else rest
  }

  /**
   * Every victory has a positive margin equal to the winner's margin over
   * the loser, carries the winner's votes over the loser, and comes from
   * one of the pairs.
   */
  lemma {:induction false} VictoriesSound(m: Matrix, ps: seq<Pair>)
    ensures forall v :: v in Victories(m, ps) ==>
      && v.margin > 0 && v.margin == Margin(m, v.winner, v.loser) && v.winningVotes == Get(m, (v.winner, v.loser))
      && ((v.winner, v.loser) in ps || (v.loser, v.winner) in ps)
  {
    if |ps| > 0 {
      VictoriesSound(m, ps[..|ps| - 1]);
      assert forall p :: p in ps[..|ps| - 1] ==> p in ps;
    }
  }

  /** The pair loop gathering the victories. */
  method CollectVictories(ids: seq<CandidateId>, m: Matrix) returns (victories: seq<Victory>)
    ensures victories == Victories(m, Pairs(ids))
  {
    var ps := Pairs(ids);
    victories := [];
    var k := 0;
    while k < |ps|
      invariant 0 <= k <= |ps|
      invariant victories == Victories(m, ps[..k])
    {
      assert ps[..k + 1][..k] == ps[..k];
      var a, b := ps[k].0, ps[k].1;
      var margin := Margin(m, a, b);
      if margin > 0 {
        victories := victories + [Victory(a, b, margin, Get(m, (a, b)))];
      } else if margin < 0 {
        victories := victories + [Victory(b, a, -margin, Get(m, (b, a)))];
      }
      k := k + 1;
    }
    assert ps[..|ps|] == ps;
  }

  /** How many of the victories are between x and y, in either direction. */
  function VictoriesBetween(vs: seq<Victory>, x: CandidateId, y: CandidateId): nat
  {
    if |vs| == 0 then 0
    else
      var v := vs[|vs| - 1];
      VictoriesBetween(vs[..|vs| - 1], x, y) + (if (v.winner, v.loser) == (x, y) || (v.winner, v.loser) == (y, x) then 1 else 0)
  }

  lemma {:induction false} VictoriesOccurrences(m: Matrix, ps: seq<Pair>, x: CandidateId, y: CandidateId)
    requires x != y
    ensures VictoriesBetween(Victories(m, ps), x, y) == if Margin(m, x, y) != 0 then Occurrences(ps, x, y) else 0
  {
    if |ps| > 0 {
      VictoriesOccurrences(m, ps[..|ps| - 1], x, y);
      var rest := Victories(m, ps[..|ps| - 1]);
      var a, b := ps[|ps| - 1].0, ps[|ps| - 1].1;
      var margin := Margin(m, a, b);
      if margin > 0 {
        assert (rest + [Victory(a, b, margin, Get(m, (a, b)))])[..|rest|] == rest;
      } else if margin < 0 {
        assert (rest + [Victory(b, a, -margin, Get(m, (b, a)))])[..|rest|] == rest;
      }
    }
  }

  /**
   * With distinct candidates there is exactly one victory between two
   * different candidates when their margin is not zero, and none when it is.
   */
  lemma {:induction false} OneVictoryPerPair(ids: seq<CandidateId>, m: Matrix, x: CandidateId, y: CandidateId)
    requires Distinct(ids) && x in ids && y in ids && x != y
    ensures VictoriesBetween(Victories(m, Pairs(ids)), x, y) == if Margin(m, x, y) != 0 then 1 else 0
  {
    VictoriesOccurrences(m, Pairs(ids), x, y);
    PairsOnce(ids, x, y);
  }

  /** u comes no later than v: a larger margin, or the same margin and at least as many winning votes. */
  predicate AtLeast(u: Victory, v: Victory)
  {
    u.margin > v.margin || (u.margin == v.margin && u.winningVotes >= v.winningVotes)
  }

  ghost predicate SortedByStrength(vs: seq<Victory>)
  {
    forall i, j :: 0 <= i < j < |vs| ==> AtLeast(vs[i], vs[j])
  }

  /** The insertion point of v: the first position whose victory is not at least as strong as v. */
  function Slot(s: seq<Victory>, v: Victory): (k: nat)
    ensures k <= |s|
    ensures forall j :: 0 <= j < k ==> AtLeast(s[j], v)
    ensures k == |s| || !AtLeast(s[k], v)
  {
    if |s| == 0 || !AtLeast(s[0], v) then 0 else 1 + Slot(s[1..], v)
  }

  /** Inserts v after every element at least as strong: a stable insertion. */
  function Insert(s: seq<Victory>, v: Victory): (r: seq<Victory>)
    ensures multiset(r) == multiset(s) + multiset{v}
  {
    var k := Slot(s, v);
    assert s == s[..k] + s[k..];
    s[..k] + [v] + s[k..]
  }

  /**
   * Sorting by margin, then by winning votes, both descending, keeping the
   * incoming order among equals: the two stable sorts of the library, first
   * by the secondary key and then by the primary one, in one pass.
   */
  function SortByStrength(vs: seq<Victory>): (r: seq<Victory>)
    ensures multiset(r) == multiset(vs)
  {
    if |vs| == 0 then []
    else
      assert vs == vs[..|vs| - 1] + [vs[|vs| - 1]];
      Insert(SortByStrength(vs[..|vs| - 1]), vs[|vs| - 1])
  }

  lemma {:induction false} InsertSorted(s: seq<Victory>, v: Victory)
    requires SortedByStrength(s)
    ensures SortedByStrength(Insert(s, v))
  {
    var k := Slot(s, v);
    var r := Insert(s, v);
    assert forall i :: 0 <= i < |r| ==> r[i] == if i < k then s[i] else if i == k then v else s[i - 1];
    forall i, j | 0 <= i < j < |r|
      ensures AtLeast(r[i], r[j])
    {
      if i == k && j - 1 > k {
        assert AtLeast(s[k], s[j - 1]);
      }
    }
  }

  /** The sort returns the victories, strongest first. */
  lemma {:induction false} SortByStrengthSorted(vs: seq<Victory>)
    ensures SortedByStrength(SortByStrength(vs))
  {
    if |vs| > 0 {
      SortByStrengthSorted(vs[..|vs| - 1]);
      InsertSorted(SortByStrength(vs[..|vs| - 1]), vs[|vs| - 1]);
    }
  }

  /** The scan of the insertion. */
  method FindSlot(sorted: seq<Victory>, v: Victory) returns (k: int)
    ensures k == Slot(sorted, v)
  {
    k := 0;
    while k < |sorted| && AtLeast(sorted[k], v)
      invariant 0 <= k <= |sorted|
      invariant Slot(sorted, v) == k + Slot(sorted[k..], v)
    {
      assert sorted[k..][1..] == sorted[k + 1..];
      k := k + 1;
    }
  }

  /**
   * Shuffles the victories, then sorts them strongest first: the result is
   * a permutation of the victories ordered by margin and then by winning
   * votes.
   */
  method SortVictories(victories: seq<Victory>, shuffle: Shuffle) returns (sorted: seq<Victory>)
    ensures sorted == SortByStrength(shuffle(victories))
  {
    var shuffled := shuffle(victories);
    sorted := [];
    var i := 0;
    while i < |shuffled|
      invariant 0 <= i <= |shuffled|
      invariant sorted == SortByStrength(shuffled[..i])
    {
      var v := shuffled[i];
      var k := FindSlot(sorted, v);
      assert shuffled[..i + 1][..i] == shuffled[..i];
      sorted := sorted[..k] + [v] + sorted[k..];
      i := i + 1;
    }
    assert shuffled[..|shuffled|] == shuffled;
  }

  /** The sorted victories are a permutation of the victories, strongest first. */
  lemma {:induction false} SortVictoriesSpec(victories: seq<Victory>, shuffle: Shuffle)
    requires Shuffles(shuffle)
    ensures multiset(SortByStrength(shuffle(victories))) == multiset(victories)
    ensures SortedByStrength(SortByStrength(shuffle(victories)))
  {
    SortByStrengthSorted(shuffle(victories));
  }

  datatype LockState = LockState(graph: Graph, locked: seq<Decided>, skipped: seq<Decided>)

  function AsDecided(v: Victory): Decided
  {
    Decided(v.winner, v.loser, v.margin)
  }

  /** A row with no edges for every candidate. */
  function EmptyGraph(ids: seq<CandidateId>): (g: Graph)
    ensures g.Keys == ToSet(ids)
    ensures forall c :: c in g ==> g[c] == {}
  {
    map c | c in ids :: {}
  }

  /** Every victory's winner has a row in the graph. */
  ghost predicate WinnersHaveRows(g: Graph, vs: seq<Victory>)
  {
    forall v :: v in vs ==> v.winner in g
  }

  /** One locking step: skip v when its loser already reaches its winner, lock it otherwise. */
  ghost function LockNext(st: LockState, v: Victory): (next: LockState)
    requires v.winner in st.graph
    ensures next.graph.Keys == st.graph.Keys
  {
    if Reaches(st.graph, v.loser, v.winner) then LockState(st.graph, st.locked, st.skipped + [AsDecided(v)])
    else LockState(AddEdge(st.graph, v.winner, v.loser), st.locked + [AsDecided(v)], st.skipped)
  }

  /** Locks the victories in order. */
  ghost function LockAll(g0: Graph, vs: seq<Victory>): (st: LockState)
    requires WinnersHaveRows(g0, vs)
    ensures st.graph.Keys == g0.Keys
  {
    if |vs| == 0 then LockState(g0, [], [])
    else
      assert WinnersHaveRows(g0, vs[..|vs| - 1]);
      LockNext(LockAll(g0, vs[..|vs| - 1]), vs[|vs| - 1])
  }

  /** The locking step on concrete state, with the cycle check done by search. */
  method LockOne(graph: Graph, locked: seq<Decided>, skipped: seq<Decided>, v: Victory)
    returns (graph': Graph, locked': seq<Decided>, skipped': seq<Decided>)
    requires v.winner in graph
    ensures LockState(graph', locked', skipped') == LockNext(LockState(graph, locked, skipped), v)
  {
    var cycle := WouldCreateCycle(graph, v.winner, v.loser);
    if cycle {
      graph', locked', skipped' := graph, locked, skipped + [Decided(v.winner, v.loser, v.margin)];
    } else {
      graph' := graph[v.winner := graph[v.winner] + {v.loser}];
      locked', skipped' := locked + [Decided(v.winner, v.loser, v.margin)], skipped;
    }
  }

  /** The locking loop over the sorted victories. */
  method LockVictories(ids: seq<CandidateId>, sorted: seq<Victory>)
    returns (graph: Graph, locked: seq<Decided>, skipped: seq<Decided>)
    requires WinnersHaveRows(EmptyGraph(ids), sorted)
    ensures LockState(graph, locked, skipped) == LockAll(EmptyGraph(ids), sorted)
  {
    graph := map c | c in ids :: {};
    locked, skipped := [], [];
    var i := 0;
    while i < |sorted|
      invariant 0 <= i <= |sorted|
      invariant WinnersHaveRows(EmptyGraph(ids), sorted[..i])
      invariant LockState(graph, locked, skipped) == LockAll(EmptyGraph(ids), sorted[..i])
    {
      assert sorted[..i + 1][..i] == sorted[..i];
      assert sorted[i] in sorted;
      graph, locked, skipped := LockOne(graph, locked, skipped, sorted[i]);
      i := i + 1;
    }
    assert sorted[..|sorted|] == sorted;
  }

  lemma {:induction false} EmptyGraphAcyclic(ids: seq<CandidateId>)
    ensures Acyclic(EmptyGraph(ids))
  {
  }

  /** Locking keeps the graph acyclic. */
  lemma {:induction false} LockAcyclic(g0: Graph, vs: seq<Victory>)
    requires WinnersHaveRows(g0, vs) && Acyclic(g0)
    ensures Acyclic(LockAll(g0, vs).graph)
  {
    if |vs| > 0 {
      var v := vs[|vs| - 1];
      assert WinnersHaveRows(g0, vs[..|vs| - 1]);
      LockAcyclic(g0, vs[..|vs| - 1]);
      var st := LockAll(g0, vs[..|vs| - 1]);
      if !Reaches(st.graph, v.loser, v.winner) {
        AddEdgeAcyclic(st.graph, v.winner, v.loser);
      }
    }
  }

  /** Each victory lands in exactly one of the locked and skipped lists. */
  lemma {:induction false} LockPartition(g0: Graph, vs: seq<Victory>)
    requires WinnersHaveRows(g0, vs)
    ensures |LockAll(g0, vs).locked| + |LockAll(g0, vs).skipped| == |vs|
    ensures multiset(LockAll(g0, vs).locked) + multiset(LockAll(g0, vs).skipped) ==
      multiset(seq(|vs|, i requires 0 <= i < |vs| => AsDecided(vs[i])))
  {
    if |vs| > 0 {
      var init := vs[..|vs| - 1];
      assert WinnersHaveRows(g0, init);
      LockPartition(g0, init);
      var all := seq(|vs|, i requires 0 <= i < |vs| => AsDecided(vs[i]));
      assert all == seq(|init|, i requires 0 <= i < |init| => AsDecided(init[i])) + [AsDecided(vs[|vs| - 1])];
    }
  }

  /** A path survives the addition of an edge. */
  lemma {:induction false} ReachesAfterAddEdge(g: Graph, w: CandidateId, l: CandidateId, a: CandidateId, b: CandidateId)
    requires w in g && Reaches(g, a, b)
    ensures Reaches(AddEdge(g, w, l), a, b)
  {
    var path :| IsPath(g, path) && path[0] == a && path[|path| - 1] == b;
    assert IsPath(AddEdge(g, w, l), path);
  }

  /**
   * Every locked victory is an edge of the final graph, and every skipped
   * victory's loser reaches its winner there: locking it would close a
   * cycle.
   */
  lemma {:induction false} LockJustified(g0: Graph, vs: seq<Victory>)
    requires WinnersHaveRows(g0, vs)
    ensures var st := LockAll(g0, vs);
      && (forall d :: d in st.locked ==> d.winner in st.graph && d.loser in st.graph[d.winner])
      && (forall d :: d in st.skipped ==> Reaches(st.graph, d.loser, d.winner))
  {
    if |vs| > 0 {
      var v := vs[|vs| - 1];
      assert WinnersHaveRows(g0, vs[..|vs| - 1]);
      LockJustified(g0, vs[..|vs| - 1]);
      var st := LockAll(g0, vs[..|vs| - 1]);
      if !Reaches(st.graph, v.loser, v.winner) {
        forall d | d in st.skipped
          ensures Reaches(AddEdge(st.graph, v.winner, v.loser), d.loser, d.winner)
        {
          ReachesAfterAddEdge(st.graph, v.winner, v.loser, d.loser, d.winner);
        }
      }
    }
  }

  /** One source wins; several go to the tie-break; none leaves no winner. */
  function PickWinner(sources: seq<CandidateId>, tiebreak: Tiebreak): (w: Option<CandidateId>)
    ensures PicksMember(tiebreak) ==> (w.Some? <==> |sources| > 0) && (w.Some? ==> w.value in sources)
  {
    if |sources| == 1 then Some(sources[0])
    else if |sources| == 0 then None
    else Some(tiebreak(sources))
  }

  /** The locking state after sorting the victories of the matrix with the given shuffle. */
  ghost function Completion(ids: seq<CandidateId>, m: Matrix, shuffle: Shuffle): (st: LockState)
    requires Distinct(ids) && Shuffles(shuffle)
  {
    var sorted := SortByStrength(shuffle(Victories(m, Pairs(ids))));
    SortedWinnersHaveRows(ids, m, shuffle);
    LockAll(EmptyGraph(ids), sorted)
  }

  lemma {:induction false} SortedWinnersHaveRows(ids: seq<CandidateId>, m: Matrix, shuffle: Shuffle)
    requires Shuffles(shuffle)
    ensures WinnersHaveRows(EmptyGraph(ids), SortByStrength(shuffle(Victories(m, Pairs(ids)))))
  {
    var vs := Victories(m, Pairs(ids));
    VictoriesSound(m, Pairs(ids));
    var sorted := SortByStrength(shuffle(vs));
    forall v | v in sorted
      ensures v.winner in EmptyGraph(ids)
    {
      assert v in multiset(sorted);
      assert v in vs;
    }
  }

  /**
   * Ranked pairs proper: the victories, sorted, locked in order, and the
   * winner picked among the sources of the locked graph.
   */
  method ApplyRankedPairs(ids: seq<CandidateId>, m: Matrix, tiebreak: Tiebreak, shuffle: Shuffle)
    returns (winner: Option<CandidateId>, sources: seq<CandidateId>, locked: seq<Decided>, skipped: seq<Decided>)
    requires Distinct(ids) && Shuffles(shuffle)
    ensures var st := Completion(ids, m, shuffle);
      && locked == st.locked && skipped == st.skipped
      && sources == Sources(ids, Incoming(st.graph))
      && winner == PickWinner(sources, tiebreak)
  {
    var victories := CollectVictories(ids, m);
    var sorted := SortVictories(victories, shuffle);
    SortedWinnersHaveRows(ids, m, shuffle);
    var graph;
    graph, locked, skipped := LockVictories(ids, sorted);
    var hasIncoming := CollectIncoming(graph);
    sources := Sources(ids, hasIncoming);
    winner := PickWinner(sources, tiebreak);
  }

  /**
   * With at least one candidate the locked graph is acyclic and has a
   * source, so ranked pairs always names a winner, and that winner is a
   * source of the locked graph.
   */
  lemma {:induction false} CompletionWinner(ids: seq<CandidateId>, m: Matrix, tiebreak: Tiebreak, shuffle: Shuffle)
    requires Distinct(ids) && Shuffles(shuffle) && PicksMember(tiebreak) && |ids| > 0
    ensures var st := Completion(ids, m, shuffle);
      && Acyclic(st.graph)
      && |Sources(ids, Incoming(st.graph))| > 0
      && PickWinner(Sources(ids, Incoming(st.graph)), tiebreak).Some?
      && PickWinner(Sources(ids, Incoming(st.graph)), tiebreak).value in Sources(ids, Incoming(st.graph))
  {
    var sorted := SortByStrength(shuffle(Victories(m, Pairs(ids))));
    SortedWinnersHaveRows(ids, m, shuffle);
    EmptyGraphAcyclic(ids);
    LockAcyclic(EmptyGraph(ids), sorted);
    SourceExists(ids, Completion(ids, m, shuffle).graph);
  }

  /** The number of candidates of `opponents` other than c that c beats head to head. */
  function Wins(m: Matrix, c: CandidateId, opponents: seq<CandidateId>): (n: nat)
    ensures n <= |opponents|
  {
    if |opponents| == 0 then 0
    else
      var o := opponents[|opponents| - 1];
      Wins(m, c, opponents[..|opponents| - 1]) + (if o != c && Margin(m, c, o) > 0 then 1 else 0)
  }

  /** The pairwise-win counts reported as vote counts, candidate by candidate. */
  method CountWins(ids: seq<CandidateId>, m: Matrix) returns (counts: map<CandidateId, int>)
    ensures counts.Keys == ToSet(ids)
    ensures forall c :: c in counts ==> counts[c] == Wins(m, c, ids)
    ensures counts == WinCounts(ids, m)
  {
    counts := map[];
    var i := 0;
    while i < |ids|
      invariant 0 <= i <= |ids|
      invariant counts.Keys == ToSet(ids[..i])
      invariant forall c :: c in counts ==> counts[c] == Wins(m, c, ids)
    {
      assert ToSet(ids[..i + 1]) == ToSet(ids[..i]) + {ids[i]} by {
        assert ids[..i + 1] == ids[..i] + [ids[i]];
      }
      counts := counts[ids[i] := Wins(m, ids[i], ids)];
      i := i + 1;
    }
    assert ids[..|ids|] == ids;
  }

  /** A candidate beating every other candidate of distinct `opponents` wins against all of them. */
  lemma {:induction false} WinsAll(m: Matrix, c: CandidateId, opponents: seq<CandidateId>)
    requires Distinct(opponents)
    requires forall o :: o in opponents && o != c ==> Margin(m, c, o) > 0
    ensures Wins(m, c, opponents) == |opponents| - (if c in opponents then 1 else 0)
  {
    if |opponents| > 0 {
      var init := opponents[..|opponents| - 1];
      assert Distinct(init);
      assert forall o :: o in init ==> o in opponents;
      WinsAll(m, c, init);
      assert forall o :: o in opponents <==> o in init || o == opponents[|opponents| - 1];
    }
  }

  /** A candidate that does not beat some other opponent misses at least one win. */
  lemma {:induction false} WinsMissing(m: Matrix, d: CandidateId, opponents: seq<CandidateId>, c: CandidateId)
    requires Distinct(opponents)
    requires c in opponents && c != d && Margin(m, d, c) <= 0
    ensures Wins(m, d, opponents) + 1 + (if d in opponents then 1 else 0) <= |opponents|
  {
    var init, last := opponents[..|opponents| - 1], opponents[|opponents| - 1];
    assert Distinct(init);
    assert forall o :: o in opponents <==> o in init || o == last;
    if last == c {
      assert c !in init by {
        assert forall i :: 0 <= i < |init| ==> init[i] == opponents[i];
      }
      WinsAtMost(m, d, init);
    } else {
      WinsMissing(m, d, init, c);
    }
  }

  /** Nobody beats themselves: at most one win per other opponent. */
  lemma {:induction false} WinsAtMost(m: Matrix, d: CandidateId, opponents: seq<CandidateId>)
    requires Distinct(opponents)
    ensures Wins(m, d, opponents) + (if d in opponents then 1 else 0) <= |opponents|
  {
    if |opponents| > 0 {
      var init, last := opponents[..|opponents| - 1], opponents[|opponents| - 1];
      assert Distinct(init);
      assert forall o :: o in opponents <==> o in init || o == last;
      assert last !in init by {
        assert forall i :: 0 <= i < |init| ==> init[i] == opponents[i];
      }
      WinsAtMost(m, d, init);
    }
  }

  /**
   * The Condorcet winner has the most pairwise wins: one against each other
   * candidate, while everybody else has fewer.
   */
  lemma {:induction false} CondorcetWins(ids: seq<CandidateId>, m: Matrix, c: CandidateId, d: CandidateId)
    requires Distinct(ids) && c in ids && BeatsAll(m, c, ids)
    requires d in ids && d != c
    ensures Wins(m, c, ids) == |ids| - 1
    ensures Wins(m, d, ids) < |ids| - 1
  {
    WinsAll(m, c, ids);
    WinsMissing(m, d, ids, c);
  }

  /** tiebreak_applied as written: no winner, or some victory skipped. */
  function TiebreakAppliedAsWritten(winner: Option<CandidateId>, skipped: seq<Decided>): bool
  {
    winner.None? || |skipped| > 0
  }

  /** tiebreak_applied corrected: the tie-break chose among several sources (or had to), or some victory was skipped. */
  function TiebreakApplied(sources: seq<CandidateId>, skipped: seq<Decided>): bool
  {
    |sources| != 1 || |skipped| > 0
  }

  /** The number of non-abstaining ballots; with the abstentions they make up every ballot. */
  function Voting(ballots: seq<RankedChoiceBallot>): (n: nat)
    ensures n + Abstentions(ballots) == |ballots|
  {
    if |ballots| == 0 then 0
    else Voting(ballots[..|ballots| - 1]) + (if IsAbstention(ballots[|ballots| - 1]) then 0 else 1)
  }

  /** The vote counts reported with a matrix: each candidate's pairwise wins. */
  function WinCounts(ids: seq<CandidateId>, m: Matrix): (counts: map<CandidateId, int>)
    ensures counts.Keys == ToSet(ids)
  {
    map c | c in ids :: Wins(m, c, ids)
  }

  /** The result with at least two candidates and the matrix `m`. */
  ghost function ContestedOutcome(ids: seq<CandidateId>, m: Matrix, total: nat, abstentions: nat, tiebreak: Tiebreak,
    shuffle: Shuffle, includeMatrix: bool): RankedPairsResult
    requires Distinct(ids) && Shuffles(shuffle)
  {
    var condorcet := CondorcetWinner(ids, m);
    var reported := if includeMatrix then m else map[];
    if condorcet.Some? then
      RankedPairsResult(ElectionResult([condorcet.value], WinCounts(ids, m), total, abstentions, false), reported, true, [], [])
    else
      var st := Completion(ids, m, shuffle);
      var sources := Sources(ids, Incoming(st.graph));
      var winner := PickWinner(sources, tiebreak);
      var w := if winner.Some? then winner.value else tiebreak(ids);
      RankedPairsResult(ElectionResult([w], WinCounts(ids, m), total, abstentions, TiebreakApplied(sources, st.skipped)),
        reported, false, st.locked, st.skipped)
  }

  /** The result `resolve_ranked_pairs` describes, case by case. */
  ghost function Outcome(ids: seq<CandidateId>, ballots: seq<RankedChoiceBallot>, tiebreak: Tiebreak, shuffle: Shuffle,
    includeMatrix: bool): (r: RankedPairsResult)
    requires Distinct(ids) && Shuffles(shuffle)
  {
    var total, abstentions := |ballots|, Abstentions(ballots);
    if |ids| == 0 then
      RankedPairsResult(ElectionResult([], map[], total, abstentions, false), map[], false, [], [])
    else if |ids| == 1 then
      RankedPairsResult(ElectionResult([ids[0]], map[ids[0] := Voting(ballots)], total, abstentions, false),
        map[], true, [], [])
    else
      ContestedOutcome(ids, Tally(ids, ballots), total, abstentions, tiebreak, shuffle, includeMatrix)
  }

  /** The Condorcet check, then, failing a Condorcet winner, the ranked pairs completion. */
  method ResolveContested(ids: seq<CandidateId>, m: Matrix, total: nat, abstentions: nat, tiebreak: Tiebreak,
    shuffle: Shuffle, includeMatrix: bool) returns (result: RankedPairsResult)
    requires Distinct(ids) && Shuffles(shuffle)
    ensures result == ContestedOutcome(ids, m, total, abstentions, tiebreak, shuffle, includeMatrix)
  {
    var reported := if includeMatrix then m else map[];
    var condorcet := FindCondorcetWinner(ids, m);
    var counts := CountWins(ids, m);
    if condorcet.Some? {
      return RankedPairsResult(ElectionResult([condorcet.value], counts, total, abstentions, false), reported, true, [], []);
    }
    var winner, sources, locked, skipped := ApplyRankedPairs(ids, m, tiebreak, shuffle);
    var applied := TiebreakApplied(sources, skipped);
    var w := if winner.Some? then winner.value else tiebreak(ids);
    result := RankedPairsResult(ElectionResult([w], counts, total, abstentions, applied), reported, false, locked, skipped);
  }

  /**
   * Resolves an election: no candidates, a single candidate, a Condorcet
   * winner, or the ranked pairs completion.
   */
  method ResolveRankedPairs(candidates: seq<Candidate>, ballots: seq<RankedChoiceBallot>, tiebreak: Tiebreak, shuffle: Shuffle,
    includeMatrix: bool) returns (result: RankedPairsResult)
    requires Distinct(Ids(candidates)) && Shuffles(shuffle)
    ensures result == Outcome(Ids(candidates), ballots, tiebreak, shuffle, includeMatrix)
  {
    var ids := Ids(candidates);
    var abstentions := Abstentions(ballots);
    if |candidates| == 0 {
      return RankedPairsResult(ElectionResult([], map[], |ballots|, abstentions, false), map[], false, [], []);
    }
    if |candidates| == 1 {
      return RankedPairsResult(
        ElectionResult([ids[0]], map[ids[0] := |ballots| - abstentions], |ballots|, abstentions, false),
        map[], true, [], []);
    }
    var m := BuildPairwiseMatrix(ids, ballots);
    result := ResolveContested(ids, m, |ballots|, abstentions, tiebreak, shuffle, includeMatrix);
  }

  /**
   * A candidate whom more ballots rank above each other candidate than the
   * reverse is the Condorcet winner: it is the single winner, with a
   * pairwise win over every other candidate and more wins than anyone else,
   * and no victory is locked or skipped and no tie-break is applied.
   */
  lemma {:induction false} CondorcetWinnerWins(ids: seq<CandidateId>, ballots: seq<RankedChoiceBallot>, tiebreak: Tiebreak,
    shuffle: Shuffle, includeMatrix: bool, c: CandidateId)
    requires Distinct(ids) && Shuffles(shuffle) && |ids| >= 2
    requires forall i :: 0 <= i < |ballots| ==> WellFormed(ballots[i])
    requires c in ids
    requires forall o :: o in ids && o != c ==> Preferring(ballots, c, o) > Preferring(ballots, o, c)
    ensures var r := Outcome(ids, ballots, tiebreak, shuffle, includeMatrix);
      && r.base.winners == [c] && r.hadCondorcetWinner && !r.base.tiebreakApplied
      && r.lockedVictories == [] && r.skippedVictories == []
      && c in r.base.voteCounts && r.base.voteCounts[c] == |ids| - 1
      && (forall d :: d in ids && d != c ==> d in r.base.voteCounts && r.base.voteCounts[d] < |ids| - 1)
  {
    var m := Tally(ids, ballots);
    forall o | o in ids && o != c
      ensures Margin(m, c, o) > 0
    {
      MarginCounts(ids, ballots, c, o);
    }
    assert BeatsAll(m, c, ids);
    forall d | d in ids && d != c
      ensures Wins(m, d, ids) < |ids| - 1
    {
      CondorcetWins(ids, m, c, d);
    }
    assert c in ToSet(ids);
    CondorcetWins(ids, m, c, if ids[0] == c then ids[1] else ids[0]);
  }

  /**
   * Without a Condorcet winner the locked graph is acyclic, the winner is
   * one of its sources, the tie-break is consulted exactly when there are
   * several, and tiebreak_applied is set exactly when the tie-break chose
   * among several sources or a victory was skipped.
   */
  lemma {:induction false} CompletionOutcome(ids: seq<CandidateId>, m: Matrix, total: nat, abstentions: nat,
    tiebreak: Tiebreak, shuffle: Shuffle, includeMatrix: bool)
    requires Distinct(ids) && Shuffles(shuffle) && PicksMember(tiebreak) && |ids| >= 2
    requires CondorcetWinner(ids, m).None?
    ensures var r := ContestedOutcome(ids, m, total, abstentions, tiebreak, shuffle, includeMatrix);
      var st := Completion(ids, m, shuffle);
      var sources := Sources(ids, Incoming(st.graph));
      && Acyclic(st.graph) && |sources| > 0
      && |r.base.winners| == 1 && r.base.winners[0] in sources
      && (|sources| > 1 ==> r.base.winners == [tiebreak(sources)])
      && (r.base.tiebreakApplied <==> |sources| > 1 || |st.skipped| > 0)
      && !r.hadCondorcetWinner
      && r.lockedVictories == st.locked && r.skippedVictories == st.skipped
  {
    CompletionWinner(ids, m, tiebreak, shuffle);
  }

  /** With two candidates or more there is one winner, a candidate, and every candidate has a count. */
  lemma {:induction false} ContestedWinner(ids: seq<CandidateId>, m: Matrix, total: nat, abstentions: nat,
    tiebreak: Tiebreak, shuffle: Shuffle, includeMatrix: bool)
    requires Distinct(ids) && Shuffles(shuffle) && PicksMember(tiebreak) && |ids| >= 2
    ensures var r := ContestedOutcome(ids, m, total, abstentions, tiebreak, shuffle, includeMatrix);
      && |r.base.winners| == 1 && r.base.winners[0] in ids
      && r.base.voteCounts.Keys == ToSet(ids)
      && r.base.totalBallots == total && r.base.abstentions == abstentions
  {
    if CondorcetWinner(ids, m).None? {
      CompletionOutcome(ids, m, total, abstentions, tiebreak, shuffle, includeMatrix);
    }
  }

  /**
   * With at least one candidate there is exactly one winner, a candidate;
   * every case counts the ballots and the abstentions.
   */
  lemma {:induction false} OutcomeWinner(ids: seq<CandidateId>, ballots: seq<RankedChoiceBallot>, tiebreak: Tiebreak,
    shuffle: Shuffle, includeMatrix: bool)
    requires Distinct(ids) && Shuffles(shuffle) && PicksMember(tiebreak)
    ensures var r := Outcome(ids, ballots, tiebreak, shuffle, includeMatrix);
      && r.base.totalBallots == |ballots| && r.base.abstentions == Abstentions(ballots)
      && (|ids| == 0 <==> r.base.winners == [])
      && (|ids| > 0 ==> |r.base.winners| == 1 && r.base.winners[0] in ids)
      && r.base.voteCounts.Keys == ToSet(ids)
  {
    if |ids| == 1 {
      assert ToSet(ids) == {ids[0]};
    } else if |ids| >= 2 {
      ContestedWinner(ids, Tally(ids, ballots), |ballots|, Abstentions(ballots), tiebreak, shuffle, includeMatrix);
    }
  }

  /** Two candidates make one pair. */
  lemma {:induction false} TwoCandidatesOnePair(a: CandidateId, b: CandidateId)
    ensures Pairs([a, b]) == [(a, b)]
  {
    assert [a, b][1..] == [b];
    assert Pairs([b]) == [] by {
      assert [b][1..] == [];
    }
    assert Row(a, [b]) == [(a, b)];
  }

  /** A tie between two candidates: no Condorcet winner and no victory. */
  lemma {:induction false} TieNoVictory(a: CandidateId, b: CandidateId, m: Matrix)
    requires a != b && Margin(m, a, b) == 0
    ensures CondorcetWinner([a, b], m).None?
    ensures Victories(m, Pairs([a, b])) == []
  {
    assert Margin(m, b, a) == 0;
    assert !BeatsAll(m, a, [a, b]) && !BeatsAll(m, b, [a, b]);
    TwoCandidatesOnePair(a, b);
    assert [(a, b)][..0] == [];
  }

  /** Without ballots two candidates tie. */
  lemma {:induction false} NoBallotsTie(a: CandidateId, b: CandidateId)
    requires a != b
    ensures Distinct([a, b]) && Margin(Tally([a, b], []), a, b) == 0
  {
    var ids := [a, b];
    assert Distinct(ids);
    assert (a, b) in OrderedPairs(ids) && (b, a) in OrderedPairs(ids);
  }

  /** With no victory nothing is locked or skipped and the graph stays empty. */
  lemma {:induction false} NoVictoryLocksNothing(ids: seq<CandidateId>, m: Matrix, shuffle: Shuffle)
    requires Distinct(ids) && Shuffles(shuffle) && Victories(m, Pairs(ids)) == []
    ensures Completion(ids, m, shuffle) == LockState(EmptyGraph(ids), [], [])
  {
    var none := shuffle([]);
    assert |multiset(none)| == 0;
    SortedWinnersHaveRows(ids, m, shuffle);
  }

  /** Without incoming edges every candidate is a source. */
  lemma {:induction false} SourcesWithoutIncoming(ids: seq<CandidateId>)
    ensures Sources(ids, {}) == ids
  {
    if |ids| > 0 {
      SourcesWithoutIncoming(ids[..|ids| - 1]);
      assert ids[..|ids| - 1] + [ids[|ids| - 1]] == ids;
    }
  }

  /**
   * tiebreak_applied as written misses the tie-break among sources: with two
   * candidates and no ballots there is no Condorcet winner and no victory,
   * both candidates are sources and the tie-break picks the winner, yet the
   * flag as written stays false.
   */
  lemma {:induction false} TiebreakFlagAsWrittenMissesTie(a: CandidateId, b: CandidateId, tiebreak: Tiebreak, shuffle: Shuffle)
    requires a != b && Shuffles(shuffle)
    ensures var ids := [a, b];
      var m := Tally(ids, []);
      var st := Completion(ids, m, shuffle);
      var sources := Sources(ids, Incoming(st.graph));
      && CondorcetWinner(ids, m).None?
      && sources == [a, b] && st.skipped == []
      && PickWinner(sources, tiebreak) == Some(tiebreak([a, b]))
      && !TiebreakAppliedAsWritten(PickWinner(sources, tiebreak), st.skipped)
      && TiebreakApplied(sources, st.skipped)
  {
    var ids := [a, b];
    assert Distinct(ids);
    NoBallotsTie(a, b);
    TieNoVictory(a, b, Tally(ids, []));
    NoVictoryLocksNothing(ids, Tally(ids, []), shuffle);
    assert Incoming(EmptyGraph(ids)) == {};
    SourcesWithoutIncoming(ids);
  }
}
