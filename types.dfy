/**
 * Shared shapes of the voting library: candidate identifiers, the candidate
 * record, the common election result envelope and the tie-break contract.
 */
module Types {

  type CandidateId = string
  type VoterId = string

  datatype Option<T> = None | Some(value: T)

  /** Outcome of an operation that the library can reject by raising an error. */
  datatype Result<T, E> = Ok(value: T) | Err(error: E)

  /** A candidate or option that can be voted for; identity is by `id`. */
  datatype Candidate = Candidate(id: CandidateId, name: string)

  /** The result every resolution method returns (possibly inside an extension). */
  datatype ElectionResult = ElectionResult(
    winners: seq<CandidateId>,
    voteCounts: map<CandidateId, int>,
    totalBallots: nat,
    abstentions: nat,
    tiebreakApplied: bool)

  /** Picks one candidate out of a list of tied candidates. */
  type Tiebreak = seq<CandidateId> -> CandidateId

  /** The contract of every tie-break: it returns a member of its non-empty argument. */
  ghost predicate PicksMember(tiebreak: Tiebreak)
  {
    forall tied: seq<CandidateId> :: |tied| > 0 ==> tiebreak(tied) in tied
  }

  /** The identifiers of a candidate list, in declared order. */
  function Ids(candidates: seq<Candidate>): (ids: seq<CandidateId>)
    ensures |ids| == |candidates|
    ensures forall i :: 0 <= i < |candidates| ==> ids[i] == candidates[i].id
  {
    if |candidates| == 0 then [] else Ids(candidates[..|candidates| - 1]) + [candidates[|candidates| - 1].id]
  }
}
