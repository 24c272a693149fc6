/** The single-choice ballot used by plurality: one candidate, or none for an abstention. */
module SingleChoiceBallots {
  import opened Types

  datatype SingleChoiceBallot = SingleChoiceBallot(voterId: VoterId, choice: Option<CandidateId>)

  /** An abstention is a ballot that names nobody. */
  predicate IsAbstention(b: SingleChoiceBallot)
  {
    b.choice.None?
  }

  /** Builds a ballot; any choice is accepted, including unknown candidates. */
  function CreateSingleChoiceBallot(voterId: VoterId, choice: Option<CandidateId>): (b: SingleChoiceBallot)
    ensures b.voterId == voterId
    ensures IsAbstention(b) <==> choice.None?
    ensures !IsAbstention(b) ==> b.choice.value == choice.value
  {
    SingleChoiceBallot(voterId, choice)
  }
}
