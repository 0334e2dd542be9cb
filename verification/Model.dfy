// The records every component reads: issues, lanes and where an issue sits.
module Model {

  datatype Option<+T> = None | Some(value: T)

  type ID = string

  /** What an operation gives back, or why it refused. */
  datatype Result<+T, +R> = Ok(value: T) | Refused(refusal: R)

  datatype State = Open | InProgress | Closed

  datatype IssueType = Task | Feature | Bug | Chore | Epic

  /** An issue as claims and routing read it. frozen is whether its retention is
      archived or deleted; a container's state is derived from its children
      before it reaches here. */
  datatype Issue = Issue(
    id: ID, issueType: IssueType, lane: string, state: State, frozen: bool, assignee: string)
  {
    predicate IsContainer() { issueType.Epic? }

    /** Unfinished work: neither closed nor out of the flow. */
    predicate InPlay() { !frozen && state != Closed }
  }

  /** What an issue sits under, as far as a lane needs to know it. */
  datatype Parent = Parent(id: ID, issueType: IssueType)
  {
    predicate IsContainer() { issueType.Epic? }
  }

  /** A lane: one key inside an epic, or a lane of one (solo) keyed by an issue id. */
  datatype LaneID = LaneID(epic: ID, key: string, solo: bool)

  /** The value a LaneID variable holds before anything is stored in it. */
  const ZERO_LANE := LaneID("", "", false)

  function LaneOf(issue: Issue, parent: Option<Parent>): LaneID {
    if parent.None? || !parent.value.IsContainer() then LaneID("", issue.id, true)
    else LaneID(parent.value.id, issue.lane, false)
  }

  /** Two issues share a lane only as children of one epic under one key, or as
      the same issue: the epic alone and the key alone never identify a lane. */
  lemma LanesAreTwoShapes(a: Issue, pa: Option<Parent>, b: Issue, pb: Option<Parent>)
    ensures LaneOf(a, pa) == LaneOf(b, pb) <==>
      var soloA, soloB := pa.None? || !pa.value.IsContainer(), pb.None? || !pb.value.IsContainer();
      if soloA || soloB then soloA && soloB && a.id == b.id
      else pa.value.id == pb.value.id && a.lane == b.lane
  {
  }
}
