// internal/cli/readiness.go: annotations read as what stops an issue.
module Readiness {
  import opened Model

  datatype Kind =
    | MissingField | OpenDependency | InheritedDependency | RankInversion | Orphaned
    | NeedsDesign | External | EarlierSiblingPending | FocusPath

  datatype Role = Blocking | OrphanedRole | RankInversionRole | NoRole

  function RoleOf(kind: Kind): Role {
    match kind
    case RankInversion => RankInversionRole
    case Orphaned => OrphanedRole
    case FocusPath => NoRole
    case _ => Blocking
  }

  datatype Annotation = Annotation(kind: Kind, message: string)

  /** One classified fact that stops an issue; detail carries the annotation's message. */
  datatype BlockingReason = BlockingReason(kind: Kind, detail: string)
  {
    predicate IsDependency() { kind.OpenDependency? || kind.InheritedDependency? }

    predicate InWaitersLane() { kind.EarlierSiblingPending? }

    predicate WaitsOnOtherWork() { IsDependency() || kind.EarlierSiblingPending? }

    function Ticket(): ID { detail }
  }

  datatype IssueReadiness = IssueReadiness(
    blocking: seq<BlockingReason>, orphaned: bool, rankInversions: seq<string>)
  {
    predicate IsReady() { |blocking| == 0 }

    predicate HeldByItself() { exists reason :: reason in blocking && !reason.WaitsOnOtherWork() }

    predicate AwaitsOutside() { exists reason :: reason in blocking && reason.kind.External? }
  }

  const NOTHING_STOPS := IssueReadiness([], false, [])

  /** One annotation's contribution to the classification. */
  function Classified(r: IssueReadiness, a: Annotation): IssueReadiness {
    match RoleOf(a.kind)
    case Blocking => r.(blocking := r.blocking + [BlockingReason(a.kind, a.message)])
    case OrphanedRole => r.(orphaned := true)
    case RankInversionRole => r.(rankInversions := r.rankInversions + [a.message])
    case NoRole => r
  }

  function Classify(annotations: seq<Annotation>): IssueReadiness {
    if annotations == [] then NOTHING_STOPS
    else Classified(Classify(annotations[..|annotations| - 1]), annotations[|annotations| - 1])
  }

  method ClassifyReadiness(annotations: seq<Annotation>) returns (r: IssueReadiness)
    ensures r == Classify(annotations)
    ensures r.IsReady() <==> forall a :: a in annotations ==> a.kind in {RankInversion, Orphaned, FocusPath}
    ensures r.orphaned <==> exists a :: a in annotations && a.kind.Orphaned?
  {
    r := NOTHING_STOPS;
    for i := 0 to |annotations|
      invariant r == Classify(annotations[..i])
    {
      assert annotations[..i + 1][..i] == annotations[..i];
      r := Classified(r, annotations[i]);
    }
    assert annotations[..|annotations|] == annotations;
    ReadyIs(annotations);
    OrphanedIs(annotations);
  }

  /** The classification neither drops nor invents a reason: an issue is stopped
      by exactly its annotations of any kind but the three that advise. */
  lemma {:induction false} StoppedByBlockingKinds(annotations: seq<Annotation>, reason: BlockingReason)
    ensures reason in Classify(annotations).blocking <==>
      Annotation(reason.kind, reason.detail) in annotations &&
      reason.kind !in {RankInversion, Orphaned, FocusPath}
  {
    if annotations != [] {
      var init, last := annotations[..|annotations| - 1], annotations[|annotations| - 1];
      assert annotations == init + [last];
      StoppedByBlockingKinds(init, reason);
    }
  }

  /** An issue is ready exactly when everything said of it is advice. */
  lemma ReadyIs(annotations: seq<Annotation>)
    ensures Classify(annotations).IsReady() <==>
      forall a :: a in annotations ==> a.kind in {RankInversion, Orphaned, FocusPath}
  {
    var blocking := Classify(annotations).blocking;
    if blocking != [] {
      StoppedByBlockingKinds(annotations, blocking[0]);
    }
    forall a | a in annotations && blocking == [] ensures a.kind in {RankInversion, Orphaned, FocusPath} {
      StoppedByBlockingKinds(annotations, BlockingReason(a.kind, a.message));
    }
  }

  lemma {:induction false} OrphanedIs(annotations: seq<Annotation>)
    ensures Classify(annotations).orphaned <==> exists a :: a in annotations && a.kind.Orphaned?
  {
    if annotations != [] {
      var init, last := annotations[..|annotations| - 1], annotations[|annotations| - 1];
      assert annotations == init + [last];
      OrphanedIs(init);
    }
  }

  /** Annotations are read in order, one after the other: with what one alone says,
      this determines the reasons and the inversions, sequence for sequence. */
  lemma {:induction false} ReadInOrder(front: seq<Annotation>, back: seq<Annotation>)
    ensures var r, before, after := Classify(front + back), Classify(front), Classify(back);
      r.blocking == before.blocking + after.blocking && r.rankInversions == before.rankInversions + after.rankInversions
    decreases |back|
  {
    if back == [] {
      assert front + back == front;
    } else {
      var init, last := back[..|back| - 1], back[|back| - 1];
      assert (front + back)[..|front + back| - 1] == front + init;
      ReadInOrder(front, init);
    }
  }

  lemma ReadsOne(a: Annotation)
    ensures Classify([a]).rankInversions == if a.kind == RankInversion then [a.message] else []
    ensures Classify([a]).blocking ==
      if a.kind in {RankInversion, Orphaned, FocusPath} then [] else [BlockingReason(a.kind, a.message)]
  {
    assert [a][..0] == [];
  }

  function WaitingReasons(reasons: seq<BlockingReason>): seq<BlockingReason> {
    if reasons == [] then []
    else
      var last := reasons[|reasons| - 1];
      WaitingReasons(reasons[..|reasons| - 1]) + if last.WaitsOnOtherWork() then [last] else []
  }

  /** The blocking reasons that are open tickets. */
  method Prerequisites(r: IssueReadiness) returns (prerequisites: seq<BlockingReason>)
    ensures prerequisites == WaitingReasons(r.blocking)
  {
    prerequisites := [];
    for i := 0 to |r.blocking|
      invariant prerequisites == WaitingReasons(r.blocking[..i])
    {
      assert r.blocking[..i + 1][..i] == r.blocking[..i];
      if r.blocking[i].WaitsOnOtherWork() {
        prerequisites := prerequisites + [r.blocking[i]];
      }
    }
    assert r.blocking[..|r.blocking|] == r.blocking;
  }

  lemma {:induction false} WaitingReasonsAre(reasons: seq<BlockingReason>, reason: BlockingReason)
    ensures reason in WaitingReasons(reasons) <==>
      reason in reasons && reason.kind in {OpenDependency, InheritedDependency, EarlierSiblingPending}
  {
    if reasons != [] {
      var init, last := reasons[..|reasons| - 1], reasons[|reasons| - 1];
      assert reasons == init + [last];
      WaitingReasonsAre(init, reason);
    }
  }

  /** The waiting reasons stand in the order of the reasons. */
  lemma {:induction false} WaitingInOrder(front: seq<BlockingReason>, back: seq<BlockingReason>)
    ensures WaitingReasons(front + back) == WaitingReasons(front) + WaitingReasons(back)
    decreases |back|
  {
    if back == [] {
      assert front + back == front;
    } else {
      var init, last := back[..|back| - 1], back[|back| - 1];
      assert (front + back)[..|front + back| - 1] == front + init;
      WaitingInOrder(front, init);
    }
  }

  /** An issue is held by itself exactly when a field is missing, it needs design, or it
      waits on an outside event; and the last of these is told apart. */
  lemma HeldByItselfIs(annotations: seq<Annotation>)
    ensures Classify(annotations).HeldByItself() <==>
      exists a :: a in annotations && a.kind in {MissingField, NeedsDesign, External}
    ensures Classify(annotations).AwaitsOutside() <==> exists a :: a in annotations && a.kind.External?
  {
    forall reason ensures reason in Classify(annotations).blocking <==>
      Annotation(reason.kind, reason.detail) in annotations && reason.kind !in {RankInversion, Orphaned, FocusPath}
    {
      StoppedByBlockingKinds(annotations, reason);
    }
    forall a | a in annotations && a.kind in {MissingField, NeedsDesign, External}
      ensures BlockingReason(a.kind, a.message) in Classify(annotations).blocking {
    }
  }

  /** Finishing an issue's prerequisites is everything between it and ready but
      the reasons about the issue itself. */
  lemma ReadyOncePrerequisitesFinish(r: IssueReadiness)
    ensures r.IsReady() <==> WaitingReasons(r.blocking) == [] && !r.HeldByItself()
    ensures r.AwaitsOutside() ==> r.HeldByItself()
  {
    if !r.IsReady() {
      WaitingReasonsAre(r.blocking, r.blocking[0]);
    }
  }

  /** An issue with its computed annotations: one row of the queue. */
  datatype Row = Row(issue: Issue, annotations: seq<Annotation>)
  {
    function Id(): ID { issue.id }

    function Readiness(): IssueReadiness { Classify(annotations) }

    function Prerequisites(): seq<BlockingReason> { WaitingReasons(Readiness().blocking) }

    /** One of the row's annotations says that the ticket comes first. */
    predicate Needs(id: ID) {
      exists a :: a in annotations && a.message == id &&
        a.kind in {OpenDependency, InheritedDependency, EarlierSiblingPending}
    }

    /** One of them says that the ticket is an earlier one of the row's own lane. */
    predicate FollowsInLane(id: ID) {
      exists a :: a in annotations && a.message == id && a.kind == EarlierSiblingPending
    }

    lemma PrerequisitesAre(reason: BlockingReason)
      ensures reason in Prerequisites() <==>
        Annotation(reason.kind, reason.detail) in annotations &&
        reason.kind in {OpenDependency, InheritedDependency, EarlierSiblingPending}
    {
      WaitingReasonsAre(Readiness().blocking, reason);
      StoppedByBlockingKinds(annotations, reason);
    }

    lemma NeedsAre(id: ID)
      ensures Needs(id) <==> exists reason :: reason in Prerequisites() && reason.Ticket() == id
      ensures FollowsInLane(id) <==>
        exists reason :: reason in Prerequisites() && reason.InWaitersLane() && reason.Ticket() == id
    {
      forall reason ensures reason in Prerequisites() <==>
        Annotation(reason.kind, reason.detail) in annotations &&
        reason.kind in {OpenDependency, InheritedDependency, EarlierSiblingPending}
      {
        PrerequisitesAre(reason);
      }
      forall a | a in annotations && a.kind in {OpenDependency, InheritedDependency, EarlierSiblingPending}
        ensures BlockingReason(a.kind, a.message) in Prerequisites() {
      }
    }
  }
}
