// internal/cli/backlog.go: the epic and the claim a listing states once for a run
// of rows, and the reader who takes a blank for the last statement.
module BacklogContext {
  import opened Model
  import Evidence
  import Events
  import HoldGate
  import Standing

  datatype EpicRef = EpicRef(id: ID, title: string)

  /** A row's epic and lane; its own text does not matter here. */
  datatype Row = Row(epic: Option<EpicRef>, lane: LaneID)

  /** What the rows above put on screen. */
  datatype Run = Run(epicID: ID, lane: LaneID, claim: string)

  const NOTHING_STATED := Run("", ZERO_LANE, "")

  /** What one row prints of its groups; blank prints nothing. */
  datatype Block = Block(epic: string, claim: string, laneHeld: bool)

  function EpicID(epic: Option<EpicRef>): ID { if epic.None? then "" else epic.value.id }

  function EpicLine(epic: Option<EpicRef>): string {
    if epic.None? then "" else "epic: " + epic.value.id + "  " + epic.value.title
  }

  /** What a listing knows of claims: the standings, who is reading, and how a held
      lane's line goes on behind the word every such line begins with. */
  datatype ClaimContext = ClaimContext(
    standings: Evidence.Standings, self: Events.Holder, details: (LaneID, Standing.Standing) -> string)
  {
    function StandingOf(lane: LaneID): Standing.Standing { Evidence.Of(standings, lane) }

    /** Whether anybody holds the lane, as the row's progress suffix reads it. */
    predicate LaneHeld(lane: LaneID) { HoldGate.RelationOf(StandingOf(lane), self) != HoldGate.LaneUnclaimed }
  }

  function ClaimLine(cc: ClaimContext, lane: LaneID): string {
    match cc.StandingOf(lane)
    case Unclaimed => ""
    case Held(_, _) => "claimed" + cc.details(lane, cc.StandingOf(lane))
  }

  function ClaimStatement(claim: string, standing: string): string {
    if claim == "" && standing != "" then "unclaimed" else claim
  }

  function BacklogEpicLine(epic: Option<EpicRef>): string {
    if EpicLine(epic) != "" then EpicLine(epic) else "epic: none"
  }

  function OpeningRun<S(==)>(value: string, subject: S, above: S): string {
    if subject == above then "" else value
  }

  function RunOf(row: Row, cc: ClaimContext): Run {
    Run(EpicID(row.epic), row.lane, ClaimLine(cc, row.lane))
  }

  function Advance(above: Run, row: Row, cc: ClaimContext): Block {
    var here := RunOf(row, cc);
    Block(OpeningRun(BacklogEpicLine(row.epic), here.epicID, above.epicID),
          OpeningRun(ClaimStatement(here.claim, above.claim), here.lane, above.lane),
          cc.LaneHeld(row.lane))
  }

  function Blocks(above: Run, rows: seq<Row>, cc: ClaimContext): seq<Block>
    decreases |rows|
  {
    if rows == [] then [] else [Advance(above, rows[0], cc)] + Blocks(RunOf(rows[0], cc), rows[1..], cc)
  }

  lemma BlocksFrom(above: Run, rows: seq<Row>, i: nat, cc: ClaimContext)
    requires i < |rows|
    ensures Blocks(above, rows[i..], cc) ==
      [Advance(above, rows[i], cc)] + Blocks(RunOf(rows[i], cc), rows[i + 1..], cc)
  {
    assert rows[i..][1..] == rows[i + 1..];
  }

  method PrintBacklog(rows: seq<Row>, cc: ClaimContext) returns (printed: seq<Block>)
    ensures printed == Blocks(NOTHING_STATED, rows, cc)
  {
    printed := [];
    var above := NOTHING_STATED;
    for i := 0 to |rows|
      invariant printed + Blocks(above, rows[i..], cc) == Blocks(NOTHING_STATED, rows, cc)
    {
      BlocksFrom(above, rows, i, cc);
      var group := Advance(above, rows[i], cc);
      printed := printed + [group];
      above := RunOf(rows[i], cc);
    }
  }

  /** What each row prints, read off the row above it: nothing of its epic or its lane where
      that states the same, and otherwise the epic's line or that there is none, and the
      claim's line or, where a claim stood and none does now, that there is none. */
  lemma SaysWhatChanges(above: Run, rows: seq<Row>, cc: ClaimContext, i: nat)
    requires i < |rows|
    ensures |Blocks(above, rows, cc)| == |rows|
    ensures var before := if i == 0 then above else RunOf(rows[i - 1], cc);
      var printed, claim := Blocks(above, rows, cc)[i], ClaimLine(cc, rows[i].lane);
      && printed.epic == (
        if before.epicID == (if rows[i].epic.None? then "" else rows[i].epic.value.id) then ""
        else if rows[i].epic.None? then "epic: none"
        else "epic: " + rows[i].epic.value.id + "  " + rows[i].epic.value.title)
      && printed.claim == (
        if before.lane == rows[i].lane then "" else if claim == "" && before.claim != "" then "unclaimed" else claim)
  {
    var before := if i == 0 then above else RunOf(rows[i - 1], cc);
    AdvancesAt(above, rows, cc, i, before);
    AdvanceSays(before, rows[i], cc);
  }

  lemma {:induction false} AdvancesAt(above: Run, rows: seq<Row>, cc: ClaimContext, i: nat, before: Run)
    requires i < |rows| && before == if i == 0 then above else RunOf(rows[i - 1], cc)
    ensures |Blocks(above, rows, cc)| == |rows|
    ensures Blocks(above, rows, cc)[i] == Advance(before, rows[i], cc)
    decreases |rows|
  {
    BlocksAre(above, rows, cc);
    BlocksFirst(above, rows, cc, i, RunOf(rows[0], cc), rows[1..]);
    if i > 0 {
      AdvancesAt(RunOf(rows[0], cc), rows[1..], cc, i - 1, before);
    }
  }

  lemma BlocksFirst(above: Run, rows: seq<Row>, cc: ClaimContext, i: nat, next: Run, rest: seq<Row>)
    requires i < |rows| == |Blocks(above, rows, cc)| && next == RunOf(rows[0], cc) && rest == rows[1..]
    ensures i == 0 ==> Blocks(above, rows, cc)[i] == Advance(above, rows[0], cc)
    ensures i > 0 ==> |Blocks(next, rest, cc)| == |rest| && Blocks(above, rows, cc)[i] == Blocks(next, rest, cc)[i - 1]
  {
    assert Blocks(above, rows, cc) == [Advance(above, rows[0], cc)] + Blocks(next, rest, cc);
  }

  lemma {:induction false} BlocksAre(above: Run, rows: seq<Row>, cc: ClaimContext)
    ensures |Blocks(above, rows, cc)| == |rows|
    decreases |rows|
  {
    if rows != [] {
      BlocksAre(RunOf(rows[0], cc), rows[1..], cc);
    }
  }

  lemma AdvanceSays(before: Run, row: Row, cc: ClaimContext)
    ensures var printed, claim := Advance(before, row, cc), ClaimLine(cc, row.lane);
      && printed.epic == (
        if before.epicID == (if row.epic.None? then "" else row.epic.value.id) then ""
        else if row.epic.None? then "epic: none"
        else "epic: " + row.epic.value.id + "  " + row.epic.value.title)
      && printed.claim == (
        if before.lane == row.lane then "" else if claim == "" && before.claim != "" then "unclaimed" else claim)
  {
  }

  /** Rows of one lane on end state its claim once, and rows of one epic on end the epic. */
  lemma NothingIsSaidTwice(rows: seq<Row>, cc: ClaimContext, i: nat)
    requires 0 < i < |rows|
    ensures |Blocks(NOTHING_STATED, rows, cc)| == |rows|
    ensures rows[i].lane == rows[i - 1].lane ==> Blocks(NOTHING_STATED, rows, cc)[i].claim == ""
    ensures EpicID(rows[i].epic) == EpicID(rows[i - 1].epic) ==> Blocks(NOTHING_STATED, rows, cc)[i].epic == ""
  {
    SaysWhatChanges(NOTHING_STATED, rows, cc, i);
  }

  // ---- The reader ----

  /** What a reader holds to be true of a row: its epic line and its claim line,
      blank for no epic and for no claim. */
  datatype Statement = Statement(epic: string, claim: string)

  const NO_STATEMENT := Statement("", "")

  /** A blank leaves the last statement standing. */
  function Hear(standing: Statement, block: Block): Statement {
    Statement(
      if block.epic == "" then standing.epic else if block.epic == "epic: none" then "" else block.epic,
      if block.claim == "" then standing.claim else if block.claim == "unclaimed" then "" else block.claim)
  }

  function Read(standing: Statement, blocks: seq<Block>): seq<Statement>
    decreases |blocks|
  {
    if blocks == [] then []
    else
      var heard := Hear(standing, blocks[0]);
      [heard] + Read(heard, blocks[1..])
  }

  function TruthOf(row: Row, cc: ClaimContext): Statement {
    Statement(EpicLine(row.epic), ClaimLine(cc, row.lane))
  }

  function Truth(rows: seq<Row>, cc: ClaimContext): seq<Statement> {
    seq(|rows|, i requires 0 <= i < |rows| => TruthOf(rows[i], cc))
  }

  /** Rows next to each other under one epic id state one epic, and a row under the
      empty id at the top states none. */
  predicate EpicsAgree(above: Option<EpicRef>, rows: seq<Row>)
    decreases |rows|
  {
    rows == [] ||
    ((EpicID(rows[0].epic) == EpicID(above) ==> EpicLine(rows[0].epic) == EpicLine(above)) &&
     EpicsAgree(rows[0].epic, rows[1..]))
  }

  lemma EpicLineIsNoMarker(epic: Option<EpicRef>)
    ensures EpicLine(epic) != "epic: none"
    ensures epic.Some? ==> EpicLine(epic) != ""
  {
    if epic.Some? {
      assert EpicLine(epic)[6 + |epic.value.id|] == ' ' == EpicLine(epic)[7 + |epic.value.id|];
    }
  }

  lemma ClaimLineIsNoMarker(cc: ClaimContext, lane: LaneID)
    ensures ClaimLine(cc, lane) != "unclaimed"
    ensures cc.LaneHeld(lane) <==> ClaimLine(cc, lane) != ""
  {
    assert "unclaimed"[0] == 'u' && "claimed"[0] == 'c';
  }

  /** One row is heard right, by a reader right about the row above, exactly when
      its epic agrees with the epic above. */
  lemma HeardRight(above: Row, row: Row, cc: ClaimContext)
    ensures Hear(TruthOf(above, cc), Advance(RunOf(above, cc), row, cc)) == TruthOf(row, cc) <==>
      (EpicID(row.epic) == EpicID(above.epic) ==> EpicLine(row.epic) == EpicLine(above.epic))
  {
    EpicLineIsNoMarker(row.epic);
    ClaimLineIsNoMarker(cc, row.lane);
    ClaimLineIsNoMarker(cc, above.lane);
  }

  lemma {:induction false} ReadBelow(above: Row, rows: seq<Row>, cc: ClaimContext)
    ensures Read(TruthOf(above, cc), Blocks(RunOf(above, cc), rows, cc)) == Truth(rows, cc) <==>
      EpicsAgree(above.epic, rows)
    decreases |rows|
  {
    if rows != [] {
      HeardRight(above, rows[0], cc);
      ReadBelow(rows[0], rows[1..], cc);
      FirstThenRest(TruthOf(above, cc), RunOf(above, cc), rows, cc);
    }
  }

  lemma FirstThenRest(standing: Statement, above: Run, rows: seq<Row>, cc: ClaimContext)
    requires rows != []
    ensures Read(standing, Blocks(above, rows, cc)) == Truth(rows, cc) <==>
      var heard := Hear(standing, Advance(above, rows[0], cc));
      heard == TruthOf(rows[0], cc) &&
      Read(heard, Blocks(RunOf(rows[0], cc), rows[1..], cc)) == Truth(rows[1..], cc)
  {
    BlocksFrom(above, rows, 0, cc);
    assert rows[0..] == rows;
    TruthFirst(rows, cc);
    ReadThen(standing, Advance(above, rows[0], cc), Blocks(RunOf(rows[0], cc), rows[1..], cc),
      TruthOf(rows[0], cc), Truth(rows[1..], cc));
  }

  lemma TruthFirst(rows: seq<Row>, cc: ClaimContext)
    requires rows != []
    ensures Truth(rows, cc) == [TruthOf(rows[0], cc)] + Truth(rows[1..], cc)
  {
  }

  lemma ReadThen(standing: Statement, block: Block, rest: seq<Block>, first: Statement, others: seq<Statement>)
    ensures Read(standing, [block] + rest) == [first] + others <==>
      Hear(standing, block) == first && Read(Hear(standing, block), rest) == others
  {
    ReadFirst(standing, block, rest);
    BothFirst(Hear(standing, block), Read(Hear(standing, block), rest), first, others);
  }

  lemma ReadFirst(standing: Statement, block: Block, rest: seq<Block>)
    ensures Read(standing, [block] + rest) == [Hear(standing, block)] + Read(Hear(standing, block), rest)
  {
    assert ([block] + rest)[1..] == rest;
  }

  lemma BothFirst(a: Statement, more: seq<Statement>, b: Statement, others: seq<Statement>)
    ensures [a] + more == [b] + others <==> a == b && more == others
  {
    assert ([a] + more)[1..] == more && ([b] + others)[1..] == others;
    assert ([a] + more)[0] == a && ([b] + others)[0] == b;
  }

  /** The listing decodes to every row's true epic line and claim line exactly when
      rows next to each other under one epic id state one epic, and the first row is
      not in a held lane spelled like no lane at all. */
  lemma ListingDecodes(rows: seq<Row>, cc: ClaimContext)
    ensures Read(NO_STATEMENT, Blocks(NOTHING_STATED, rows, cc)) == Truth(rows, cc) <==>
      EpicsAgree(None, rows) && !(rows != [] && rows[0].lane == ZERO_LANE && cc.LaneHeld(ZERO_LANE))
  {
    if rows != [] {
      EpicLineIsNoMarker(rows[0].epic);
      ClaimLineIsNoMarker(cc, rows[0].lane);
      FirstThenRest(NO_STATEMENT, NOTHING_STATED, rows, cc);
      ReadBelow(rows[0], rows[1..], cc);
    }
  }

  // ---- Rows as the listing gets them ----

  /** A listed issue with its parent; the epic a row names is its parent when that
      is an epic. */
  datatype Entry = Entry(issue: Issue, parent: Option<Parent>, title: string)
  {
    function ToRow(): Row {
      Row(if parent.Some? && parent.value.IsContainer() then Some(EpicRef(parent.value.id, title)) else None,
          LaneOf(issue, parent))
    }
  }

  /** An issue under an epic states that epic, by its id and title; any other states
      none. */
  lemma StatesItsEpic(entry: Entry)
    ensures EpicLine(entry.ToRow().epic) ==
      if entry.parent.Some? && entry.parent.value.issueType == Epic
        then "epic: " + entry.parent.value.id + "  " + entry.title
      else ""
  {
  }

  predicate OneTitlePerEpic(entries: seq<Entry>) {
    forall j | 0 <= j < |entries| && entries[j].ToRow().epic.Some? ::
      TitledAlike(entries[j].ToRow().epic.value, entries)
  }

  predicate TitledAlike(epic: EpicRef, entries: seq<Entry>) {
    forall i | 0 <= i < |entries| && entries[i].ToRow().epic.Some? ::
      entries[i].parent.value.id == epic.id ==> entries[i].title == epic.title
  }

  predicate Identified(entries: seq<Entry>) {
    forall e <- entries :: e.issue.id != "" && (e.parent.Some? ==> e.parent.value.id != "")
  }

  function Rows(entries: seq<Entry>): seq<Row> {
    seq(|entries|, i requires 0 <= i < |entries| => entries[i].ToRow())
  }

  lemma {:induction false} IdentifiedEpicsAgree(entries: seq<Entry>, above: Option<EpicRef>)
    requires Identified(entries) && OneTitlePerEpic(entries)
    requires above.Some? ==> (above.value.id != "" && TitledAlike(above.value, entries))
    ensures EpicsAgree(above, Rows(entries))
  {
    if entries != [] {
      var row, rest := entries[0].ToRow(), entries[1..];
      assert entries[0] in entries;
      assert Rows(entries)[1..] == Rows(rest);
      assert forall e <- rest :: e in entries;
      IdentifiedEpicsAgree(rest, row.epic);
    }
  }

  /** Issues that have ids, under epics with one title each, always decode: no lane
      of theirs is spelled like no lane. */
  lemma EveryListingDecodes(entries: seq<Entry>, cc: ClaimContext)
    requires Identified(entries) && OneTitlePerEpic(entries)
    ensures Read(NO_STATEMENT, Blocks(NOTHING_STATED, Rows(entries), cc)) == Truth(Rows(entries), cc)
  {
    IdentifiedEpicsAgree(entries, None);
    ListingDecodes(Rows(entries), cc);
    if entries != [] {
      assert entries[0] in entries;
    }
  }

  /** A row says its lane is held exactly when a claim line stands over it. */
  lemma HeldExactlyWhereAClaimStands(above: Run, rows: seq<Row>, cc: ClaimContext, i: nat)
    requires i < |rows|
    ensures |Blocks(above, rows, cc)| == |rows|
    ensures Blocks(above, rows, cc)[i].laneHeld <==> Truth(rows, cc)[i].claim != ""
  {
    ClaimLineIsNoMarker(cc, rows[i].lane);
    BlockAt(above, rows, cc, i);
  }

  lemma {:induction false} BlockAt(above: Run, rows: seq<Row>, cc: ClaimContext, i: nat)
    requires i < |rows|
    ensures |Blocks(above, rows, cc)| == |rows|
    ensures Blocks(above, rows, cc)[i].laneHeld <==> cc.LaneHeld(rows[i].lane)
    decreases |rows|
  {
    if |rows| > 1 {
      BlockAt(RunOf(rows[0], cc), rows[1..], cc, if i > 0 then i - 1 else 0);
    }
  }
}
