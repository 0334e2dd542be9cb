# lit, verified

`lit` coordinates parallel agents over one backlog of issues. This project models the
parts of it that decide things and proves what they promise, for every input, every run
and every reachable state:

- **Who holds a lane** (`Events`, `Standing`, `StandingLaws`, `Evidence`, `EvidenceLaws`).
  A lane's holder is never stored: it is derived from the event log by partition, sort,
  filter, scan and fold. The derivation is proved to be the four legs it claims to
  implement, independent of read order, faithful when only one lane's family is read, and
  monotone in time.
- **The hold gate** (`HoldGate`, `HoldGateLaws`, `TransitionLaws`). What a start, done,
  close, reopen or phase move refuses, writes, stamps and may cross, one call at a time
  and over whole runs.
- **`lit next`** (`Readiness`, `Gating`, `GatingCorrect`, `GatingOpen`, `GatingOrder`,
  `Routing`, `RoutingRun`, `RoutingLaws`, `RoutingScope`, `RoutingExhaustion`,
  `NextAndStart`). The precedence over ranked rows and the dependency walk beneath it, a
  worklist search with a `seen` set shared across roots, proved against a statement of
  reachability over the rows' states and annotations that mentions no walk.
- **The backups set** (`AtomicFile`, `Backups`, `BackupSet`, `BackupRuns`,
  `BackupProtocol`, `BackupRefinement`, `BackupHistory`). A directory ordered only by
  mtimes, under an untrusted clock and one lock. Over concurrent takes killed at any step,
  a name stamped after another was last written is listed ahead of it, a stamp lost to a
  power failure counting as one more write. Short of such losses and of kills between a
  rename and its stamp, the newest keep of the listing are the newest keep of the contents
  by latest stamp; a take killed there moves no snapshot but its own.
- **Three transformations** (`SplitArgs`, `ManagedSections` with `MarkerMigration`,
  `BacklogContext`): the argv splitter against the flag parser it feeds, the
  managed-section rewriter over repeated runs and legacy files, and the backlog's
  suppressed context against the reader who decodes it.

`Model`, `Text`, `Search` and `Sorting` hold what these share. Loops and in-place updates
of the program are methods with invariants, each tied to a function; the laws are lemmas
about those functions. Instants are integers, sessions and ids strings, and what the
program reads from outside (the clock, the machine's checkouts, whether a takeover was
confirmed, what the file system refuses) are parameters.

Where the code and what is said about it differ, the model follows the code:

- The gate's comment says nobody but the last taker can hold the lane it took. It fails
  when the machine's enumeration voids the asking checkout itself while another holder
  meets the four legs; see `HoldGateLaws.FastPathAgrees`. The enumeration drops the
  worktree records git calls prunable or bare and asks nothing else, so the input is a
  linked worktree in use whose own record git calls prunable, as one is whose directory
  was moved without telling git; see `Events.GoneIsUninhabited` and the counterexample
  `HoldGateLaws.FastPathMissesOwnVoid`.
- The contest's order is said to be stable where holders tie in time. It is determined
  exactly when no two rivals share their last instant, stream and session: the comparator
  leaves the workspace out, and such rivals come out in the order a map was read; see
  `StandingLaws.AnswersAgree` and the tied history of `StandingLaws.TiedContest`.
- The splitter's comment says it mirrors the parser exactly. A lone dash is a flag to the
  one and a positional to the other, which can reorder positionals; see
  `SplitArgs.PositionalsKeepTheirOrder`. Flag values always agree, short of a shorthand
  cluster.
- The rewriter is said never to let a file grow. With an end marker ahead of every begin
  it grows on every run; see `ManagedSections.StrayGrowsForever`. With a begin marker and
  no end, its second run deletes every line of the user's from that begin on; see
  `ManagedSections.LoneBeginSettlesLater`.
- A legacy file with one marker edited away is said still to converge. It does with a
  pair whose halves are of different ages. With a lone end, legacy or not, it grows on
  every run, and with a lone begin its second run deletes the lines behind it; see
  `MarkerMigration.MigratedIdempotentExactlyWhen` and `StrayEndGrowsForever`.
- An exhausted scope with no blocker and no row held by itself is said to wait only on
  work in progress. It may hold unstarted tickets: those of a lane another checkout took
  by finishing a ticket, and those that wait only on tickets of the scope, on each other
  even; see `RoutingExhaustion.UnstoppedRemains` and the failing case
  `UnstoppedWithNothingUnderway`.
- A recorded `done` takes the lane for its author while the plan reports the old
  claimant; see `HoldGateLaws.ClaimantAgreesExceptAfterDone`.

## Model

| member | source | states |
|---|---|---|
| Model.LanesAreTwoShapes | internal/model/model.go:229-234 | Two issues share a lane exactly as children of one epic under one lane key, or as one and the same issue: neither the epic nor the key alone identifies a lane. |
| Readiness.ClassifyReadiness | internal/cli/readiness.go:203-220 | The annotation loop reads an issue as ready exactly when all that is said of it is a rank inversion, an orphaning or a focus path, and as orphaned exactly when that is said. |
| Readiness.StoppedByBlockingKinds | internal/cli/readiness.go:203-220 | An issue is stopped by exactly its annotations of any kind but rank inversion, orphaned and focus path; no reason is dropped or invented. |
| Readiness.ReadyIs | internal/cli/readiness.go:77 | An issue is ready exactly when every annotation of it is of one of the three advisory kinds. |
| Readiness.OrphanedIs | internal/cli/readiness.go:85 | An issue is orphaned exactly when an annotation says so. |
| Readiness.ReadInOrder | internal/cli/readiness.go:203-220 | Reasons and rank inversions stand in annotation order: those of a list are those of its front followed by those of its back. |
| Readiness.ReadsOne | internal/cli/readiness.go:203-220 | What one annotation alone contributes, by kind. |
| Readiness.Prerequisites | internal/cli/readiness.go:142-150 | The loop collects the waiting reasons in order. |
| Readiness.WaitingReasonsAre | internal/cli/readiness.go:142-165 | A blocking reason is a prerequisite exactly when it is an open dependency, an inherited dependency or an earlier sibling pending. |
| Readiness.WaitingInOrder | internal/cli/readiness.go:142-150 | The prerequisites stand in the order of the reasons. |
| Readiness.HeldByItselfIs | internal/cli/readiness.go:167-181 | An issue is held by itself exactly when a field is missing, it needs design or an outside event holds it, and awaits outside exactly in the last case. |
| Readiness.ReadyOncePrerequisitesFinish | internal/cli/readiness.go:77-181 | An issue is ready exactly when it has no prerequisite and nothing about itself holds it; waiting on an outside event is one of the latter. |
| Gating.PlacedLaneMates | internal/cli/next_route.go:913-924 | Every earlier lane-mate a row waits behind is placed in the waiter's own lane, over all rows, before any walk starts. |
| GatingCorrect.PlacedByItsWaiter | internal/cli/next_route.go:913-924 | An id is placed exactly when some row waits behind it as its earlier lane-mate, and its lane is that of the last such row. |
| Gating.BestOf | internal/cli/next_route.go:952-957 | The best-reading loop agrees with the reading defined on sequences. |
| GatingCorrect.BestIsTheFirstOfTheMost | internal/cli/next_route.go:952-957 | A dependency reads as its work of the highest kind, and as the first such work in rank order; with no work in view it has no reading, and only then. |
| Gating.QueueWork | internal/cli/next_route.go:964-966 | All the work toward a collected dependency is queued behind the rest, each with the chain that led to it and one more hop. |
| Gating.ExpandOne | internal/cli/next_route.go:933-968 | One queued row's prerequisites are met in order; a row already in flight has none to meet. |
| Gating.GatingDependencies | internal/cli/next_route.go:905-971 | The nested loops over seen, chain and deps terminate on every graph, cycles included, and collect what the walk the theorems speak of collects. |
| GatingCorrect.Covered | internal/cli/next_route.go:870-889 | Sharing seen across roots loses nothing: a row some hops lead to is one a higher-ranked row led to, or it is queued no deeper than those hops. |
| GatingCorrect.UnmetIsDeep | internal/cli/next_route.go:870-888 | Breadth first: what is unmet when the walk turns to a queued row is no nearer to the root than that row. |
| GatingCorrect.Stepped | internal/cli/next_route.go:931-969 | One step of the walk keeps the whole invariant: the queue is ordered by depth, every dependency collected so far is outside the scope, new, and reached by a shortest chain. |
| GatingCorrect.WalkCollects | internal/cli/next_route.go:925-971 | After any number of rows, seen is exactly the set of prerequisites those rows reach, and the dependencies collected are distinct, merited and in walk order. |
| GatingCorrect.CollectsExactlyTheGates | internal/cli/next_route.go:861-904 | A prerequisite is collected exactly when it is outside the scope and an open row in scope waits on it, directly or through work outside the scope; each is collected once. |
| GatingCorrect.CreditsTheFirstByTheShortest | internal/cli/next_route.go:936-952 | Gates is the highest-ranked row in scope that reaches the dependency at all, Via a genuine chain from it, and no chain from it is shorter, although seen is shared. |
| GatingCorrect.CollectsInWalkOrder | internal/cli/next_route.go:870-888 | Dependencies of a higher-ranked row come first, and of one row's the nearest. |
| GatingOpen.ChainIsOpen | internal/cli/next_route.go:925-968 | A chain of hops passes through open rows alone, each naming the next prerequisite in an annotation and the next row being the work toward it; and any such rows are a chain. |
| GatingOpen.CollectsThroughOpenRows | internal/cli/next_route.go:925-968 | Every collected dependency is named by an open row, met from an open row in scope through rows every one of which is open. |
| GatingOpen.OpenRowsCollect | internal/cli/next_route.go:925-968 | Whatever open rows lead to from a row in scope is collected, unless it is inside the scope. |
| GatingOpen.DirectlyCollected | internal/cli/next_route.go:925-968 | Every prerequisite of an open row in scope that is not inside the scope is collected. |
| GatingOpen.NothingOpenNothingCollected | internal/cli/next_route.go:933-936 | A scope with no open row waits on nothing. |
| GatingOpen.BestIsRead | internal/cli/next_route.go:952-957 | A dependency is read by the work of the most use (takeable, then held elsewhere, held by itself, not ready, awaiting outside) and by the first of that. |
| GatingOpen.InsideIs | internal/cli/next_route.go:958-962 | A prerequisite is inside the scope exactly when the last row it precedes in its lane is in scope, or the work toward it that is read is. |
| GatingOpen.LaneMatesAreNotCollected | internal/cli/next_route.go:958-962 | An earlier lane-mate of rows in scope is never collected, even with no row of its own. |
| GatingOrder.DirectInNamedOrder | internal/cli/next_route.go:937-963 | Of two dependencies a row names itself, the one its annotations name first is collected first. |
| Routing.ReadOwnScope | internal/cli/next_route.go:445-457 | The lanes held are exactly those an identified checkout holds as itself, and the scope covers those and the lanes of their epics; a lane of one has no epic and covers no other. |
| RoutingScope.LanesOfOneCoverThemselves | internal/cli/next_route.go:445-457 | A checkout that holds only lanes of one covers those lanes alone, names no epic and is never served a ticket as its epic's. |
| RoutingScope.PoolIs | internal/cli/ready_state.go:898-943 | A row is in the pool exactly when no focus is set, an annotation puts it on the focus path, or our scope covers its lane; the other rows are withheld. |
| RoutingScope.PoolPickIsHighest | internal/cli/next_route.go:541-560 | The pool hands over the highest-ranked row it holds that the filter selects and this checkout may begin; with no pick there is none. |
| RoutingRun.WorkTowardEach | internal/cli/next_route.go:850-859 | The indexing loops build the index the next row describes. |
| RoutingRun.IndexIsTheRowsToward | internal/cli/next_route.go:841-859 | Under every id, leaf or epic at any height, the index holds exactly the rows that are it or sit under it, each once, in rank order. |
| RoutingRun.TowardIs | internal/cli/next_route.go:841-859 | A row is work toward itself and toward exactly the epics a line of parents leads up to from it, at any height. |
| RoutingRun.Pick | internal/cli/next_route.go:553-560 | The pick loop agrees with the pick the laws speak of. |
| RoutingLaws.PickIsFirst | internal/cli/next_route.go:541-560 | A pick is the first row in rank order that may be served, sits in an admitted lane and carries an accepted verdict; with no pick there is no such row. |
| RoutingRun.FindOnPath | internal/cli/next_route.go:994-1003 | The two loops agree with the pick the next row describes. |
| RoutingLaws.DependencyIsFirst | internal/cli/next_route.go:976-1003 | The dependency served is the first the walk found with work to take, and the row is work toward it that this run may take; with none served, no dependency has any. |
| RoutingScope.WalksGateOurs | internal/cli/next_route.go:585-596 | The first walk collects exactly what open rows of the lanes we hold wait for and are not themselves, the second what open rows of our whole scope do. |
| RoutingScope.DependencyServesOurs | internal/cli/next_route.go:607-632 | A dependency handed over unblocks an open row of a lane we hold, or, outside our scope itself, an open row of our scope. |
| RoutingLaws.RankThenNearness | internal/cli/next_route.go:866-888 | The dependency served gates our highest-ranked row that any takeable work would unblock, by a shortest chain, and no takeable dependency of that row is nearer. |
| RoutingLaws.PicksSitWhereTheySay | internal/cli/next_route.go:529-690 | Every outcome that hands a row over hands one that is gathered, selected and takeable, and sits where its name says: own-lane picks in held lanes, a step 1b dependency in none, a step 2b dependency and a pick past exhaustion or narrowing outside the whole epic. |
| RoutingLaws.StepsInOrder | internal/cli/next_route.go:490-498 | No step serves while one ahead of it has anything to serve: own lanes, then what gates them, then the rest of the epic, then what gates that, then the pool; only a checkout holding no lane starts at the pool. |
| RoutingLaws.OwnLanesFirst | internal/cli/next_route.go:601-608 | While a held lane has a row the run may serve, a held lane's row is served. |
| RoutingLaws.CapacityIs | internal/cli/next_route.go:391-430 | A row is takeable exactly when nobody else holds its lane, it waits on no outside event and it is underway or ready; it is handed back exactly when it is underway and ours. |
| RoutingLaws.ReachIs | internal/cli/next_route.go:257-338 | What each reading of a row that is not takeable means: the four are told apart by the outside event, the foreign hold, and a reason of the row's own. |
| RoutingLaws.ServedIsServable | internal/cli/next_route.go:415-430 | No row handed over sits in a lane another holder holds, and none waits on an outside event. |
| RoutingLaws.FilterOnlyNarrows | internal/cli/next_route.go:600-684 | If the filter selects the row the unfiltered run serves, the outcome is that run's, whole; a run that serves nothing names exactly that row as hidden, if there is one; and a row is said to be hidden only if it is that row and the filter leaves it out. |
| RoutingLaws.NoDiagnosticIsTakeable | internal/cli/next_route.go:705-721 | No diagnostic of any outcome carries a row this checkout could take. |
| RoutingRun.DescribeReach | internal/cli/next_route.go:1199-1209 | On such diagnostics the array with one slot for each kind below takeable is never indexed past its end, and each slot holds the rows of its kind in order. |
| RoutingRun.GroupsAreTheRows | internal/cli/next_route.go:1199-1209 | The groups between them name every reported row exactly as often as it is reported. |
| RoutingLaws.ExhaustionIsTrue | internal/cli/next_route.go:640-684 | Exhaustion is never claimed over work there is: no gathered row in a lane our scope covers may be taken, and no work toward anything outside the scope that gates it, at any depth. |
| RoutingExhaustion.NoBlockerMeansInside | internal/cli/next_route.go:199-200 | No blocker is named exactly when everything an open row in scope waits on, at any depth, is in the scope. |
| RoutingExhaustion.NoneHeldByItself | internal/cli/next_route.go:200-201 | No row is named as held exactly when no row in scope is held by itself. |
| RoutingExhaustion.UnstoppedRemains | internal/cli/next_route.go:195-203 | When an exhaustion names neither, every gathered row in scope is in a lane another holder holds, or has not begun and waits on something, and only on tickets of the scope. |
| RoutingExhaustion.AllHeldElsewhere | internal/cli/next_route.go:640-684 | A checkout whose every gathered row is held by others and waits on nothing is told its scope is exhausted, with nothing named as stopping it, whatever the filter. |
| RoutingExhaustion.UnstoppedWithNothingUnderway | internal/cli/next_route.go:195-203 | The failing case exists: an unstarted ticket of our epic, in a lane another checkout took by finishing the ticket before it, is all there is in scope, and the exhaustion names nothing. |
| RoutingRun.PassedOver | internal/cli/next_route.go:715-721 | Every row of the pool is reported once with its reading, in order. |
| RoutingRun.HeldByThemselves | internal/cli/next_route.go:775-784 | Exactly the rows in scope held for a reason of their own are reported, in rank order. |
| RoutingScope.HeldHereIs | internal/cli/next_route.go:764-784 | A row is reported as held exactly when our scope covers it and an outside event holds it, or a missing field or its own design does while it has not begun and no one else holds its lane. |
| RoutingRun.Blockers | internal/cli/next_route.go:815-824 | Every dependency the walk found is reported in walk order, clearable unless some work toward it waits elsewhere. |
| RoutingScope.ClearableIs | internal/cli/next_route.go:787-824 | A blocker is clearable exactly when none of the work toward it awaits an outside event and none that is open has another ticket to wait for. |
| RoutingLaws.NoWorkAccountsForEveryRow | internal/cli/next_route.go:341-359 | The two lists of a run with no work account for every row the filter selects, once, and are both empty exactly when it selects none. |
| RoutingScope.OffPathIs | internal/cli/next_route.go:697-704 | What is named off the focus path is the selected rows the pool does not hold, in rank order. |
| RoutingScope.ExhaustionSays | internal/cli/next_route.go:640-684 | An exhaustion counts the tickets still in the flow, and of them the closed, over our whole scope and over our own lanes; says what blocks it; and names what the focus kept out, or the row the filter hid of the pool. |
| RoutingScope.NarrowedSays | internal/cli/next_route.go:632-682 | What the filter hid of our own work is shown with no scope, what it hid of the pool with the pool's. |
| RoutingRun.ClimbEpics | internal/cli/ready_state.go:302-312 | The climb ends at a parent that is no epic and on a parent cycle. |
| RoutingRun.ClimbFollowsParents | internal/cli/ready_state.go:302-312 | The climb is the parent chain, epic by epic, and ends only where there is no parent, no epic, or one already met. |
| RoutingRun.ClimbIsDistinct | internal/cli/ready_state.go:302-312 | The epics above a row are distinct and never the row itself, whatever the ancestry, cycles included. |
| RoutingRun.Split | internal/cli/ready_state.go:934-943 | The loop splits the rows into the pool and the withheld, each in order. |
| RoutingLaws.FocusSplits | internal/cli/ready_state.go:898-943 | Focus loses no row the filter selects and repeats none. |
| NextAndStart.NextServesWhatStartAllows | internal/cli/claims_takeover.go:143-209 | On one evidence, clock and enumeration, a start of any row `lit next` hands over is never asked to confirm a takeover, although the gate reads only the lane it finds for the row among the issues of its lane family, and routing read the whole backlog. |
| NextAndStart.GateReadsRoutingsLane | internal/cli/claims_takeover.go:165-202 | The lane the gate finds for a gathered row is the lane routing placed the row in, and holds or not for self as routing read it. |
| HoldGate.AuthorizeHold | internal/cli/claims_takeover.go:143-229 | The gate as it runs, over status actions and phase moves, with its reassigned action and early returns, answers the verdict the laws are about. |
| HoldGateLaws.FastPathAgrees | internal/cli/claims_takeover.go:175-183 | When self took the lane last from an identified checkout, the full derivation calls the lane foreign exactly when the enumeration voids self's own checkout and some holder meets the four legs over the lane's history. |
| HoldGateLaws.FastPathMissesOwnVoid | internal/cli/claims_takeover.go:175-183 | The failing case exists: a checkout whose own worktree record git calls prunable passes unasked on a lane another checkout holds. |
| HoldGateLaws.GateRefusesExactlyForeign | internal/cli/claims_takeover.go:143-209 | For a transition that can land and is owed a check, the gate passes every lane that is not foreign with no confirmation, passes every lane with one, and refuses every foreign lane without one for any checkout not voided by its own enumeration. |
| HoldGateLaws.StartRecordsUnlessTaken | internal/cli/claims_takeover.go:184-190 | A start the gate passes goes unrecorded exactly when the ticket's record and the lane's both already name its taker, so one's own ticket in a lane a sibling's start moved is taken back. |
| HoldGateLaws.HoldNeverPassesInSilence | internal/cli/claims_takeover.go:122-142 | Over any run of starts, dones, closes, reopens and phase moves, gated or not, at any clocks, none confirming a takeover and none finding the hold over, the lane keeps its taker. |
| HoldGateLaws.UnconfirmedKeepsTaker | internal/cli/claims_takeover.go:143-209 | One call that confirms no takeover leaves a held lane's taker its taker, whatever the verb. |
| HoldGateLaws.RecordedStartTakesBoth | internal/claims/claimant.go:74-80 | A recorded start makes its taker both the ticket's claimant and the lane's last taker, a reclaim after a sibling's start included. |
| TransitionLaws.RefusesExactly | internal/model/model.go:476-520 | A transition is refused exactly on an epic, on a ticket out of the flow, for a phase move out of progress and for a start under a name no filter could select, and the refusal is the first of these asked. |
| TransitionLaws.PlanWrites | internal/claims/claimant.go:122-151 | A plan writes its action's state, for a start the trimmed assignee, and nothing else of the ticket. |
| TransitionLaws.RecordsExactly | internal/claims/claimant.go:143-151 | A start records unless the ticket is in progress under this taker and assignee and no reclaim is asked, the other verbs when they move the state or the phase. |
| TransitionLaws.HandoverIs | internal/claims/claimant.go:82-101 | A handover is a start of a ticket somebody took before, under another taker or assignee. |
| TransitionLaws.OursIs | internal/cli/claims_takeover.go:57-70 | A lane is ours exactly when the holder is the one that asks and is identified; any other hold is foreign. |
| TransitionLaws.TookExactlyForeign | internal/cli/claims_takeover.go:143-209 | A passed call took a hold over exactly when it was owed a check and the lane is foreign, for a checkout not voided, and only when told to cross. |
| TransitionLaws.ReclaimsExactly | internal/cli/claims_takeover.go:184-190 | What a passed call writes is its action, or as a reclaim exactly a start of what its taker has already started in a lane another took last. |
| TransitionLaws.UngatedLands | internal/cli/claims_takeover.go:88-142 | A close or a reopen that moves a ticket in the flow is recorded whoever holds its lane. |
| TransitionLaws.GatedWaits | internal/cli/claims_takeover.go:143-209 | An unconfirmed start, done or phase move is recorded in no lane another holds. |
| TransitionLaws.RecordsOneEvent | internal/model/phase.go:42-72 | A recorded call appends one event, of its own verb, ticket, actor and checkout, stamped by the clock when that is past all it was planned against and otherwise one past the newest of it. |
| TransitionLaws.StartHoldsForTheWindow | internal/claims/derive.go:58-121 | After a start stamped by the clock the starter holds the lane, to every reader that does not know its checkout gone, for exactly the window, and longer just while its worktree is locked. |
| HoldGateLaws.RepeatedStartRecordsNothing | internal/claims/claimant.go:141-151 | Starting again what one already took records nothing, whatever the clock, enumeration or confirmation by then. |
| HoldGateLaws.RepeatedDoneRecordsNothing | internal/claims/claimant.go:69-73 | A done repeated by anybody records nothing. |
| HoldGateLaws.ClaimantAgreesExceptAfterDone | internal/claims/claimant.go:62-80 | After a recorded transition the ticket's record names the claimant the plan installed, exactly unless it is a done by anybody but the ticket's own claimant. |
| HoldGateLaws.LiveHandoverIsConfirmed | internal/claims/claimant.go:96-116 | A handover whose predecessor still holds the lane is confirmed, or passes from a holder to itself under another assignee. |
| HoldGateLaws.LastTakerHolds | internal/claims/evidence.go:238-245 | If self took the lane last, the lane's holder, if it has one, is self exactly when self's checkout is not voided. |
| HoldGateLaws.StepKeepsOrder | internal/model/phase.go:53-70 | Whatever the clock reads, an event is stamped after the history it was planned against, so appending keeps the lane ordered and its events told apart, over every transition. |
| HoldGateLaws.PhaseFollowsTheRecord | internal/model/phase.go:72-111 | After a recorded transition a ticket is in plan if a start brought it into progress, in the phase a move named, in the phase it had reached if a start took it over, and in none once it left progress. |
| HoldGateLaws.RepeatedPhaseRecordsNothing | internal/model/phase.go:114-144 | A phase move repeated by anybody records nothing. |
| Events.ReadPhase | internal/model/phase.go:80-95 | The loop with its two running values agrees with the phase the laws speak of. |
| Events.LatestEnteringIs | internal/model/phase.go:72-95 | The event the phase is read from is a newest one that enters a phase, and there is none exactly when no event does. |
| Events.RecencyOrders | internal/model/phase.go:33-40 | The order is total and transitive: later is newer, and at one instant the greater id in dictionary order. |
| Events.OrderIsUnique | internal/model/phase.go:38-40 | Events told apart by instant and id have one order, whatever order they were read in. |
| Events.LatestEstablisher | internal/claims/establish.go:75-84 | The scan agrees with the fold the laws are about. |
| Events.LatestIsNewest | internal/claims/establish.go:66-84 | The scan finds the newest establishing event, the first of equals, and none exactly when nothing establishes. |
| Events.LatestIgnoresOrder | internal/claims/establish.go:66-84 | The scan answers alike for a history in any order. |
| HoldGateLaws.VerbsThatTake | internal/claims/establish.go:37-49 | Of the status verbs, start and done take a lane, and no other. |
| Events.EstablishesIs | internal/claims/establish.go:37-60 | Of all strings, start and done alone establish. |
| Events.SameHolderIs | internal/claims/standing.go:57-80 | Two events are one holder's exactly when one checkout recorded them under one trimmed name, no name and unknown being one session. |
| Events.UnphasedIsPlan | internal/model/phase.go:74-97 | A history that enters no phase leaves a ticket in plan. |
| Events.NewLocalCheckouts | internal/claims/local.go:101-114 | The loop agrees with the map the next row describes. |
| Events.GoneIsUnlisted | internal/claims/local.go:101-155 | A checkout is proven gone exactly when it is identified, of this workspace and unlisted; a locked reading comes from a locked listing. |
| Events.LiveCheckouts | internal/workspace/checkouts.go:71-117 | The loop keeps the records that describe a working tree with an identity, in git's order. |
| Events.GoneIsUninhabited | internal/workspace/checkouts.go:123-140 | A checkout of this workspace is proven gone exactly when every record holding its token is one git calls prunable or bare, the asking checkout's included. |
| Events.InhabitedIs | internal/workspace/checkouts.go:71-140 | What is enumerated is every record git calls neither prunable nor bare and whose checkout drew a token, each with its lock. |
| Events.ReadsItsLastListing | internal/claims/local.go:101-125 | A listed checkout of this workspace reads as locked or live as its last listing says. |
| Standing.DeleteVoid | internal/claims/derive.go:79-81 | The in-place deletion keeps exactly the events of checkouts not proven gone, in order; it runs on a copy, so a derivation leaves the lane's events as they were. |
| Standing.Trails | internal/claims/derive.go:131-142 | The loop gives each holder its last write and the set of holders who took the lane. |
| StandingLaws.ActivityIsLast | internal/claims/derive.go:123-142 | In an ordered history the last write to a holder's activity is its newest act. |
| Standing.Contestants | internal/claims/derive.go:161-179 | Every other holder with live establishing evidence appears once, most recent first. |
| Standing.StandingOf | internal/claims/derive.go:58-121 | The derivation as it runs answers what the four legs say. |
| StandingLaws.HeldIsTheFourLegs | internal/claims/derive.go:58-121 | A lane is held, with a given holder, start and last activity, exactly when it is unfinished, that holder recorded the newest establishing event no proven-gone checkout recorded, last acted then, and is covered or locked. |
| StandingLaws.HoldsForTheWindow | internal/claims/derive.go:20-33 | The last taker of an unfinished lane, its worktree not locked, holds it exactly while its last act is no older than the window, the boundary included. |
| StandingLaws.WiderWindowEndsNoHold | internal/claims/derive.go:20-33 | A wider window ends no hold and changes nothing of one. |
| StandingLaws.ContestIs | internal/claims/derive.go:142-178 | Contesting a held lane is everybody else who ever took it, is not proven gone and last acted within the window, each once. |
| StandingLaws.ContestIsMostRecentFirst | internal/claims/derive.go:158-177 | Of two contestants the one whose newest act is later comes first; the stream and then the session decide between equals. |
| StandingLaws.AnswersAgree | internal/claims/derive.go:144-179 | Derivations of one lane agree on the holder, tenure and membership of the contest; they all agree on its order too exactly when no two of the rivals the history leaves are tied. |
| StandingLaws.TiesDifferInWorkspace | internal/claims/derive.go:169-177 | Two rivals are tied exactly when they share their last instant, stream and session and differ in the workspace. |
| StandingLaws.TiedContest | internal/claims/derive.go:169-177 | A held lane with tied rivals exists: two workspaces sharing a stream token start tickets in one instant before a third checkout takes the lane. |
| StandingLaws.VoidingIsErasing | internal/claims/derive.go:66-81 | Voiding equals never having happened: the standing is that of the history without the proven-gone checkouts' events, and none of them holds it. |
| StandingLaws.WithoutEnumerationFreshnessGoverns | internal/claims/derive.go:98-119 | With nothing enumerated the last to take an unfinished lane holds it exactly while its last act is covered. |
| StandingLaws.CommentaryTakesNothing | internal/claims/derive.go:98-103 | A newest event that takes nothing keeps a holder a holder, and makes nobody a holder but its producer, and then only as the last admissible taker. |
| StandingLaws.CommentaryContests | internal/claims/derive.go:144-160 | Such an event adds nobody to the contest but a producer that once took the lane. |
| StandingLaws.TimeOnlyEnds | internal/claims/derive.go:98-119 | A later clock only ends holds, never a locked holder's, and only shrinks the contest, the rest keeping their order. |
| Evidence.Derive | internal/claims/derive.go:37-43 | Every lane with members gets a standing the legs allow, and no other lane does. |
| Evidence.PlaceIssues | internal/claims/evidence.go:138-150 | Every issue is filed in its lane in the order supplied, or an issue with an unsupplied parent is named; refused exactly when there is one. |
| Evidence.SitsIn | internal/claims/evidence.go:131-150 | An issue is placed in its epic's lane of its own key when what it is filed under is an epic, and otherwise in a lane of one. |
| Evidence.FileEvents | internal/claims/evidence.go:151-157 | Every event is filed under its issue's lane, or an event of an unsupplied issue is named; refused exactly when there is one. |
| Evidence.SortLanes | internal/claims/evidence.go:158-164 | Each lane's events are put oldest first, the lanes taken in no particular order. |
| Evidence.NewPartition | internal/claims/evidence.go:131-166 | A read is partitioned exactly when nothing it needs is missing, and then every lane has its members in order and its events, all and only, oldest first. |
| Evidence.NewEvidence | internal/claims/evidence.go:89-96 | The same, with each parent's type read off the issues themselves. |
| Evidence.NewLane | internal/claims/evidence.go:111-121 | A lane is read exactly when the family is complete and holds the issue, and it is the family's lane of that issue. |
| Evidence.LaneFamily | internal/model/model.go:236-272 | The two loops over relations compute the family the laws are about. |
| Evidence.FamilyIs | internal/model/model.go:236-272 | An issue's family is itself and exactly the issues filed under a parent it is filed under, however many parents it has. |
| Evidence.ScopeProgress | internal/claims/evidence.go:219-227 | Counted lane by lane in any order, a scope's progress is that of the issues in it, each once. |
| Evidence.CountMembers | internal/claims/evidence.go:274-290 | The counting loop counts the closed among the tickets still in the flow, and keeps the last one underway. |
| Evidence.ScopeCounts | internal/claims/evidence.go:274-290 | A scope's total is the number of its issues still in the flow, and done the number of those that are closed. |
| Evidence.ActiveIsTheLast | internal/claims/evidence.go:274-290 | A lane reads as active exactly when a member in the flow is in progress, and as the last such member. |
| Evidence.ProgressWithIsTheWrite | internal/claims/evidence.go:263-266 | The progress with a write is that of the members with the written issue in its own place, or beside them when it is new. |
| EvidenceLaws.OneLaneIsTheBacklog | internal/claims/evidence.go:98-121 | For a family that is part of the backlog and whole at one lane, reading the family gives that lane the standing the whole backlog gives it, although its other lanes may be part-read. |
| EvidenceLaws.NewLaneAnswersForTheIssue | internal/claims/evidence.go:98-121 | Reading an issue's lane from its family picks the lane the backlog files the issue in, and the backlog's derived standing there is an answer to it. |
| EvidenceLaws.LaneMateIsFamily | internal/model/model.go:236-247 | Every issue the backlog files in an issue's lane is in the issue's family. |
| EvidenceLaws.LaneFamilyIsWhole | internal/claims/evidence.go:52-56 | A backlog cut to an issue's family is whole at the issue's lane and complete as a read, so the two results above hold of every such read. |
| EvidenceLaws.ReadOrderIsImmaterial | internal/claims/evidence.go:158-164 | The standings do not depend on the order issues or events were supplied in. |
| EvidenceLaws.ErasedBacklogDerivesAlike | internal/claims/evidence.go:249-251 | A backlog with every event of a proven-gone checkout erased gives every lane the same standing. |
| Backups.ListingIsUnique | internal/backup/backup.go:324-336 | The listing order is total, so a directory has one listing and every reader agrees on it. |
| BackupRuns.ListsNewestFirst | internal/backup/backup.go:324-336 | Of two snapshots in a listing the first is newer, or as new and greater in name. |
| Backups.ListsTheSnapshots | internal/backup/backup.go:300-323 | A listing holds each regular file whose name ends as a snapshot's does, once, with its mtime, and nothing else. |
| Backups.ResidueIs | internal/backup/backup.go:151-191 | A temp file is a regular file under a name drawn for a snapshot: the snapshot's own, the mark and digits. |
| Backups.NewestOtherMTime | internal/backup/backup.go:215-223 | The loop agrees with the maximum the stamp is computed from. |
| Backups.StampIsNewest | internal/backup/backup.go:193-211 | However the clock reads and the file system rounds, a stamp is strictly after every other snapshot, and past the clock by at most the step over them. |
| Backups.StampKeepsTheClock | internal/backup/backup.go:200-211 | A take keeps its written mtime exactly when that is two seconds or more past every other snapshot, and otherwise comes two seconds past the newest of them. |
| BackupSet.BackupSet.List | internal/backup/backup.go:300-337 | Every snapshot file is listed once, newest first, and nothing else is; a directory that cannot be read is refused. |
| BackupSet.BackupSet.RemoveResidue | internal/backup/backup.go:166-191 | Exactly the removable temp files of snapshots go, the counts being of those gone and those stuck; a directory that cannot be read loses nothing. |
| BackupSet.BackupSet.Create | internal/backup/backup.go:245-298 | The whole new directory, for a write refused or never come to, a file that is never stamped, a stamp refused, and a stamped file that is or is not reported; a directory under the name refuses the write. |
| BackupSet.BackupSet.Stamp | internal/backup/backup.go:271-297 | The written file's mtime moves past the newest other exactly when the file can be looked at and stamped, and the take is reported exactly when the looks it needs succeed. |
| BackupSet.BackupSet.Prune | internal/backup/backup.go:340-353 | The snapshots past the newest keep go in order up to the first that will not, and nothing else changes. |
| BackupSet.BackupSet.Write | internal/backup/backup.go:135-149 | What stands in the set for every fault: nothing new before the rename, the clock's mtime without a stamp, the new snapshot at the head with one, and a whole take when all succeeds. |
| BackupSet.BackupSet.Take | internal/backup/backup.go:93-126 | A take whose write succeeds turns the listing L into the first keep of its digest's name followed by L without it, for every clock and rounding; everything else stays but dead temp files. Residue that will not go is reported and costs the write nothing, and a failed write or stamp leaves what it says. |
| BackupRuns.SetIsTheMostRecentlyTaken | internal/backup/backup.go:225-239 | After any run of successful takes the listing is the newest keep of the distinct contents by latest take, with what stood at the start behind them. |
| BackupRuns.RecentIsByLatestTake | internal/backup/backup.go:225-239 | The reference list holds the names taken, each before every name last taken earlier, and the names never taken last. |
| BackupRuns.CutCommutes | internal/backup/backup.go:340-353 | Cutting to the newest keep before a take or after it comes to the same, so pruning forgets nothing a later take could need. |
| BackupRuns.StampsStayNearTheClock | internal/backup/backup.go:193-211 | From an empty set the n-th stamp runs past the largest clock reading by at most n order steps. |
| BackupProtocol.NextKeeps | internal/backup/backup.go:86-126 | Every step of every take, a kill at any point included, keeps the set sound, whatever stamps a power loss takes with it. |
| BackupProtocol.GivingUpCleans | internal/atomicfile/atomicfile.go:71-90 | A write that fails and cleans up leaves no temp file and every other file as it was. |
| BackupProtocol.ReadersSeeWholeFiles | internal/atomicfile/atomicfile.go:71-90 | A reader that takes no lock finds, at any moment of any run, a whole export under every snapshot name. |
| BackupProtocol.RemovedTempsAreDead | internal/backup/backup.go:151-165 | Every temp file a lock holder removes belongs to a take that is over, and is no snapshot. |
| BackupProtocol.StampedIsStrictlyNewest | internal/backup/backup.go:240-244 | Whatever was killed before it, a take that has stamped is strictly the newest, and its prune never removes it. |
| BackupProtocol.OneLiveTemp | internal/backup/backup.go:151-165 | At most the holder's own temp file belongs to a running take, so the next take may reclaim every other. |
| BackupRefinement.StepsAreATake | internal/backup/backup.go:93-149 | A take that runs to its end step by step, among any others killed anywhere, does to the set exactly what a take in one call does. |
| BackupRefinement.CutShortLosesNothing | internal/backup/backup.go:240-244 | At whatever step a take is cut short, each of the newest keep - 1 snapshots it found is still listed. |
| BackupRefinement.UnstampedMovesOnlyItsOwn | internal/backup/backup.go:240-244 | A take cut short between its rename and its stamp leaves its own snapshot where the clock put it and the others in the order it found them. |
| BackupHistory.StampedLaterIsListedFirst | internal/backup/backup.go:231-244 | Whatever is killed, and wherever: a name whose last write was stamped after the last write of another is listed ahead of it in every listing from then on; a stamp lost to a power failure is a write of that name. |
| BackupHistory.NewestKeepAreTheLastStamped | internal/backup/backup.go:225-244 | Over concurrent takes killed at any step but between a rename and its stamp, with no stamp lost afterwards, the newest keep of every listing are the newest keep of the contents by latest stamp, with what stood at the start behind them. |
| BackupHistory.CompletedTakeLeavesTheLastStamped | internal/backup/backup.go:225-239 | When a take completes in such a run the whole listing is those names, keep of them at most. |
| BackupHistory.CompletedTakeKeepsToItsBound | internal/backup/backup.go:340-353 | However the takes before it ended, a completed take leaves at most keep snapshots. |
| AtomicFile.TempTargetInverts | internal/atomicfile/atomicfile.go:43-64 | The parser gives back a target exactly for the names a write draws for it. |
| AtomicFile.TempIsNoSnapshot | internal/atomicfile/atomicfile.go:47-64 | A write in flight is never listed as a snapshot. |
| BackupProtocol.RenameKeeps | internal/atomicfile/atomicfile.go:71-90 | The replacement is whole when it appears under its name, since only a filled temp file is renamed. |
| SplitArgs.SplitArgs | internal/cli/flagset.go:346-410 | The loop with its two growing slices splits as the recursive split does, on every command line and ceiling. |
| SplitArgs.TokensAgree | internal/cli/flagset.go:253-281 | Whether a flag token consumes the next one is read as the parser reads it, exactly unless the token is a cluster of shorthands ending in one that takes a value. |
| SplitArgs.StreamParsesAlike | internal/cli/flagset.go:346-410 | Parsing the returned stream gives every flag the value that parsing the whole line gives it; the positionals are the parser's leftovers up to the ceiling, and the stream's own leftovers are the rest. |
| SplitArgs.PositionalsKeepTheirOrder | internal/cli/flagset.go:346-410 | The positionals followed by the stream's leftovers are the line's own positionals in order exactly when nothing but a dash is extracted from behind a dash on its own; as many are extracted as there are, up to the ceiling. |
| SplitArgs.NoLoneDashNoDisturbance | internal/cli/flagset.go:346-410 | A line with no dash on its own keeps its order. |
| SplitArgs.LoneDashIsOvertaken | internal/cli/flagset.go:376-404 | The failing case exists: behind a lone dash, which is taken for a flag, a positional overtakes it. |
| SplitArgs.RefusesTheTerminatorAsValue | internal/cli/flagset.go:329-344 | A line is refused exactly when the parser would read the terminator as a flag's value, and the first such flag is named. |
| SplitArgs.ClustersAreMisread | internal/cli/flagset.go:268-275 | A flag token is read alike in front of every word exactly when it is no such cluster. |
| SplitArgs.NoClusterIsDeclared | internal/cli/flagset.go:268-275 | With no value-taking shorthand declared, as here, no line has one. |
| ManagedSections.MintedConverges | internal/cli/managed_sections.go:38-68 | Every section parsed with single-line markers, neither containing the other, is one a rewrite finds whole in its own output. |
| ManagedSections.WrapConverges | internal/cli/managed_sections.go:49-56 | Plain content is always wrapped, into a block that converges exactly when the begin marker does not contain the end marker. |
| ManagedSections.PlainContentIsWrapped | internal/cli/managed_sections.go:46-54 | Content with no marker is minted between the markers, on lines of its own. |
| ManagedSections.ABlockPassesThrough | internal/cli/managed_sections.go:55-61 | Content that is one block, white space around it aside, is minted as it stands. |
| ManagedSections.RejectsExactly | internal/cli/managed_sections.go:46-68 | A template is rejected, with its counts, exactly when it holds a marker and is not one block. |
| ManagedSections.HookMarkersAreSound | internal/cli/managed_sections.go:49-68 | The hook markers, current and legacy, meet every condition asked of a pair. |
| ManagedSections.PlacesTheSection | internal/cli/managed_sections.go:85-115 | Over a file with no marker, or whose first begin comes before its first end, a run leaves the section where the first begin's line was, or at the end, and keeps every byte outside the replaced lines. |
| ManagedSections.ReportsItsChanges | internal/cli/managed_sections.go:83-115 | A run reports a change exactly when it leaves other content than it found. |
| ManagedSections.PlacedStays | internal/cli/managed_sections.go:85-115 | A file holding the section behind whole marker-free lines is reported unchanged. |
| ManagedSections.IdempotentExactlyWhen | internal/cli/managed_sections.go:85-115 | A second run changes nothing exactly when the file had no marker or a begin before its first end; a third changes nothing exactly when no end was stray. |
| ManagedSections.LoneBeginSettlesLater | internal/cli/managed_sections.go:85-115 | A begin with no end costs the lines behind it: the first run appends the section, the second leaves what was ahead of the begin's line and the section, and from then on the file stands still. |
| ManagedSections.StrayGrowsForever | internal/cli/managed_sections.go:85-115 | Behind an end that comes before every begin, each run adds another section, without bound. |
| MarkerMigration.ReplacesInPlace | internal/cli/managed_sections.go:77-81 | Every occurrence of a marker is replaced where it stands and all around it kept, and a file without one is left as it is. |
| MarkerMigration.MigrationLeavesNoLegacy | internal/cli/managed_sections.go:70-81 | A migrated file holds no legacy marker. |
| MarkerMigration.MigratesAsEither | internal/cli/managed_sections.go:70-81 | A file migrates into one a run settles, or one no run ever will, exactly as its markers stand with the two spellings taken as one, so a half-legacy pair counts as a pair. |
| MarkerMigration.MigratedIdempotentExactlyWhen | internal/cli/managed_sections.go:70-115 | After migration a second run changes nothing exactly when the file had no marker of either pair or a begin of one before every end of either; a third changes nothing exactly when no end came first. |
| MarkerMigration.StrayEndGrowsForever | internal/cli/managed_sections.go:70-115 | An end of either pair before every begin makes every run add a section, although each run migrates. |
| MarkerMigration.HookPairsAreTold | internal/cli/hooks.go:18-19 | The hook markers, current and legacy, meet the conditions asked of two pairs: no marker begins another, nor starts inside one. |
| BacklogContext.PrintBacklog | internal/cli/backlog.go:183-195 | The row loop threads what is on screen from row to row. |
| BacklogContext.SaysWhatChanges | internal/cli/backlog.go:247-323 | Each row prints its epic's line exactly where the epic id changes and its claim's exactly where the lane does, with a marker for no epic and for a claim that no longer stands. |
| BacklogContext.NothingIsSaidTwice | internal/cli/backlog.go:247-323 | Rows of one lane, or of one epic, on end state it once. |
| BacklogContext.HeardRight | internal/cli/backlog.go:247-323 | A reader right about one row is right about the next exactly when rows under one epic id state one epic. |
| BacklogContext.ListingDecodes | internal/cli/backlog.go:247-323 | A reader who takes a blank for the last statement recovers every row's true epic and claim, exactly when adjacent rows under one epic id state one epic and the first row is not in a held lane spelled like no lane. |
| BacklogContext.EveryListingDecodes | internal/cli/backlog.go:183-323 | Issues with ids, under epics with one title each, always decode. |
| BacklogContext.HeldExactlyWhereAClaimStands | internal/cli/backlog.go:233-257 | Read off the standing by two functions, the relation and the claim line, a row's lane is held exactly when its true claim line is not blank. |
| BacklogContext.EpicLineIsNoMarker | internal/cli/output.go:34-39 | No epic line reads as the line that says there is none, and every epic has one. |

## Left out

The program's own:

- The store, its SQL and sync, telemetry, configuration, completion, help, message wording and terminal prompts are effects or wiring.
- Queue facts, prefix census, bulk runs, placement and epic context hold true but easier facts.
- How annotations are computed (field, label, sibling, blocker, orphan and focus annotators): any annotations are classified.
- How a command line becomes a filter: a filter is an arbitrary predicate on rows.
- Failures of reading the store, the configuration or git: each is passed on before anything is decided. A listing of worktrees that fails reads as nothing enumerated.
- Retries, the second storage engine and transactions: a recorded transition runs the plan the gate read.
- Publish, permissions and the two sync disciplines of the atomic write, and takes by versions that hold no lock.
- Sharing of backing arrays: a lane's events, a queue's chain and a listing are values, except for the deletion in place that a derivation runs on its own copy.
- The library sorts are taken at their contract, a rearrangement in the comparator's order; which one of several is not modelled.

What a member does not say:

- Routing.Exhaustion: names the scope's epics as a set, because the code sorts them only for display.
- HoldGate.Apply: takes a container's state and whether an issue is frozen as given, and leaves out the redirect target of a close.
- HoldGateLaws.HoldNeverPassesInSilence: is stated for one enumeration throughout the run, because a checkout that disappears midway is one of the ways a hold may end.
- BackupProtocol.Kill: a power loss may lose any stamps made so far and nothing else, because contents are flushed before the rename.
- BackupProtocol.Stage: takes any unused temp name, because that one is found is the operating system's promise.
- SplitArgs.Parse: pairs tokens as the parser does and leaves out its refusals, because both streams carry the same flags and are refused alike.
- BacklogContext.PrintBacklog: prints a row's epic and claim lines only, because its other lines are its own and are never suppressed.
