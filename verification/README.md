# FamilyFi, modelled and proved

A Dafny model of the parts of FamilyFi whose correctness is not visible in any one function: the browser's
household store, the rotation of refresh tokens and the phone that renews them, clock and window arithmetic,
and the codecs, layouts and decisions around them. Each module follows one source file (a protocol has
more for its runs, and the archive one for its reader):

- `HouseholdStore`, `HouseholdRuns`, `LostAnswers`, `StoreStatus` — the store's closure fields as a class, one method
  for each stretch of code between two awaits, each proved equal to a step on values; then every interleaving of loads,
  writes and the server, where each read takes its snapshot somewhere between its start and its end; what becomes of a
  write whose connection was lost; and what the client says of itself and when it sends a write. Lists are modelled by
  where they came from: the moments their reads were taken, and the local changes since.
- `Rotation`, `RotationRuns` — the session table and `refreshSession`, run start to end and as interleaved steps
  (clock, two lookups, compare-and-swap).
- `Renewal`, `RenewalRuns` — the phone's renewals against that server, one after another; and every interleaving of
  the steps between its awaits (the slot of the renewal under way, attempts that land or are lost, answers that come
  late, unpairing, pairing again), which is shown to come to such renewals.
- `CompanionRequest` — the route loop, its failover rule and the one resend, under any behaviour of the transport.
- `Clock`, `RuleWindows`, `ZoneChanges` — wall times to instants and back, the next reading on given days, and one
  weekly window as a predicate, as bands of a day and as spans of the week; and when the next reading and the end
  of a window are right in a zone whose offset changes.
- `Rules`, `GroupActions` — which rules block a group, what its card's badge, button and menu say about it, and what
  the server's unblock does to them.
- `PolicyNames`, `RuleWrites` — what saving a rule writes to UniFi. An entry of the plan also says which policy of
  the saved rule and of the draft it is about, which the original carries in its name and text.
- `HouseholdState` — the lists under writes: what each holds afterwards, and each group's cached device count.
- `Archive`, `ArchiveReads` — the tar codec, and exactly which bytes its reader takes.
- `Base64Url`, `Semver`, `CardStack` — base64url over a 32-bit buffer that is never masked, SemVer order, and the
  water-filling layout over the reals.
- `Planning`, `Harness`, `HarnessRuns` — the test harness, from a plan to one verdict for each test. Every loop of it
  that records is one loop over entries (a row, then its note) that a failure or an interrupt can stop after any turn
  or between the two statements of one, in the exception handlers and the cleanup as well.
- `Sorting`, `Picking`, `Strings`, `Wrappers` — shared vocabulary.

`dafny verify dfyconfig.toml` checks everything.

## What the proofs found

- A client that checks compatibility can show a failed write's change until its next load: a mismatch that empties the
  store under a write in flight lets that write's rollback put its earlier lists back
  (`HouseholdRuns.TrueExactlyWithoutChecks`; `src/lib/household-store.ts:430-433`).
- `refreshSession` reads the clock before its lookups, so of two retries of a just-replaced token the one that read it
  earlier can look later, and both are then honoured, where the documentation says once. A token is honoured at most
  twice exactly when no retry of it looks, after an honoured retry, with an earlier clock
  (`RotationRuns.HonouredAtMostTwice`, `RotationRuns.OutOfOrderHonouredThrice`; `src/server/auth.ts:268-283`).
- A window's said end is not the first instant it is inactive exactly when a change of the offset before then finds it
  inactive, or in an occurrence that ends on a day before today, or one up to then skipped that end into the window's next start
  (`ZoneChanges.EndsExactly`; `src/lib/rule-windows.ts:67-70`). Three ways to get there: the clocks skip the end
  (`RuleWindows.SkippedEndOutlivesWindow`), go back over it (`ZoneChanges.TurnedBackEndComesLate`), or go back over
  midnight (`ZoneChanges.TurnedBackDayIsMissed`).
- Assigning a device the lists do not hold counts it in its group without its being there
  (`HouseholdState.AssignKeeps`; `src/lib/household-state.ts:58-70`).
- A failure or an interrupt between a verdict's being written and its being noted gives a test two verdicts when a later
  loop of its environment gets to it, and three when that one is cut there too (`HarnessRuns.VerdictsExactly`,
  `HarnessRuns.TornIsTwice`, `HarnessRuns.TornAgain`; `scripts/testing/engine.py:82-110`). An exception outside the
  environments' `try` leaves later tests with none (`HarnessRuns.RaisingLeavesNone`), and so does a second interrupt
  while the first one's cancelling goes on (`HarnessRuns.VerdictsExactly`; `scripts/testing/cli.py:127-129`). The run
  then fails.

## Model

| member | source | states |
|---|---|---|
| HouseholdStore.HouseholdStore.Reload | src/lib/household-store.ts:253-256 | a full reload takes the next generation and counts itself in flight |
| HouseholdStore.HouseholdStore.RefreshLive | src/lib/household-store.ts:305-309 | a live refresh keeps the generation, unless the store is incompatible, when it is a full reload |
| HouseholdStore.HouseholdStore.Withheld | src/lib/household-store.ts:232-251 | a mismatch empties the store; a check that could not be made withholds only from a store already incompatible |
| HouseholdStore.HouseholdStore.AfterCheck | src/lib/household-store.ts:272-274 | a load goes on past its check only when it is of the current generation and not withheld |
| HouseholdStore.HouseholdStore.AfterReads | src/lib/household-store.ts:275-301 | a load's reads are dropped when a newer generation began, set aside for a reload while a write is in flight, and shown otherwise |
| HouseholdStore.HouseholdStore.AfterFailedRead | src/lib/household-store.ts:197-211 | only a failed load of the current generation marks the view stale, and a refused session signs it out |
| HouseholdStore.HouseholdStore.Mutate | src/lib/household-store.ts:343-371 | a write is sent unless the store is incompatible, guarded and out of date, or its group is busy; sending it takes the next token and generation |
| HouseholdStore.HouseholdStore.AfterSuccess | src/lib/household-store.ts:372-402 | the newest write applies its result in a new generation, an older one leaves it to a reload; then the write is settled |
| HouseholdStore.HouseholdStore.AfterFailure | src/lib/household-store.ts:426-440 | the newest write restores the lists it began from and rereads after a lost connection; an older one leaves its undoing to a reload |
| HouseholdStore.HouseholdStore.Finally | src/lib/household-store.ts:441-452 | settling frees the group and, with the last write gone, starts the reload that was waiting |
| HouseholdStore.Without | src/lib/household-store.ts:443-446 | freeing a group takes it and nothing else from the busy ones |
| HouseholdRuns.StepHolds | src/lib/household-store.ts:232-452 | every step of every interleaving keeps the whole invariant: counters exact, generations ordered, loads timed, rollbacks nested, view excused or true |
| HouseholdRuns.RunHolds | src/lib/household-store.ts:232-452 | the invariant holds after every run |
| HouseholdRuns.ShownIsTrue | src/lib/household-store.ts:275-295 | lists a load puts on screen hold every saved write and no failed one's change |
| HouseholdRuns.NoLostWrite | src/lib/household-store.ts:253-302 | whatever a load shows was read, list by list, after every write whose success had been answered, superseded ones included |
| HouseholdRuns.SettledViewIsTrue | src/lib/household-store.ts:353-452 | once no write, waiting reload or current load is left and the view is not stale, the lists show every saved write and no failed write's change |
| HouseholdRuns.BusyIsExact | src/lib/household-store.ts:351-371 | the busy count is the number of writes in flight, at most one for a group, and a reload waits only while one is |
| HouseholdRuns.RollbackUndoesOnlyItsOwn | src/lib/household-store.ts:430-433 | the newest write finds the lists as it left them, so rolling it back takes away its own change and nothing else |
| HouseholdRuns.NeverIncompatible | src/lib/household-store.ts:222-251 | a client that never checks compatibility is never incompatible |
| HouseholdRuns.PhantomWhenIncompatible | src/lib/household-store.ts:232-251 | a run that ends settled, incompatible, and showing a failed write's change |
| HouseholdRuns.TrueExactlyWithoutChecks | src/lib/household-store.ts:430-433 | every settled view of every run is true exactly for a client that never checks compatibility |
| LostAnswers.LossIsReread | src/lib/household-store.ts:426-433 | a client with an offline guard whose newest write loses its connection starts a full load of the current generation there and then |
| LostAnswers.SettledAfterLoss | src/lib/household-store.ts:426-452 | a settled view of such a client was read, list by list, after every lost answer, so it holds each of those writes that had landed |
| StoreStatus.StatusIsLastGiven | src/lib/household-store.ts:197-302 | after any run the status is the last one a load of the current generation gave, and the view is stale exactly when the last of those that told anything broke |
| StoreStatus.SentExactly | src/lib/household-store.ts:192-371 | a write is sent exactly when the server can be read, a guarded client is ready and not stale, and no write in flight is for its group; otherwise nothing changes |
| StoreStatus.LiveRereads | src/lib/household-store.ts:305-309 | a live refresh of a server that could not be read is a full load that supersedes every load on its way; any other supersedes none |
| StoreStatus.RereadsExactly | src/lib/household-store.ts:372-452 | how many loads an answered write starts: one for the newest write's lost connection on a guarded client, and one for whatever was set aside once the last write ends |
| Rotation.SessionTable.SwapToken | src/server/auth.ts:298-307 | the guarded update changes one row or none, opens the grace for the replaced token, and closes it after a retry |
| Rotation.SessionTable.EndSignIn | src/server/auth.ts:284 | ending a sign-in revokes its row |
| Rotation.SessionTable.RefreshSession | src/server/auth.ts:273-310 | the code computes `Refresh`, the specification the runs are proved about |
| Rotation.RefreshAnswers | src/server/auth.ts:273-310 | which answer a whole call gets, for any row that alone knows the token: honoured as the sign-in allows, reuse after the window, or invalid |
| Rotation.RefreshUpdates | src/server/auth.ts:284-307 | what a whole call changes: an honoured one the token, lifetime and window of its row, reuse the sign-in, and any other refusal nothing |
| RotationRuns.StepHolds | src/server/auth.ts:273-310 | every step of interleaved calls keeps the invariant on rows, honours and calls |
| RotationRuns.RunHolds | src/server/auth.ts:273-310 | the invariant holds after every run |
| RotationRuns.OneWinner | src/server/auth.ts:298-307 | each current token is rotated away once, a second honour of a token is a retry inside the first one's window, and of two rotations of a row the later looked after the earlier |
| RotationRuns.RetryInsideGrace | src/server/auth.ts:283-290 | a retry is honoured only within ten seconds of its token's being replaced |
| RotationRuns.HonouredAtMostTwice | src/server/auth.ts:268-290 | a token is honoured at most twice over a run exactly when no retry of it looks, after an honoured retry, with an earlier clock |
| RotationRuns.InOrderAtMostTwice | src/server/auth.ts:268-290 | a token whose second lookups, honoured or not, come in the order of their clocks is honoured at most twice |
| RotationRuns.RetryHonouredExactly | src/server/auth.ts:281-307 | a retry with nothing between its second lookup and its update is honoured exactly when its row can be renewed and its time is inside every window its token has had |
| RotationRuns.OutOfOrderHonouredThrice | src/server/auth.ts:274-283 | for all times inside the grace, two retries that look in the opposite order of their clocks have one token honoured three times |
| RotationRuns.RevokedIsFinal | src/server/auth.ts:291-307 | a revoked row stays revoked and never honours a token again |
| RotationRuns.ReuseEndsSignIn | src/server/auth.ts:283-286 | answering that a token was reused means its sign-in has ended |
| RotationRuns.LateUseIsReuse | src/server/auth.ts:283-286 | a just-replaced token looked up after its window is answered as reuse and its row revoked |
| RotationRuns.UninterruptedIsRefresh | src/server/auth.ts:273-310 | a call nothing comes between is the whole of `refreshSession` |
| Renewal.HitKeepsUnique | src/server/auth.ts:273-310 | a refresh never gives two rows one token, current or replaced |
| Renewal.FirstHit | src/server/auth.ts:297-309 | the current token rotates while the sign-in lives and opens the grace for itself |
| Renewal.LaterHit | src/server/auth.ts:281-290 | the token just replaced is honoured strictly inside its window and ends the sign-in after it |
| Renewal.RenewsExactlyInTime | src/lib/companion-session.ts:107-142 | a renewal's last landing is answered with a token exactly when the sign-in was alive at its first and at most one answer was lost, the retry inside the grace; the phone then holds the row's current token |
| Renewal.InStepExactlyInTime | src/lib/companion-session.ts:107-142 | over a whole run of renewals the phone stays paired exactly when every one was in time |
| Renewal.TwoRoutesFit | src/lib/companion-request.ts:52-61 | two routes' five-second timeouts fit the server's ten-second grace, so a renewal over two routes goes through |
| Renewal.BoundIsTight | src/lib/companion-request.ts:52-61 | landing at the very end of the timeouts, or on a third route, can miss the grace |
| Renewal.OverlapStrandsThePhone | src/lib/companion-session.ts:107-118 | two renewals at once leave a phone that keeps the first answer refused at its next |
| RenewalRuns.CompanionSession.StartRenewal | src/lib/companion-session.ts:115-121 | a renewal under way is joined; else the slot is taken and the held token asked for, if there is one |
| RenewalRuns.CompanionSession.AfterAnswer | src/lib/companion-session.ts:121-137 | an answer for what the phone still holds gives it the new session or makes it forget; any other changes nothing |
| RenewalRuns.AnswerChangesItsOwn | src/lib/companion-session.ts:120-137 | an answer for another household or session changes nothing; for the one held, a token renews it and a refusal unpairs |
| RenewalRuns.CompanionSession.Trust | src/lib/companion-session.ts:236-242 | pairing again replaces household and session and leaves a renewal under way in its slot |
| RenewalRuns.CompanionSession.Renew | src/lib/companion-session.ts:115-142 | with nothing between, the attempts reach the server in turn; the phone takes an answered token, forgets on a refusal, and keeps what it holds otherwise |
| RenewalRuns.StepHolds | src/lib/companion-session.ts:107-256 | every step of every interleaving keeps the invariant on the slot, the renewals under way and the phone's row |
| RenewalRuns.OneRenewalAtATime | src/lib/companion-session.ts:107-118 | at most one renewal runs at a time, and one that asks for the session held presents its token |
| RenewalRuns.LateAnswerIsDropped | src/lib/companion-session.ts:122-130 | an answer for a session the phone has forgotten or replaced changes nothing |
| RenewalRuns.OpenRenewalIsOne | src/lib/companion-session.ts:107-142 | all attempts made with one token, over however many tries, stand as one renewal: answered with a token exactly when in time |
| RenewalRuns.PairedExactlyInTime | src/lib/companion-session.ts:107-142 | over every interleaving, a phone that has not unpaired is still paired exactly when each answered renewal was in time, and then holds its row's current token |
| CompanionRequest.SendRequest | src/lib/companion-request.ts:75-133 | the loop sends, fails over and answers as `Try` says |
| CompanionRequest.TriesEachRouteOnce | src/lib/companion-request.ts:78-131 | each enabled route is called at most once, in order; the first that FamilyFi answers ends it with its body or its error's status; no answer means every route it could try failed or turned it away; and another path is refused uncalled |
| CompanionRequest.RoutesInOrder | src/lib/companion-request.ts:84-89 | the enabled routes are tried in the manifest's order, but the one that last answered first |
| CompanionRequest.KindIs | src/lib/companion-request.ts:51-80 | any route may take a GET or HEAD in any letter case, a sign-in, a sign-out or a refresh, and nothing else; a refresh alone has the short timeout |
| CompanionRequest.ActiveIsFirst | src/lib/companion-request.ts:85-89 | the route that last answered, while enabled, is tried first |
| CompanionRequest.CredentialsStayHome | src/lib/companion-trust.ts:171-176 | an Access credential goes only to its own route at its current version, a call goes without one only when none held is for its route, and every call carries the one bearer |
| CompanionRequest.MovesExactly | src/lib/companion-request.ts:90-131 | a request is called for on a second route exactly when any route may take it, there is a second one, and the first gave no answer of FamilyFi's |
| CompanionRequest.PostStaysOnOneRoute | src/lib/companion-request.ts:60-61 | whatever the transport does, a POST that is not a sign-in, a sign-out or a refresh is called for at most once |
| CompanionRequest.RefreshFitsGrace | src/lib/companion-request.ts:52-58 | over two routes all the calls of a refresh, each to its timeout, end within the server's grace |
| CompanionRequest.SignedRequest | src/lib/companion-session.ts:162-174 | a request renews first when expiring, and is sent once more after a 401 with the session then held; a renewal after that which gave no session throws what it was answered |
| CompanionRequest.ResentExactly | src/lib/companion-session.ts:162-174 | it is sent a second time exactly when the first sending was answered 401, a renewable session is then held, and its bearer is another one or a renewal gave a session; its answer is then that sending's, else the first one's or the renewal's own |
| CompanionRequest.RefusedFirstIsNotSent | src/lib/companion-session.ts:163-165 | an expiring bearer whose renewal is refused ends the request unsent |
| CompanionRequest.RefusedWriteGetsThrough | src/lib/companion-session.ts:166-173 | a write refused unread and then renewed is sent with the new bearer and answered |
| CompanionRequest.WriteTry | src/lib/companion-request.ts:108-128 | one sending of a household write makes at most one call, and a 401 heard is FamilyFi's own |
| CompanionRequest.WriteIsDeliveredOnce | src/lib/companion-session.ts:162-174 | a household write makes at most two calls, the second only after FamilyFi itself refused the first, so at most one can have changed the household |
| CompanionRequest.ResendIsRenewed | src/lib/companion-session.ts:166-173 | a write is sent again only with another bearer |
| Clock.ZonedWallTimesToUtc | src/lib/clock.ts:119-134 | the probes, the filter and the sort compute `WallTimes` |
| Clock.ProbesFindAll | src/lib/clock.ts:127-129 | the three probes find exactly the instants whose clock reads the wall time |
| Clock.InversionExact | src/lib/clock.ts:119-134 | the result is every instant that reads the wall time, in order, and no other; for a skipped time, the reading under the earlier offset, moved forward by exactly the jump |
| Clock.NextClockOnDays | src/lib/clock.ts:39-59 | the search loop computes `NextClock` |
| Clock.SearchFrom | src/lib/clock.ts:49-58 | the loop over eight days finds what the recursive search does |
| ZoneChanges.NextClockExactly | src/lib/clock.ts:39-59 | in a zone whose offset changes the result is the least later mark exactly when it is a mark and no change brings yesterday's back first; and none is given only when the eight days searched hold none |
| ZoneChanges.NoneMissed | src/lib/clock.ts:49-58 | the search misses no mark of the days it searches |
| Clock.NextClockIsLeast | src/lib/clock.ts:49-58 | with a fixed offset there always is a next clock time, the least later mark |
| Clock.ComesUp | src/lib/clock.ts:50-57 | one of the days comes up within the eight searched |
| Clock.NextDays | src/lib/clock.ts:31-37 | the end days of a window across midnight are the days after its own |
| Clock.EndDaysAre | src/lib/clock.ts:31-37 | which weekdays a window ends on: its own, or the days after them when it does not end after it starts |
| Clock.PrintedTimeReads | src/lib/clock.ts:9-14 | a printed "HH:MM" comes to its hours times sixty and its minutes, and nothing else is read |
| Clock.Located | src/lib/clock.ts:136-140 | in a fixed zone an instant lies in the minute and day its clock reads |
| RuleWindows.WindowDayBands | src/lib/rule-windows.ts:82-95 | a minute is in a day's bands exactly when the window is active then, and a carried band is the tail of the day before |
| RuleWindows.WeekSpans | src/lib/rule-windows.ts:109-123 | a minute of the week is in a span exactly when the window is active then |
| RuleWindows.WindowOverlaps | src/lib/rule-windows.ts:97-106 | a pair is listed exactly when some minute of some weekday has both active, Saturday into Sunday included; pairs in order |
| RuleWindows.TouchIsShare | src/lib/rule-windows.ts:97-106 | spans touch exactly when they share a minute |
| RuleWindows.RunsToEnd | src/lib/rule-windows.ts:54-70 | an active occurrence runs without a break to its end, which falls on an end day and is not active |
| ZoneChanges.EndsExactly | src/lib/rule-windows.ts:54-70 | a window is active up to the end it is said to have exactly when it goes on through every change of the offset before then; that end is its first inactive instant exactly when, besides, no change up to then skipped an end into the window; an end is missing only when a change within a day cuts the window short |
| ZoneChanges.ActiveAtSaidEnd | src/lib/rule-windows.ts:67-70 | a window is active at its said end exactly when a change skipped that end into it |
| ZoneChanges.EndsWithinADay | src/lib/rule-windows.ts:67-70 | with no change in the day to come and no end skipped into the window, the end is known, within the day, and the first inactive instant |
| RuleWindows.EndIsFirstInactive | src/lib/rule-windows.ts:67-70 | with a fixed offset the end of an active window is always known, not active, and its first inactive instant |
| RuleWindows.SkippedEndOutlivesWindow | src/lib/rule-windows.ts:67-70 | an input: a window whose end time the clocks skip is over at the jump and said to end later |
| ZoneChanges.TurnedBackEndComesLate | src/lib/rule-windows.ts:67-70 | an input: a window the clocks go back over is over then and said to end an hour later |
| ZoneChanges.TurnedBackDayIsMissed | src/lib/rule-windows.ts:67-70 | an input: where the clocks go back over midnight, the end on the day before is not searched for |
| RuleWindows.LongestIs | src/lib/rule-windows.ts:134-140 | the window named is one of the active ones and none outlasts it |
| RuleWindows.StateSays | src/lib/rule-windows.ts:130-155 | the state is the running block, else the running allowance over the longest active window, else that window until its end, else online, with no rule when there is no window |
| RuleWindows.EndsOnlyWhileActive | src/lib/rule-windows.ts:67-70 | a window that is not active or never ends has no end |
| ZoneChanges.BlockedUntilSaid | src/lib/rule-windows.ts:130-148 | in any zone a group no one blocked or unblocked is blocked exactly while a window is active; it stays blocked up to the end it is told when the window named goes on through every change before then |
| Rules.LiftsAgree | src/lib/rules.ts:228-236 | the two ways of asking whether a rule is lifted for a group agree |
| Rules.ActiveWindowsEndIs | src/lib/rules.ts:242-248 | nothing exactly when no window is active; else the end of one of them that none outlasts |
| Rules.EndIsLater | src/lib/rules.ts:242-248 | in any zone an end that is known is still to come |
| Rules.InternetWindowsAre | src/lib/rules.ts:254-258 | the group's internet windows are those of its enabled, unlifted internet rules |
| Rules.AlwaysHasNoEnd | src/lib/rules.ts:260-268 | an always-on rule is active at any time and never ends |
| GroupActions.BlockingAre | src/lib/group-actions.ts:49-64 | the list holds exactly the rules that block the group now, longest first |
| GroupActions.TiesInRuleOrder | src/lib/group-actions.ts:64 | rules that block until the same time are listed in the order of the rules |
| GroupActions.ToUnblockAre | src/lib/group-actions.ts:72-80 | an unblock lifts exactly the blocking rules that are not standing ones |
| GroupActions.InternetIsLifted | src/lib/group-actions.ts:73-80 | an internet rule that blocks is always among those an unblock lifts |
| GroupActions.BadgeTellsTheTruth | src/lib/group-actions.ts:170-238 | the badge is Blocked exactly when the group has no internet, and the last case of the status never says so |
| GroupActions.StatusSays | src/lib/group-actions.ts:170-238 | the tone by what limits the group and the colour by what someone changed, by the rules and the group alone |
| GroupActions.BuiltInIsNoBlock | src/lib/group-actions.ts:50-60 | a built-in rule never blocks a group, and Lock DNS counts for nothing on its card |
| GroupActions.ButtonFollowsBadge | src/lib/group-actions.ts:273-289 | the button unblocks while a rule it lifts blocks, and always under a Blocked badge; it resumes or blocks only with internet |
| GroupActions.ButtonIs | src/lib/group-actions.ts:273-289 | which button shows, each exactly: Unblock, Unblock now, Resume or Block, by the rules and the group alone |
| GroupActions.MoreIsTimed | src/lib/group-actions.ts:281-288 | More time for an unblock is offered exactly when no one blocks the group, no rule blocks it but standing ones, and its allowances, of which there is one, all end |
| GroupActions.UnblockIsTheLast | src/lib/group-actions.ts:110-121 | the group's unblock ends with the last of its rules' allowances, never when one never does |
| GroupActions.GroupMenu | src/lib/group-actions.ts:298-329 | the pushes compute `Menu` |
| GroupActions.MenuHolds | src/lib/group-actions.ts:298-329 | the menu is empty unless a category, app or website rule blocks the group or is lifted for it; then it holds an Unblock for each blocking rule but one the button alone lifts, and a Block again for each of the household's rules paused for the group |
| GroupActions.MenuOffersBlock | src/lib/group-actions.ts:305-307 | it offers Block internet exactly while it is out, the badge is Online and the button is not Block |
| GroupActions.EveryBlockCanBeLifted | src/lib/group-actions.ts:291-329 | every rule blocking the group is lifted by the button or listed in the menu |
| GroupActions.MenuNamesEachRuleOnce | src/lib/group-actions.ts:309-328 | no rule is in the menu twice, nor both to unblock and to block again |
| GroupActions.LiftRuleLifts | src/server/group-unblock.ts:42-71 | with or without an end asked for, the unblock stops a rule from blocking that group unless it is standing, allows a rule it lifts until the end asked for or else its windows' own, and changes nothing for another group |
| GroupActions.LiftsExactly | src/server/group-unblock.ts:42-71 | exactly the rules it may lift are allowed for the group, until the end asked for or the latest end of their own active windows, and nothing else of any rule changes |
| GroupActions.RefusesExactly | src/server/group-unblock.ts:42-59 | it is refused exactly when the end asked for is not to come, or when no one blocks the group and there is no rule it may lift |
| GroupActions.UnblockClears | src/server/group-unblock.ts:42-72 | after the server's unblock exactly the standing rules still block, and the card has nothing left to unblock |
| GroupActions.OthersStayBlocked | src/server/group-unblock.ts:60-71 | what blocks any other group is untouched |
| GroupActions.UnblockAnswersTheButton | src/server/group-unblock.ts:42-72 | an unblock the card offers is never refused, whatever end to come is asked for; the group then reads as online, and the button resumes once a rule was lifted |
| PolicyNames.NamesStartAndFit | src/lib/policy-names.ts:36-64 | every policy name starts with FamilyFi's prefix and fits UniFi's limit |
| PolicyNames.NamesSay | src/lib/policy-names.ts:22-64 | each name says the rule and, when there are several windows, its window, in their order, and is cut only where the limit makes it |
| RuleWrites.SameListIsSame | src/lib/rule-writes.ts:21-22 | comparing sorted and joined text says exactly whether two lists of texts hold the same things as often, for texts as websites and ids are |
| RuleWrites.NormalisedNoComma | src/lib/rules.ts:95-107 | normalised websites and ids are such texts |
| RuleWrites.SameNumbersIsSame | src/lib/rule-writes.ts:21-22 | for numbers it says so always |
| RuleWrites.RuleWritePlan | src/lib/rule-writes.ts:29-74 | the pushes compute `Plan` over the rules' policy names |
| RuleWrites.PoliciesSay | src/lib/rule-writes.ts:30-31 | the plan's names are those of the rule's own name and its windows', in their order |
| RuleWrites.EveryPolicyOnce | src/lib/rule-writes.ts:24-74 | each policy of the saved rule, and each of the draft, is in exactly one entry, over every change between always-on and scheduled |
| RuleWrites.EveryEntrySound | src/lib/rule-writes.ts:38-72 | new only in the draft, deleted only in the saved rule, changed or kept in both, under the draft's name for what stays |
| RuleWrites.KeepsExactlyUnchanged | src/lib/rule-writes.ts:29-74 | everything is kept exactly when kind and policy names are unchanged, the targets, websites and groups are the same in any order, and the drafted windows are the saved ones by id, each at its times; the plan is empty exactly when no policy is saved and none drafted |
| HouseholdState.ClampNeverFires | src/lib/household-state.ts:48-56 | a group a device points at counts at least one, so the clamp at zero never fires |
| HouseholdState.AssignKeeps | src/lib/household-state.ts:58-70 | assigning keeps counts right exactly when the device is known or no listed group gains it |
| HouseholdState.RemoveKeeps | src/lib/household-state.ts:72-79 | removing a device keeps counts right |
| HouseholdState.RemoveGroupKeeps | src/lib/household-state.ts:81-88 | deleting a group keeps counts right |
| HouseholdState.ApplyKeeps | src/lib/household-state.ts:95-108 | applying an answer keeps counts right exactly when a group it brings counts the devices then listed |
| HouseholdState.CountsStayRight | src/lib/household-state.ts:48-108 | after any sequence of changes each group's count is the number of devices that point at it |
| HouseholdState.AssignLeaves | src/lib/household-state.ts:58-70 | assigning leaves every device in its place, the assigned one in its group with its mark, and moves the counts of two groups |
| HouseholdState.RemoveLeaves | src/lib/household-state.ts:72-79 | removing a device leaves every other in its order and takes one off its group |
| HouseholdState.RemoveGroupLeaves | src/lib/household-state.ts:81-88 | deleting a group leaves every other group in its order, and only its own devices lose their group and mark |
| HouseholdState.ApplyLeaves | src/lib/household-state.ts:32-109 | an answer's removed group, device and group are taken in that order, each in its place or at the end, and a part it lacks changes nothing |
| HouseholdState.ConfirmingIsEnough | src/lib/household-state.ts:58-108 | an optimistic assignment followed by the server's answer equals the answer alone |
| Archive.DigitsValue | src/server/archive.ts:21-23 | octal digits mean the number they were printed from |
| Archive.PaddingLength | src/server/archive.ts:50-52 | padding fills the last block and no more |
| Archive.Checksum | src/server/archive.ts:44-48 | the loop sums the block with its own field as spaces |
| Archive.Header | src/server/archive.ts:25-42 | the fields written in place leave exactly the header block |
| Archive.SumBlind | src/server/archive.ts:44-48 | the checksum is blind to its own field |
| Archive.SumIsOwn | src/server/archive.ts:39-40 | the checksum fits six octal digits and, once written, is the block's own |
| Archive.HeaderReads | src/server/archive.ts:89-99 | a written header is not all zero and reads back as its file's name and size |
| Archive.WriteArchive | src/server/archive.ts:54-62 | the archive of the files, or an error when a name cannot be archived |
| Archive.ArchivableIs | src/server/archive.ts:57 | the names it can hold: one to a hundred letters, digits, dots, underscores and hyphens |
| Archive.ReadArchive | src/server/archive.ts:76-106 | the read loop ends on any bytes and computes `Read` |
| Archive.RoundTrip | src/server/archive.ts:54-106 | reading what was written gives back exactly the same files |
| Archive.ReadIsSound | src/server/archive.ts:88-104 | on any bytes, every file returned has an allowed name, is within the cap and is a slice of the archive |
| ArchiveReads.ReadsExactly | src/server/archive.ts:76-106 | what the reader takes and refuses, on the bytes: headers whose checksum field reads as the sum of their block, of plain type, without prefix, of an allowed name no earlier one had, each file cut at its size |
| ArchiveReads.AlteredIsDamaged | src/server/archive.ts:91 | a written archive with one header byte outside the checksum's own field changed is refused as damaged |
| ArchiveReads.HeaderLayout | src/server/archive.ts:25-42 | every byte of a written header, field by field |
| Base64Url.EncodeBytes | src/lib/base64url.ts:8-16 | the encoder's loops compute the groups of section 5 of RFC 4648 |
| Base64Url.DecodeText | src/lib/base64url.ts:23-40 | the decoder's loop over a never-masked 32-bit buffer computes them back for any length |
| Base64Url.WrapKeepsLow | src/lib/base64url.ts:32-36 | what a 32-bit shift wraps away lies above every bit still to be used |
| Base64Url.PushedByte | src/lib/base64url.ts:32-36 | the byte pushed is the waiting bits of the buffer and the top of the new value |
| Base64Url.DecodesEncoded | src/lib/base64url.ts:8-40 | every byte string comes back, whatever padding was added |
| Base64Url.EncodesDecoded | src/lib/base64url.ts:8-40 | a decoded text comes back exactly when it had no padding and zero trailing bits |
| Base64Url.DecodesExactly | src/lib/base64url.ts:18-31 | refused exactly: before the `=` it ends with, a character outside the alphabet, or one over a group of four |
| Semver.ComparePrereleases | src/lib/semver.ts:23-43 | the loop over identifiers computes `ComparePrerelease` |
| Semver.CompareSemver | src/lib/semver.ts:63-69 | the loop over the core computes `Compare` |
| Semver.CompareIsNumeric | src/lib/semver.ts:17-21 | comparing lengths, then digits, compares the unbounded numbers |
| Semver.CompareIsSection11 | src/lib/semver.ts:17-69 | the order is that of section 11 of Semantic Versioning 2.0.0 |
| Semver.TotalOrder | src/lib/semver.ts:62-69 | antisymmetric, transitive, and zero exactly for equal `version` texts |
| Semver.ParsesItsText | src/lib/semver.ts:46-60 | every valid version, with any build identifiers, parses back as itself |
| Semver.ParsesExactly | src/lib/semver.ts:11-15 | parsing takes exactly the texts of valid versions |
| Semver.TagsParse | src/lib/semver.ts:45-48 | a tag's leading `v` and surrounding white space change nothing |
| Semver.InputsExactly | src/lib/semver.ts:46-60 | an input parses exactly when, but for white space around it and one leading `v`, it is the text of a valid version |
| CardStack.FoldDecreases | src/lib/card-stack.ts:101-107 | giving a thin peek the edge makes the fold strictly smaller until it is 0 |
| CardStack.FoldPeeks | src/lib/card-stack.ts:98-109 | ends with the largest fold in balance for all free peeks, none thinner than an edge, within the room when it holds every edge |
| CardStack.FoldAtLeast | src/lib/card-stack.ts:98-109 | no fold in balance is larger than the fold while fewer peeks are edges |
| CardStack.OpenPeeks | src/lib/card-stack.ts:66-71 | peeks stay as they are when they fit, else those above share one fold and fit when every edge does |
| CardStack.NaturalPeeks | src/lib/card-stack.ts:32-34 | a peek is the larger of the head less 22 and three fifths of it rounded up, and the last card's under the open one its whole head |
| CardStack.OpenTakes | src/lib/card-stack.ts:73-81 | what an open card takes of the room, measured and not |
| CardStack.StackLayout | src/lib/card-stack.ts:39-91 | frames follow the peeks; a measured open card gets exactly the lesser of its content and what the cards above leave at their thinnest, and never less than its head and least body |
| Planning.Prerequisites | scripts/testing/planning.py:16-26 | what is needed, and what each selected serial test waits for |
| Planning.InOrderIs | scripts/testing/planning.py:28 | the needed tests, each once, in order |
| Planning.PlanPlatform | scripts/testing/planning.py:12-35 | one numbered step for each needed test, each after all it depends on, which for a selected serial test is every earlier one of its group and otherwise nothing; each goes to its test's runner |
| Harness.FinishAll | scripts/testing/adapters.py:81-101 | the loop computes `FinishCases` |
| Harness.SkipIsNeverAPass | scripts/testing/adapters.py:81-101 | every selected case has an outcome, never a skip, and a good one only by the runner's own word |
| Harness.CasesAre | scripts/testing/adapters.py:81-101 | every case's outcome: missing tests fail or are errors as their files did, a skip is blocked exactly when something it depends on has not passed by then, and a batch of skips alone fails |
| Harness.RemarksAre | scripts/testing/adapters.py:104-112 | the rows beside a batch's cases: coverage held or missed, and an error exactly when there was one or the runner failed unexplained |
| Harness.GroupAre | scripts/testing/engine.py:9-17 | a batch has its runner's steps, every one and no other, in the plan's order |
| Harness.PostgresAre | scripts/testing/engine.py:39-44 | the steps set aside without PostgreSQL are those that need it, and the rest are kept in their order |
| Harness.ExitIs | scripts/testing/reporting.py:65-67 | the exit code is 0 exactly when something was recorded and none of it is bad |
| Harness.Report.Record | scripts/testing/engine.py:82-86 | a loop that records: a row and its note for each entry, over what has an outcome when guarded, up to where it is stopped |
| Harness.Report.RunBatch | scripts/testing/engine.py:68-98 | a batch's cases recorded up to where something stops it, and after an exception the steps left, up to where that is stopped |
| Harness.Report.RunEnvironment | scripts/testing/engine.py:30-115 | an environment with its handlers and its `finally`, each of which can fail or be interrupted in turn |
| Harness.Report.RunPlan | scripts/testing/engine.py:29-116 | the environments in turn, up to the first that raises or is interrupted |
| Harness.Report.Cancel | scripts/testing/reporting.py:57-63 | a row for each step that had none, in order, up to where it is stopped |
| Harness.Report.Invoke | scripts/testing/cli.py:115-145 | the whole invocation, to its exit code or to the exception that ends it without one |
| HarnessRuns.EnvironmentGrows | scripts/testing/engine.py:29-115 | an environment leaves every step with an outcome unless its last loop is stopped, and touches no other's; a step has one row for its outcome and one for each loop that was cut between writing and noting it |
| HarnessRuns.CountsExactly | scripts/testing/engine.py:82-110 | a step has a row exactly when a loop reached it, and more than one exactly when one loop was cut between its two statements and another reached it |
| HarnessRuns.VerdictsExactly | scripts/testing/cli.py:115-131 | over a whole invocation, under any failures and interrupts, how many verdicts a test gets: by the loops that reached it and, with none, by whether cancelling got to it |
| HarnessRuns.OneVerdictEach | scripts/testing/engine.py:26-116 | a run that ends without raising, its cancelling uninterrupted, gives every planned test a verdict, and exactly one unless a loop was cut between its two statements and another reached it; nothing else has any |
| HarnessRuns.RaisingLeavesNone | scripts/testing/engine.py:29-35 | an exception that leaves an environment leaves the tests of all after it without a verdict |
| HarnessRuns.NoDirectoryNoVerdicts | scripts/testing/engine.py:31-33 | a directory that cannot be made leaves its own tests without one too |
| HarnessRuns.ZeroExitMeansAllGood | scripts/testing/reporting.py:65-92 | a zero exit means every planned test has its one verdict and it is passed, expected-failure or not-run, whatever went wrong on the way |
| HarnessRuns.FailingRunnerFails | scripts/testing/adapters.py:104-111 | a runner that exits non-zero fails the run, even when every case it reported passed |
| HarnessRuns.PlanKeysUnique | scripts/testing/planning.py:12-36 | in a plan over different platforms no two steps share a key |
| HarnessRuns.TornIsTwice | scripts/testing/engine.py:82-110 | a batch cut, by an exception or an interrupt, between the two statements for a step gives it a second verdict when the next loop gets to it |
| HarnessRuns.TornAgain | scripts/testing/engine.py:93-110 | and a third when that loop is cut there too |

## Left out

- ZoneChanges.EndsExactly: is about zones with two days or more between changes of the offset and none of more than a day, as zones in use are.
- RenewalRuns.PairedExactlyInTime: an attempt reaches the server while the phone waits for it or not at all, and no administrator touches the phone's row.
- RuleWrites.SameListIsSame: is about lists with no empty text and no comma inside, which RuleWrites.NormalisedNoComma and RuleWrites.SameNumbersIsSame show the compared ones to be.
- RuleWrites.NormalisedNoComma: takes websites as `normalizeDomain` leaves them, by their characters; how it gets there is not part of this model.
- ArchiveReads.ReadsExactly: takes a header's text by its bytes, where the original decodes UTF-8 first: white space around a number is ASCII's, not the rest of what `trim` takes away, and two names that differ in bytes that are no UTF-8 are two names.
- Archive.RoundTrip: takes gzip as the identity, file names as bytes, and modification times within eleven octal digits.
- The settings, accounts, session and sync status of the household store, which only some loads read, its notices, errors and timers, and the follow-up of a change at the gateway, which is a reload at any time.
- What the lists of the household store hold: the store never looks inside them, so a list is the moment it was read and the changes since.
- Argon2, SHA-256, random tokens, PostgreSQL and Prisma: a token is a number, a row a record, a guarded update one atomic step.
- TLS pins, URLs, headers and bodies of a companion's requests, and a phone's storage, with a launch that finds an older session there.
- Words, labels, names and colours of a group's status and menu; who blocked or unblocked; extending or ending an unblock.
- The start a group's status names next (`internetState`'s `next`), and the bands of today's bar beyond a window's own.
- Floating-point rounding in the card layout; the rubber band and dismissal of a drag.
- UTF-16: text is by characters, which differs from the original's code units only outside the Basic Multilingual Plane.
- The Gregorian calendar and `Intl`: dates are day numbers and a zone is its offset at every instant.
- Docker, subprocesses, locks, log files and the coverage measurement of the harness; what a runner does is given as an outcome, and an interrupt falls between statements, not inside a list's append.
- Selecting tests by category, layer or platform, and the catalog of tests.
- React components, pages, catalogs and the rest of the server: nothing there spans several operations the way these parts do.
