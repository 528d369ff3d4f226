# Vantage: a verified model of the desktop shell and the shop rules

A Dafny model of the parts of Vantage where state, text or arithmetic is easy to get wrong, with proofs
of what they promise.

- **Local AI service** (`LocalAiSpec`, `LocalAiProofs`, `LocalAiStop`, `LocalAiRefusals`, `LocalAiLease`,
  `LocalAiRounds`, `LocalAiService`, `LocalAiConfig`). The asynchronous worker as a state machine whose step is
  the code between two awaits; `Run` interleaves steps in any order the suspended calls allow.
  `LocalAiService.Service` is the object itself: every call keeps it `Valid()`, takes its fields from `View()` to
  `Step(View())`, and states what it is there for. One `setEnabled` at a time, saves complete in order, and
  `start()` has finished before other calls.
- **Updater** (`Versions`, `UpdatePolicy`, `ManifestLaws`, `UpdateSpec`, `UpdateProofs`, `UpdateLaws`,
  `WebRelease`, `UpdateService`). Version order, manifest reading, the two-day clock, download, verification and
  installation, and the page-load guard for web releases, again as machines and as the object whose calls take
  their steps and keep it valid.
- **Browser-link sign-in** (`LinkFlow`, `LinkProofs`, `LinkOutcomes`, `LinkRuns`). One attempt as a loop over a
  world of answers, clock readings and cancels, its effects recorded as a trace; and the shell that supersedes
  attempts.
- **iCalendar writer** (`Gregorian`, `Numerals`, `IcsText`, `Ics`, `IcsProofs`). A printer for RFC 5545 with
  the reader that undoes it, and the calendar arithmetic behind its dates.
- **Rules** (`Battery`, `BatteryFleet`, `WindowState`, `BuildHours`, `HourRanges`, `Consent`, with `Sorting`,
  `Rounding`, `Stamps`, `Json`, `Wrappers`). Wear grades and scores, the charging cart, event readiness and
  rotation; restoring the window; shop hours; consent forms. Measurements are reals, times milliseconds,
  hours whole hundredths.

Where the code and its own description differ the model follows the code:

- docs/DESKTOP.md (line 72) starts the two-day clock the first time the shell sees a version; in the code the
  clock starts again with every process (`UpdateProofs.RestartStartsTheClockAgain`).
- `runLinkFlow` is documented never to throw; it fails when the browser cannot be opened
  (`LinkProofs.OnlyTheBrowserFails`). The shell passes an opener that never fails.
- `foldLine` is documented to fold at 75 octets; it counts UTF-16 code units, and so does the model.
- "Clamp it to the offered version" (`parseManifest`) changes no decision (`UpdatePolicy.ClampChangesNoPlan`).
- The low-composite-score rule and the 25 mOhm gate never decide anything
  (`Battery.GoodScoresHigh`, `BatteryFleet.ResistanceLimitNeverDecides`).

Properties that fail as one would first put them, each with its exact condition and a run or input that breaks
it: a refused token ending only its own pairing, a stopped service taking no more jobs, one web-release dialog at
a time, the installer at hand being the one offered, the calendar document under ids with a CRLF, the exclusive
end date outside the four-digit years, transitivity through an unreadable version, restoring a window twice, a
capped window fitting some display, and covering time once in the face of the five-minute slack.

## Model

| member | source | states |
|---|---|---|
| `LocalAiProofs.OneLoopNeverLost` | apps/desktop/src/local-ai-service.ts:239-296 | in every interleaving two loops are never alive together, `running` says whether one is, and once no call is between changing the settings and telling the loop, answering that is wanted has its loop and no stop request |
| `LocalAiProofs.LeavingLoopIsReplaced` | apps/desktop/src/local-ai-service.ts:245-251 | a loop that has already left when answering is wanted again is followed by a fresh, live one the moment its promise settles |
| `LocalAiProofs.OneReportPerJob` | apps/desktop/src/local-ai-service.ts:298-347 | reports answer claims one for one with their own job id and lease, before the next claim, after the lease watch has ended; the chat is asked once at most, for the paired person's own job, within 30 s to 300 s; `jobsServed` counts the answers, but for a report under way |
| `LocalAiProofs.InOrderReports` | apps/desktop/src/local-ai-service.ts:298-347 | any log that keeps the order of one job at a time has exactly the claimed (job, lease) pairs as reports, but for the job in hand |
| `LocalAiProofs.InOrderNeighbours` | apps/desktop/src/local-ai-service.ts:300-335 | in such a log an ask follows straight on the claim of the paired person's own job, and a report on the end of that job's watch or on a claim that is refused |
| `LocalAiProofs.StopReachesTheJob` | apps/desktop/src/local-ai-service.ts:226-257 | in every reachable state unpairing, and the end of switching off, fire the controller of the job being served; for jobs claimed only afterwards see LocalAiStop.StopCancelsWhatWasAskedBefore |
| `LocalAiProofs.OnlyTheNewestPairingPolls` | apps/desktop/src/local-ai-service.ts:175-224 | every poll was sent by the newest pairing run of its time: none after a later pair() or a cancel |
| `LocalAiStop.AtMostOneMoreJob` | apps/desktop/src/local-ai-service.ts:254-294 | with a stop asked for and no call left that asks for a loop, every interleaving claims at most one more job, none unless the loop was past its test and had not claimed yet, and asks the model no more often than it claims |
| `LocalAiStop.StopCancelsWhatWasAskedBefore` | apps/desktop/src/local-ai-service.ts:226-257 | whatever is served at any moment after stop(), an unpairing or the end of switching off: it was cancelled by that if and only if the model had been asked before |
| `LocalAiStop.NoMoreJobsIff` | apps/desktop/src/local-ai-service.ts:254-294 | a stopped service takes no more jobs in any interleaving without a call that asks for a loop if and only if no loop is past its test with its claim still to come |
| `LocalAiStop.AnswersAfterSwitchingOff` | apps/desktop/src/local-ai-service.ts:264-315 | the bound is reached: a run in which the service, switched off while its claim is under way, claims a job and asks the model uncancelled |
| `LocalAiStop.StopIsFinal` | apps/desktop/src/local-ai-service.ts:235-257 | from then on the stop request stays and no loop is started |
| `LocalAiStop.StopLeavesOneJob` | apps/desktop/src/local-ai-service.ts:235-257 | the same of stop() itself, from every reachable state: the job being served is cancelled, at most one more is claimed, and the order of claims and reports holds on |
| `LocalAiStop.StopKeepsCore` | apps/desktop/src/local-ai-service.ts:235-257 | stop() keeps the one loop and the order of jobs and pairings |
| `LocalAiLease.CancelledIff` | apps/desktop/src/local-ai-service.ts:226-362 | from any reachable state, whatever follows and stop() at any moment included: a job whose controller is handed out on the way is cancelled if and only if, while it was served, its chat came back, a lease check found it inactive, or stop(), an unpairing or the end of switching off came |
| `LocalAiLease.ActiveLeaseGoesOn` | apps/desktop/src/local-ai-service.ts:351-357 | a lease found active, its job not cancelled, changes no field and no log: the watch sleeps again |
| `LocalAiLease.WatchEndsIff` | apps/desktop/src/local-ai-service.ts:351-361 | the watch ends exactly when it looks and finds the job cancelled; else it checks the lease with the job's own ids, or sleeps again |
| `LocalAiLease.ClaimComesToIff` | apps/desktop/src/local-ai-service.ts:281-315 | what a claim's answer comes to: the paired person's own job, in the paired team, is asked of the model under a fresh controller with its own time brought between 30 s and 300 s; another is reported as failed; no job or one without an id is slept over |
| `LocalAiLease.OutcomeKept` | apps/desktop/src/local-ai-service.ts:307-320 | whatever happens, a chat that has come back keeps its job and outcome until its lease watch is over |
| `LocalAiLease.ReportTellsTheAnswer` | apps/desktop/src/local-ai-service.ts:307-335 | over every run the report of a job says done if and only if its chat came back with a text that is not empty |
| `LocalAiRounds.LoopGoesIff` | apps/desktop/src/local-ai-service.ts:264-280 | where every round of the loop goes in every reachable state: it leaves, lists the models (20 s), sends a heartbeat (30 s), claims, or rests for want of a server or a model, each exactly |
| `LocalAiRounds.LoopFollowedIff` | apps/desktop/src/local-ai-service.ts:245-251 | a loop that has left is followed by another if and only if no stop is asked for and answering is wanted |
| `LocalAiRounds.LoopStartsIff` | apps/desktop/src/local-ai-service.ts:159-257 | a loop is started, and a stop asked for or taken back, exactly by the calls that ask for it |
| `LocalAiRounds.NewLoopListsFirst` | apps/desktop/src/local-ai-service.ts:259-270 | a loop that is started lists the models first |
| `LocalAiRounds.SettingsFollowTheEvents` | apps/desktop/src/local-ai-service.ts:126-229 | over every run the settings are those it began with, edited by its calls, approvals, refusals and model lists in turn and by nothing else |
| `LocalAiRounds.StillAskingIff` | apps/desktop/src/local-ai-service.ts:192-217 | over every run a pairing still asks, under the deadline it began with, if and only if it was the newest whenever it woke or heard an answer, and every answer said pending in time |
| `LocalAiRounds.PairAnswers` | apps/desktop/src/local-ai-service.ts:175-217 | a good start begins ten minutes of asking, for the newest call; a complete approval is kept whichever call it answers, and starts a loop when answering is wanted; any other end leaves no trace of the call |
| `LocalAiRounds.CodeShownIff` | apps/desktop/src/local-ai-service.ts:186-224 | the code is on show from a good start until it is cancelled, approved, or the newest call fails |
| `LocalAiRefusals.RefusalDropsAnotherPairingIff` | apps/desktop/src/local-ai-service.ts:281-284 | from the moment a request leaves until its 401 comes back: it drops a pairing other than the one it was sent with exactly when the last change of the token in between is a complete approval with another token |
| `LocalAiRefusals.TokenIsTheLastChange` | apps/desktop/src/local-ai-service.ts:199-229 | the token a run ends with is what the last unpairing, approval or refusal made it |
| `LocalAiRefusals.RequestCarriesTheToken` | apps/desktop/src/local-ai-service.ts:391-401 | a heartbeat or claim leaves with the token of that moment |
| `LocalAiRefusals.RequestWaits` | apps/desktop/src/local-ai-service.ts:271-286 | until its answer comes nothing else moves the loop that waits for it |
| `LocalAiRefusals.ActsCarryTokens` | apps/desktop/src/local-ai-service.ts:322-355 | reports and lease checks leave with the token of that moment, a claim is noted with the one it was sent with |
| `LocalAiRefusals.ReportUnderTheClaimingPairingIff` | apps/desktop/src/local-ai-service.ts:281-336 | from the moment a claim leaves, a later report carries the claim's token if and only if the token was not changed since, or last to that very one |
| `LocalAiRefusals.LateRefusalDropsNewPairing` | apps/desktop/src/local-ai-service.ts:281-285 | a run in which the late 401 of an old request drops a pairing approved since |
| `LocalAiProofs.RunKeepsCore` | apps/desktop/src/local-ai-service.ts:159-389 | one loop, jobs in order and pairings in order survive every run, also after stop() |
| `LocalAiProofs.RunKeepsInv` | apps/desktop/src/local-ai-service.ts:159-389 | one loop, no lost wake-up, jobs in order and pairings in order survive every run |
| `LocalAiProofs.LoopStepAgrees` | apps/desktop/src/local-ai-service.ts:298-362 | whatever a suspended loop resumes with, the log, the counter and the current controller stay in step with where it is suspended |
| `LocalAiSpec.ChatOutcome` | apps/desktop/src/local-ai.ts:84-137 | the chat always comes to an outcome: an answer exactly for a body with text, a timeout exactly for one, an unavailable model exactly for a 404 or an unreachable server that was not cancelled |
| `LocalAiService.Service.Start` | apps/desktop/src/local-ai-service.ts:100-106 | the fields after start() are the started state of the machine, and valid |
| `LocalAiService.LawfulStep` | apps/desktop/src/local-ai-service.ts:159-389 | every step keeps what the object's `Valid()` says: one loop, jobs and pairings in order and, until stop(), no lost wake-up |
| `LocalAiService.Service.Stop` | apps/desktop/src/local-ai-service.ts:235-237 | stop() leaves the object valid, its stop request set and the served job cancelled |
| `LocalAiService.Service.RefreshModels` | apps/desktop/src/local-ai-service.ts:126-142 | keeps the object valid; the list's answer decides reachability, a non-empty pick is the model, token and switch stay |
| `LocalAiService.Service.SetEnabled` | apps/desktop/src/local-ai-service.ts:159-167 | keeps the object valid; answering is switched as asked unless the machine is below the bar |
| `LocalAiService.Service.SetEnabledSaved` | apps/desktop/src/local-ai-service.ts:168-169 | keeps the object valid; switched on with a pairing there is a loop and no stop request, switched off every served job is cancelled |
| `LocalAiService.Service.SetModel` | apps/desktop/src/local-ai-service.ts:144-150 | the machine's step for a chosen model |
| `LocalAiService.Service.Unpair` | apps/desktop/src/local-ai-service.ts:227-229 | keeps the object valid; no pairing is left, a stop is asked for and every served job is cancelled |
| `LocalAiService.Service.CancelPairing` | apps/desktop/src/local-ai-service.ts:219-221 | keeps the object valid; every pairing under way is outdated |
| `LocalAiService.Service.EnsureLoop` | apps/desktop/src/local-ai-service.ts:239-244 | with a pairing there is a loop and no stop request afterwards; a loop that exists is left alone |
| `LocalAiService.Service.StopLoop` | apps/desktop/src/local-ai-service.ts:254-257 | a stop is asked for, and in a valid object every served job is cancelled |
| `LocalAiService.Service.Pair` | apps/desktop/src/local-ai-service.ts:176-182 | keeps the object valid; the new run outdates all others |
| `LocalAiService.Service.PairStarted` | apps/desktop/src/local-ai-service.ts:183-193 | the start's answer begins the polling loop, or ends the run |
| `LocalAiService.Service.PairWoke` | apps/desktop/src/local-ai-service.ts:193-195 | keeps the object valid; a poll is sent only by the newest run |
| `LocalAiService.Service.PairPolled` | apps/desktop/src/local-ai-service.ts:196-206 | keeps the object valid; the token changes only to that of a complete approval |
| `LocalAiService.Service.PairSaved` | apps/desktop/src/local-ai-service.ts:201-204 | keeps the object valid; when answering is wanted there is a loop and no stop request |
| `LocalAiService.Service.ModelsAnswered` | apps/desktop/src/local-ai-service.ts:266-269 | the loop's step when the model list is in |
| `LocalAiService.Service.ModelsSaved` | apps/desktop/src/local-ai-service.ts:138-139 | the loop's step when the picked model has been saved |
| `LocalAiService.Service.HeartbeatAnswered` | apps/desktop/src/local-ai-service.ts:270-274 | keeps the object valid; a 401 leaves no token |
| `LocalAiService.Service.RevokeSaved` | apps/desktop/src/local-ai-service.ts:385-389 | the loop leaves once the revocation is saved |
| `LocalAiService.Service.Slept` | apps/desktop/src/local-ai-service.ts:275-278 | the loop's step after a sleep |
| `LocalAiService.Service.ClaimAnswered` | apps/desktop/src/local-ai-service.ts:279-294 | keeps the object valid; one claim at most is unreported, a 401 leaves no token |
| `LocalAiService.Service.WatchWoke` | apps/desktop/src/local-ai-service.ts:350-355 | the lease watch ends when its controller fired, else checks the lease |
| `LocalAiService.Service.WatchAnswered` | apps/desktop/src/local-ai-service.ts:354-361 | keeps the object valid; the controller has fired afterwards exactly if it had before or the lease is not active, and an unfired one leaves controllers and log alone and the watch asleep |
| `LocalAiService.Service.ChatAnswered` | apps/desktop/src/local-ai-service.ts:308-319 | keeps the object valid; the end of the chat fires the controller |
| `LocalAiService.Service.LeaseSettled` | apps/desktop/src/local-ai-service.ts:316-333 | keeps the object valid; with the report sent, reports equal claims |
| `LocalAiService.Service.ReportSettled` | apps/desktop/src/local-ai-service.ts:336-347 | keeps the object valid; the counter is the number of answers reported |
| `LocalAiService.Service.LoopEnded` | apps/desktop/src/local-ai-service.ts:245-251 | keeps the object valid; one loop at most, and a live one when answering is wanted and no stop was asked for |
| `LocalAiConfig.SettingsComeBack` | apps/desktop/src/local-ai.ts:181-218 | whatever is sealed and unsealed again comes back as it was but for the token, which comes back as the keychains allow |
| `LocalAiConfig.RoundTripIff` | apps/desktop/src/local-ai.ts:181-218 | the pairing survives a restart exactly when there is no token, or a non-empty one that is kept plainly or that the keychain opens again |
| `LocalAiConfig.NoTokenLeftBehind` | apps/desktop/src/local-ai.ts:177-195 | without a token none is written, and with a keychain never a readable one |
| `LocalAiConfig.UnsealReads` | apps/desktop/src/local-ai.ts:198-218 | from whatever is on disk: answering is on only where it says so outright, and what is no text is no setting |
| `LocalAiConfig.SealedIsNotReplaced` | apps/desktop/src/local-ai.ts:198-218 | a sealed token is opened or lost: a readable one beside it never takes its place |
| `LocalAiConfig.UnpairedStaysUnpaired` | apps/desktop/src/local-ai.ts:177-218 | unpairing, saving and reading back leaves the service unpaired, from every state |
| `IcsText.EscapeIsOnePass` | apps/web/lib/calendar-ics.ts:66-72 | the four replacements in turn equal one left-to-right encoder, for every text |
| `IcsText.EncodeIsEscaped` | apps/web/lib/calendar-ics.ts:65-72 | the result holds no raw CR or LF, no bare comma or semicolon, and every backslash starts an escape |
| `IcsText.EscapeRoundTrip` | apps/web/lib/calendar-ics.ts:65-72 | unescaping (section 3.3.11 of RFC 5545) gives the text back with CRLF, CR and LF as LF |
| `IcsText.EscapeInjective` | apps/web/lib/calendar-ics.ts:65-72 | two texts escape alike exactly when they differ in their line breaks only |
| `IcsText.FoldLine` | apps/web/lib/calendar-ics.ts:75-86 | the while loop yields the line cut at 75 and then every 74 code units, joined by CRLF and a space |
| `IcsText.PhysicalShort` | apps/web/lib/calendar-ics.ts:75-86 | every physical line of every list of lines is at most 75 code units |
| `IcsText.FoldsFull` | apps/web/lib/calendar-ics.ts:75-86 | a line is folded exactly when it is longer than 75, every piece but the last is full and the last not empty |
| `IcsText.UnfoldPhysical` | apps/web/lib/calendar-ics.ts:75-86 | unfolding (section 3.1 of RFC 5545) undoes the folding of every list of non-blank-started lines without line breaks of their own |
| `IcsText.SplitTerminated` | apps/web/lib/calendar-ics.ts:164 | cutting at CRLF gives the lines back |
| `Ics.FormatDateValue` | apps/web/lib/calendar-ics.ts:59-63 | eight digits, exactly when the first ten characters have the shape of a date, and with the hyphens put back those characters |
| `Ics.PropLine` | apps/web/lib/calendar-ics.ts:88-90 | a property's folded content line |
| `Ics.PushTimes` | apps/web/lib/calendar-ics.ts:118-132 | adds DTSTART and DTEND of an all-day or a timed event, or refuses an unreadable start |
| `Ics.PushText` | apps/web/lib/calendar-ics.ts:134-137 | adds an escaped text property unless the text is empty |
| `Ics.BuildEventLines` | apps/web/lib/calendar-ics.ts:107-140 | the physical lines are the folded block of the event's properties, none for an event that cannot be written |
| `Ics.BuildCalendar` | apps/web/lib/calendar-ics.ts:146-165 | the document is the folded, CRLF-terminated logical lines: header, one block per accepted event, END |
| `IcsProofs.DocumentUnfolds` | apps/web/lib/calendar-ics.ts:75-90 | for every feed, unfolding and cutting the document at CRLF gives exactly its logical lines if and only if no written id holds a CRLF; every physical line is at most 75 code units |
| `IcsProofs.CalendarReadsBack` | apps/web/lib/calendar-ics.ts:107-165 | a reader of the document gets the very properties written, block by block and in order, one block per written event, and from each its UID, the stamp of its update (else its start, else 1970), start and end, and its texts with line breaks as LF |
| `IcsProofs.InstantsReadBack` | apps/web/lib/calendar-ics.ts:107-132 | the reader of the document gets, for every event written, the instant of its update to the second (else of its start, else 1970), and a timed event's start and end, whenever their years have four digits |
| `IcsProofs.HeadReadsBack` | apps/web/lib/calendar-ics.ts:146-165 | the document begins and ends as a calendar does, and the team's name and whose calendar it is read back |
| `IcsProofs.DomainKeeps` | apps/web/lib/calendar-ics.ts:147 | the domain in the ids keeps letters, digits, dots and hyphens, whatever stands around them, and drops all else; with nothing left it is a fixed one |
| `IcsProofs.AcceptedDescribe` | apps/web/lib/calendar-ics.ts:107-140 | the accepted events and their properties correspond one for one, times included |
| `IcsProofs.WrittenIffProps` | apps/web/lib/calendar-ics.ts:107-132 | an event is written exactly when its start can be read as a date or an instant and some stamp exists |
| `IcsProofs.ReadBlocks` | apps/web/lib/calendar-ics.ts:112-138 | reading any list of sound blocks gives the same blocks |
| `IcsProofs.ExclusiveDateIsNextDay` | apps/web/lib/calendar-ics.ts:99-105 | for every valid date the result is the Gregorian next day if and only if that day's year is written with four digits |
| `IcsProofs.AllDaySpan` | apps/web/lib/calendar-ics.ts:118-123 | an all-day event covers its inclusive days: DTEND is the day after the last, and after DTSTART exactly when the last day is not before the first |
| `IcsProofs.StampReadsBack` | apps/web/lib/calendar-ics.ts:48-56 | there is a UTC stamp to read if and only if its year has four digits, and then the reader gets the instant back to the second |
| `IcsProofs.TimedSpan` | apps/web/lib/calendar-ics.ts:124-131 | a timed event ends where its end can be read, an hour after its start without one, else at its start; DTEND is after DTSTART if and only if the second it ends in is after the one it starts in |
| `Gregorian.ClosedForm` | apps/web/lib/calendar-ics.ts:103 | the first day of a year by the leap rule equals the closed form of the ECMAScript specification |
| `Gregorian.DayNumberInjective` | apps/web/lib/calendar-ics.ts:103 | different dates have different day numbers |
| `Gregorian.NextDayNumber` | apps/web/lib/calendar-ics.ts:103 | the next date has the next day number, over months, leap years and year ends |
| `Gregorian.CivilAfter` | apps/web/lib/calendar-ics.ts:99-105 | reading the day number after a date back yields the next date |
| `Versions.CompareVersions` | apps/desktop/src/update.ts:205-216 | the loop computes the comparison, 0 when a side cannot be read |
| `Versions.VersionReadsBack` | apps/desktop/src/update.ts:195-203 | a version written with dots is read back out of any text it stands first in, with nothing that goes on with it behind |
| `Versions.CompareIsPaddedOrder` | apps/desktop/src/update.ts:209-215 | it is the lexicographic order of the sequences padded with zeros |
| `Versions.CompareAntisymmetric` | apps/desktop/src/update.ts:205-216 | swapping the sides flips the sign, for all texts |
| `Versions.CompareTransitive` | apps/desktop/src/update.ts:205-216 | on readable versions the order is transitive, strictly when a side is |
| `Versions.TransitiveThrough` | apps/desktop/src/update.ts:204-216 | the order carries through a version if and only if that version can be read |
| `UpdatePolicy.FirstOffered` | apps/desktop/src/update.ts:257-265 | the first listed key whose download is allowed, none exactly when none is |
| `UpdatePolicy.ParseManifest` | apps/desktop/src/update.ts:239-296 | accepts exactly the manifests with a readable version, an allowed download and a hex digest; version and floor are the record's, the floor brought down to the offer, and address and digest come from one entry |
| `ManifestLaws.AcceptedIff` | apps/desktop/src/update.ts:239-295 | a record is accepted as a manifest if and only if it says every field of it: the trimmed version, the floor, the best suitable download that is allowed, and the digest listed for that; and it says but one |
| `ManifestLaws.KeysSuit` | apps/desktop/src/update.ts:115-129 | the downloads looked at are exactly those that suit the platform and chip, installers first |
| `ManifestLaws.ChosenIsBest` | apps/desktop/src/update.ts:257-269 | the download chosen is the best on offer, none exactly when none that suits is offered |
| `ManifestLaws.MinimumIsFloor` | apps/desktop/src/update.ts:274-284 | the floor is the one the record names, brought down to the version offered, and 0.0.0 where none can be read |
| `ManifestLaws.DigestIsRead` | apps/desktop/src/update.ts:142-157 | the digest is the trimmed, lower-case text of the key's own entry, or for win_nsis, and without a key, of the bare one |
| `UpdatePolicy.DigestIsTheKeysOwn` | apps/desktop/src/update.ts:131-157 | a usable digest for any key but the Windows installer's was listed under that very key |
| `UpdatePolicy.ClampedMinimum` | apps/desktop/src/update.ts:282-284 | the clamped floor can be read and is not above the offer |
| `UpdatePolicy.OfferedVersionOwesNothing` | apps/desktop/src/update.ts:318-320 | the offered version itself is owed nothing |
| `UpdatePolicy.NewerIsNeverMoreUrgent` | apps/desktop/src/update.ts:312-340 | a newer installed version never gets a more urgent plan |
| `UpdatePolicy.ClampChangesNoPlan` | apps/desktop/src/update.ts:282-284 | clamping the floor changes no plan for any installed version |
| `UpdatePolicy.PlanIff` | apps/desktop/src/update.ts:312-340 | exactly when each plan is made, on the padded order of the versions: required below the floor, overdue from two days after the first sight with no deferral of that version running, optional until then, nothing from the offer up |
| `UpdatePolicy.TimeOnlyPresses` | apps/desktop/src/update.ts:322-339 | as time passes a plan changes from optional to overdue only, its deadline standing still |
| `UpdatePolicy.DeferralOnlyHoldsBack` | apps/desktop/src/update.ts:332-339 | a deferral changes the plan exactly when it holds an overdue one at optional before it runs out |
| `UpdatePolicy.InstallsInAQuietMoment` | apps/desktop/src/update.ts:383-400 | exactly what it takes to install, by request or in a quiet moment |
| `UpdateProofs.OnlyVerifiedInstallersRun` | apps/desktop/src/update-service.ts:285-464 | over every run one download at most is under way; every file run as installer had the digest of an accepted manifest, while an update was owed, and in a quiet moment unless asked or quitting; a portable build runs none and writes nothing |
| `UpdateProofs.DlStepSafe` | apps/desktop/src/update-service.ts:327-373 | every step of a download keeps one download, a truthful busy flag, and a vouched-for installer |
| `UpdateProofs.RunKeepsInv` | apps/desktop/src/update-service.ts:285-464 | that invariant survives every run of checks, downloads, installs, deferrals and quitting |
| `UpdateProofs.CurrentIffOrderly` | apps/desktop/src/update-service.ts:305-373 | a step leaves the installer at hand and the download under way those of the manifest offered if and only if no unlike manifest comes in during a download, nor one with the same version and another digest while an installer is at hand |
| `UpdateProofs.InstallerIsTheOfferedOneIff` | apps/desktop/src/update-service.ts:285-373 | over a run they are those of the manifest offered at every moment if and only if every step meets that condition |
| `UpdateProofs.RunsTheOfferedOne` | apps/desktop/src/update-service.ts:407-464 | then every installer a step runs has the offered digest, and its update is owed |
| `UpdateProofs.NewerManifestMidDownload` | apps/desktop/src/update-service.ts:305-365 | a run that does not meet it: the manifest moves on during a download and the older installer is at hand after it |
| `UpdateProofs.DownloadsOnlyWhatIsOwed` | apps/desktop/src/update-service.ts:327-334 | a download begins only for an owed update, with nothing ready or under way, and never in a portable build |
| `UpdateProofs.DeadlineStandsStill` | apps/desktop/src/update-service.ts:305-317 | while the offered version stays, no sequence of events moves the deadline |
| `UpdateLaws.PressesIff` | apps/desktop/src/update-service.ts:305-317 | over every run from the first manifest of a version: the update is overdue or required, at every moment, if and only if the installed version is below the floor, or older than the offer with two days gone since that manifest and the last deferral run out |
| `UpdateLaws.StartsIff` | apps/desktop/src/update-service.ts:407-464 | an event starts an installer if and only if one is at hand, the build is not portable, nothing is being installed, an update is owed, the user asked or it presses in a quiet moment (or the app quits), and the process can be started; and what is run is the file at hand |
| `UpdateLaws.RunStartsIff` | apps/desktop/src/update-service.ts:407-464 | over a run an installer is started if and only if some event of it does |
| `UpdateLaws.DownloadBeginsIff` | apps/desktop/src/update-service.ts:327-335 | a download begins if and only if one is looked for, none is under way, the build is not portable and an update is owed |
| `UpdateLaws.DownloadComesTo` | apps/desktop/src/update-service.ts:335-373 | what a download comes to: the installer is at hand if and only if the file was there with the wanted digest, or is answered, not too large, and arrives with it; it is over in any case and leaves no partial file |
| `UpdateLaws.BrokenDownload` | apps/desktop/src/update-service.ts:366-373 | a download that breaks is over with no installer at hand, whatever part of it was written |
| `UpdateLaws.OthersLeaveTheDownload` | apps/desktop/src/update-service.ts:327-373 | nothing but its own answers moves a download or touches the files |
| `UpdateProofs.RestartStartsTheClockAgain` | apps/desktop/src/update-service.ts:305-312 | the first manifest of a process restarts the two days and drops a deferral, whatever was saved |
| `UpdateService.Service.Start` | apps/desktop/src/update-service.ts:83-113 | the fields of a fresh process are the launched state, and valid |
| `UpdateService.Service.ApplyManifest` | apps/desktop/src/update-service.ts:305-317 | keeps the invariant; the clock runs afterwards, and another version leaves no installer at hand |
| `UpdateService.Service.CheckAnswered` | apps/desktop/src/update-service.ts:290-295 | keeps the object valid; the manifest is offered and accepted, its clock runs, one download at most, and what is owed is being downloaded or at hand |
| `UpdateService.Service.Defer` | apps/desktop/src/update-service.ts:489-498 | keeps the object valid; the two-day clock is not moved |
| `UpdateService.Service.MaybeDownload` | apps/desktop/src/update-service.ts:327-342 | keeps the invariant; what is owed is being downloaded or at hand, portable builds aside |
| `UpdateService.Service.DownloadResumed` | apps/desktop/src/update-service.ts:336-373 | keeps the object valid; one download at most, and an installer at hand has the digest of an accepted manifest |
| `UpdateService.Service.MaybeInstall` | apps/desktop/src/update-service.ts:407-415 | keeps the object valid; every installer run was vouched for and owed, and in a quiet moment unless asked; a portable build runs none |
| `UpdateService.Service.InstallResumed` | apps/desktop/src/update-service.ts:410-415 | the same after the wait, `installing` not being looked at again |
| `UpdateService.Service.InstallOnQuit` | apps/desktop/src/update-service.ts:423-429 | the same at quitting |
| `UpdateService.Service.NoteWebPageLoaded` | apps/desktop/src/update-service.ts:140-146 | keeps the object valid; the newest load is pending and the page has no release |
| `UpdateService.Service.LoadAnswered` | apps/desktop/src/update-service.ts:146-150 | keeps the object valid; only the newest load's answer moves the baseline |
| `UpdateService.Service.CheckWebRelease` | apps/desktop/src/update-service.ts:153-157 | keeps the object valid; a check starts only with no dialog open and no load unanswered |
| `UpdateService.Service.WebCheckAnswered` | apps/desktop/src/update-service.ts:158-174 | keeps the object valid; the baseline moves only while no load is unanswered, a dialog opens only for another release outside a match |
| `UpdateService.Service.DialogAnswered` | apps/desktop/src/update-service.ts:176-197 | keeps the object valid; accepting moves the baseline, putting off keeps the release from being asked about until it runs out |
| `WebRelease.PendingIffNewestUnanswered` | apps/desktop/src/update-service.ts:140-151 | in every run a load is pending exactly while the newest one is unanswered |
| `WebRelease.OlderAnswerChangesNothing` | apps/desktop/src/update-service.ts:141-149 | an older load's answer changes nothing else |
| `WebRelease.BaselineMoves` | apps/desktop/src/update-service.ts:140-198 | what the baseline is after any event: a load clears it, the newest load's answer, a check's while there is none and no load is unanswered, or an acceptance sets it, nothing else moves it |
| `WebRelease.PendingPageHasNoRelease` | apps/desktop/src/update-service.ts:141-163 | from a page load until its answer no interleaving gives the page a release, acceptances aside |
| `WebRelease.DialogOpensIff` | apps/desktop/src/update-service.ts:164-174 | a dialog opens exactly when the page has a release, the answer brings another, no "Later" for that one still runs and no match is on |
| `WebRelease.CheckAsksIff` | apps/desktop/src/update-service.ts:155-160 | a check asks for the release exactly when a window is open, no dialog is and no load is unanswered |
| `WebRelease.AskedAgainIff` | apps/desktop/src/update-service.ts:164-193 | whatever happened since, a release put off is asked about again if and only if two hours have gone and the page is on another release outside a match |
| `WebRelease.OneDialogIff` | apps/desktop/src/update-service.ts:153-197 | an event leaves one dialog at most if and only if it is no check answered over an open dialog with a release to ask about |
| `WebRelease.AlwaysOneDialogIff` | apps/desktop/src/update-service.ts:153-197 | over a run there is one dialog at most at every moment if and only if no event is |
| `WebRelease.SecondCheckMayOpenTwo` | apps/desktop/src/update-service.ts:153-174 | from every state with a check waiting, a page release, no dialog and no load unanswered, another check may start and some answers then open two |
| `WebRelease.OverlappingChecksOpenTwo` | apps/desktop/src/update-service.ts:140-174 | such a run from the start of the process |
| `WebRelease.OneDialogWhenChecksApart` | apps/desktop/src/update-service.ts:153-197 | checks kept apart never ask over an open dialog |
| `WebRelease.AnswerOpensOrMoves` | apps/desktop/src/update-service.ts:157-174 | a check's answer moves the baseline only while no load is unanswered |
| `WebRelease.LaterHolds` | apps/desktop/src/update-service.ts:175-193 | an acceptance sets the baseline and drops the put-off; "Later" puts the release off for two hours; either way the dialog is gone |
| `LinkFlow.ParseStartResponse` | apps/desktop/src/link.ts:63-76 | a start is accepted exactly when the record has its five fields within their bounds, and says what they say |
| `LinkFlow.ParsePollResponse` | apps/desktop/src/link.ts:78-90 | each status is read exactly for its word, an approval exactly with a code of 20 to 200 token characters |
| `LinkFlow.ParseExchangeResponse` | apps/desktop/src/link.ts:96-120 | a cookie is accepted exactly when the answer carries it with a session name and a value that cannot split a header |
| `LinkFlow.RunLinkFlow` | apps/desktop/src/link.ts:189-276 | the flow's effects and its outcome are the specified ones for every world of answers, clock readings and cancels |
| `LinkFlow.AskToStart` | apps/desktop/src/link.ts:200-224 | what the start's answer comes to |
| `LinkFlow.Wait` | apps/desktop/src/link.ts:230-252 | the polling loop's effects and how it is left |
| `LinkFlow.WaitAndExchange` | apps/desktop/src/link.ts:230-275 | from the loop to the outcome |
| `LinkProofs.ReportsInOrder` | apps/desktop/src/link.ts:183-276 | starting, then optionally waiting, then optionally exchanging, then exactly one terminal state, the one returned |
| `LinkProofs.SuccessIsOneInstalledCookie` | apps/desktop/src/link.ts:258-275 | success if and only if a cookie was installed, which happens once at most and only with a sound session cookie |
| `LinkProofs.ExchangeNeedsApproval` | apps/desktop/src/link.ts:230-261 | a code is exchanged once at most, it is the one the last poll approved, and no poll follows |
| `LinkProofs.AnswerIsTheLastPoll` | apps/desktop/src/link.ts:234-251 | the loop ends with an answer exactly as its last poll brought it |
| `LinkProofs.EachFailureHasItsCause` | apps/desktop/src/link.ts:207-274 | each failure is reported exactly for its cause |
| `LinkOutcomes.SuccessIff` | apps/desktop/src/link.ts:189-276 | for every world signing in succeeds if and only if the start is sound and trusted, the browser opens, a turn before the deadline and uncancelled hears the approval after turns that heard nothing, no cancel is seen behind the loop, and the exchange brings a cookie that is saved |
| `LinkOutcomes.OutcomeIff` | apps/desktop/src/link.ts:226-276 | every end of a started flow, exactly, on its turns and answers: used, expired, cancelled, not completed, not saved, success, or still waiting |
| `LinkOutcomes.ExchangesIff` | apps/desktop/src/link.ts:231-263 | a code is exchanged if and only if some turn, in time and uncancelled, hears its approval, every earlier one threw, was a 429, could not be read or said pending, and no cancel is seen behind the loop |
| `LinkOutcomes.InstallsIff` | apps/desktop/src/link.ts:259-275 | a cookie is installed exactly when a code is exchanged and brings it |
| `LinkOutcomes.ShowsAndOpensIff` | apps/desktop/src/link.ts:222-228 | a sound start shows its code, address and end and then opens that address; no other flow opens any |
| `LinkOutcomes.PollsAre` | apps/desktop/src/link.ts:231-252 | the polls are those of the turns gone through and of the one that ends the loop in time and uncancelled |
| `LinkOutcomes.DelaysAre` | apps/desktop/src/link.ts:231-233 | every turn that begins in time waits once |
| `LinkProofs.EveryPollWaits` | apps/desktop/src/link.ts:231-236 | every poll carries the start's token and follows a delay of the start's interval |
| `LinkProofs.OpensOnlyTrusted` | apps/desktop/src/link.ts:222-228 | the browser is sent to the start's trusted address or nowhere |
| `LinkProofs.CancelledIff` | apps/desktop/src/link.ts:233-253 | exactly when the flow ends cancelled |
| `LinkProofs.CancelBeforeTheAnswer` | apps/desktop/src/link.ts:231-253 | a cancel before the k-th turn ends the flow as cancelled, with at most k polls and no exchange |
| `LinkProofs.CancelBeforeTheExchangeIff` | apps/desktop/src/link.ts:253-275 | an approved attempt whose exchange brings a cookie installs none if and only if the cancel is seen behind the loop; a later one is not seen |
| `LinkProofs.OnlyTheBrowserFails` | apps/desktop/src/link.ts:183-228 | the promise fails if and only if a started flow's browser cannot be opened |
| `LinkProofs.LoopPollsBounded` | apps/desktop/src/link.ts:231-237 | the polls of the loop fit before the deadline at the given pace |
| `LinkProofs.PollsBounded` | apps/desktop/src/link.ts:226-252 | when every delay takes its interval there are at most ceil(expiresIn / interval) polls, so at most 3600, and the flow does not wait longer |
| `LinkProofs.BoundIsReached` | apps/desktop/src/link.ts:231-252 | for every started flow there are turns at its pace in which it polls exactly ceil(expiresIn / interval) times |
| `LinkRuns.OnlyTheNewestIsLive` | apps/desktop/src/main.ts:302-306 | in every run of starts, cancels and reports only the newest attempt can be uncancelled, and attempts reach the window in turn |
| `LinkRuns.WindowSeesTheBeginning` | apps/desktop/src/main.ts:322-325 | the window sees the beginning of what an attempt reports, and all of it while it is live |
| `LinkRuns.CancelledIff` | apps/desktop/src/main.ts:302-387 | the attempt under way is cancelled exactly by the next start or cancel |
| `LinkRuns.CancelledStaysSilent` | apps/desktop/src/main.ts:302-325 | a cancelled or superseded attempt shows nothing more, ever |
| `LinkRuns.WindowSeesOneTerminal` | apps/desktop/src/main.ts:308-328 | of a flow the window sees at most one terminal state, the last it is shown, and that is the flow's outcome |
| `LinkRuns.Callbacks.constructor` | apps/desktop/src/main.ts:268-270 | no attempt yet |
| `LinkRuns.Callbacks.StartLinkFlow` | apps/desktop/src/main.ts:302-306 | cancels the current attempt and becomes the newest |
| `LinkRuns.Callbacks.OnState` | apps/desktop/src/main.ts:322-325 | passes a state on only for the newest, uncancelled attempt |
| `LinkRuns.Callbacks.Cancel` | apps/desktop/src/main.ts:382-387 | cancels the current attempt and tells the window |
| `Battery.BatteryHealth` | apps/web/lib/battery.ts:63-117 | the grade is that of the worst sign, the score the composite one, and each reason is given exactly when its sign holds: the low-score rule never fires |
| `Battery.Signs` | apps/web/lib/battery.ts:69-97 | status and reasons of the wear signs, however they are escalated |
| `Battery.Composite` | apps/web/lib/battery.ts:99-107 | 100 less every capped drop, rounded and kept in 0 to 100 |
| `Battery.GoodScoresHigh` | apps/web/lib/battery.ts:107-111 | a measured pack graded good scores at least 52 |
| `Battery.GoodScoresHigher` | apps/web/lib/battery.ts:107-111 | with whole counters a measured good pack scores at least 53 |
| `Battery.GoodBoundIsReached` | apps/web/lib/battery.ts:107-111 | both bounds are reached: 52 by a good pack with any counters, 53 by one with whole ones |
| `Battery.ScoreIs` | apps/web/lib/battery.ts:99-107 | the score is the nearest whole number to 100 less what each measurement takes off, in proportion between where it takes off nothing and everything |
| `Battery.ScoreRange` | apps/web/lib/battery.ts:99-107 | a score exists exactly when resistance or voltage was measured, and lies in 0 to 100 |
| `Battery.WearOnlyLowers` | apps/web/lib/battery.ts:75-107 | more resistance, less voltage, more age or cycles never raises the score nor improves the grade |
| `Battery.ReadyIff` | apps/web/lib/battery.ts:275-339 | ready exactly when charged after the last use, 15 minutes or more ago, and tested after those 15 minutes and not in the future |
| `Battery.SlotIff` | apps/web/lib/battery.ts:281-322 | parked, needing a charge and cooling, by the logged times |
| `Battery.RemainingIsLeast` | apps/web/lib/battery.ts:313-322 | the minutes shown while cooling are the least whole number after which the pack no longer cools |
| `Battery.SlotMovesOn` | apps/web/lib/battery.ts:281-338 | with nothing new logged a pack moves on only: cooling, cool, ready |
| `Battery.CompetitionReadiness` | apps/web/lib/battery.ts:203-250 | ready exactly when every gate is passed, each reason given exactly when its gate blocks |
| `Battery.StandingBlockers` | apps/web/lib/battery.ts:217-224 | the reasons from status, grade and missing measurements |
| `Battery.ReadingBlockers` | apps/web/lib/battery.ts:225-241 | the reasons from the reading's age, voltage and resistance |
| `Battery.ReadyIffUnblocked` | apps/web/lib/battery.ts:217-249 | passing every gate is the same as no reason applying |
| `Battery.EventReadyIff` | apps/web/lib/battery.ts:203-250 | fit for an event by the figures: good, 12.5 V, 25 mOhm, read within 18 hours, and charged and tested as the cart asks |
| `BatteryFleet.OrderOfLogsDoesNotMatter` | apps/web/lib/battery.ts:128-137 | any reordering of logs with distinct times adds up to the same summary |
| `BatteryFleet.SummaryIsOfTheNewest` | apps/web/lib/battery.ts:128-137 | the summary counts the matches and practices and repeats the newest log of each sort that has one |
| `BatteryFleet.ComparatorIsAPreorder` | apps/web/lib/battery.ts:354-364 | the rotation's comparator is a total preorder even with unmeasured packs |
| `BatteryFleet.RotationOrder` | apps/web/lib/battery.ts:349-365 | the rotation is a permutation of exactly the active packs not to be retired: scored first, scores falling, then the longest unused |
| `BatteryFleet.RotationKeepsTies` | apps/web/lib/battery.ts:349-365 | packs with the same score, last used at the same time, keep the order they were listed in |
| `BatteryFleet.GateIff` | apps/web/lib/battery-reliability.ts:62-97 | the gate of a pack: unread out of service or unmeasured, ready exactly when graded good and fit for an event, else to be reviewed |
| `BatteryFleet.FleetAddsUp` | apps/web/lib/battery-reliability.ts:99-132 | the counts partition the fleet, and nothing ready is aging or to be retired |
| `BatteryFleet.ReadyScoresHigh` | apps/web/lib/battery-reliability.ts:78-120 | a pack the fleet gate lets through scores at least 57 |
| `BatteryFleet.ReadyScoresHigher` | apps/web/lib/battery-reliability.ts:78-120 | with whole counters a pack the fleet gate lets through scores at least 58 |
| `BatteryFleet.ReadyBoundIsReached` | apps/web/lib/battery-reliability.ts:78-120 | a pack let through that scores 58 |
| `BatteryFleet.ResistanceLimitNeverDecides` | apps/web/lib/battery.ts:238-240 | for a graded pack any resistance limit from 15 mOhm up lets the same packs through as 25 |
| `Sorting.SortSorts` | apps/web/lib/battery.ts:129 | sorting by a total preorder sorts |
| `Sorting.SortIsStable` | apps/web/lib/battery.ts:354 | ties keep their order |
| `Sorting.TiesKeepPlaces` | apps/web/lib/battery.ts:354 | two elements the order cannot tell apart come out in the order they went in |
| `Sorting.SortedIsUnique` | apps/web/lib/battery.ts:129 | without ties there is one sorted arrangement |
| `WindowState.SanitizeWindowState` | apps/desktop/src/window-state.ts:35-70 | the field by field construction yields the specified window |
| `WindowState.RestoredExactly` | apps/desktop/src/window-state.ts:35-104 | what is restored from any record, exactly: the nearest whole measures kept to the smallest size, in place within the first display it shares a 32 px square with, moved no further than it must, else by its measures capped to the largest |
| `WindowState.MeetsIff` | apps/desktop/src/window-state.ts:21-28 | a window overlaps a display enough exactly when both hold some square of 32 px |
| `WindowState.FirstMeeting` | apps/desktop/src/window-state.ts:53-55 | the display found overlaps by 32 px both ways, none exactly when none does |
| `WindowState.PlacedInsideItsHome` | apps/desktop/src/window-state.ts:49-64 | a place is kept exactly when the stored window overlaps some display by 32 px both ways, and then the window lies wholly inside the first such display |
| `WindowState.FittedInside` | apps/desktop/src/window-state.ts:73-90 | fitting shrinks to the display, moves no further than it must and leaves a fitting window alone |
| `WindowState.CappedToTheLargest` | apps/desktop/src/window-state.ts:92-104 | without a place each measure fits the largest display |
| `WindowState.CappedFitsIff` | apps/desktop/src/window-state.ts:92-104 | some display holds the capped window if and only if one suits the window wanted in both measures at once: large enough, or the largest |
| `WindowState.CappedMayFitNowhere` | apps/desktop/src/window-state.ts:92-104 | two displays of which neither holds the capped window |
| `WindowState.RestoredPlaceIsStableIff` | apps/desktop/src/window-state.ts:35-90 | on whole-numbered displays of any size a window kept in place is restored to itself if and only if the first display its enlarged rectangle overlaps has it inside and, where it is below the smallest size, is just as large |
| `WindowState.RestoredSizeIsStable` | apps/desktop/src/window-state.ts:35-104 | a window without a place is always restored to itself |
| `WindowState.RestoringTwiceIsRestoringOnce` | apps/desktop/src/window-state.ts:35-108 | on whole-numbered displays of at least 1024 by 720 that lie apart, storing and restoring again changes nothing |
| `WindowState.DefaultIsStableIff` | apps/desktop/src/window-state.ts:36 | junk restores the default size uncapped; a second restoring leaves it alone exactly when the largest display has room |
| `WindowState.SmallDisplayMovesTwice` | apps/desktop/src/window-state.ts:39-64 | a display below the smallest window size breaks that |
| `WindowState.OverlappingDisplaysMoveTwice` | apps/desktop/src/window-state.ts:53-64 | overlapping displays break that |
| `BuildHours.NearestHundredth` | apps/web/lib/build-hours.ts:65-73 | hundredths are the nearest to the session's length, an open one counting up to now, and none for times that cannot be read |
| `BuildHours.GroupByUser` | apps/web/lib/build-hours.ts:95-100 | the map holds each user's records in their order |
| `BuildHours.MemberLeaderboard` | apps/web/lib/build-hours.ts:89-123 | the map, the set and the sort yield the specified board |
| `BuildHours.BoardAddsUp` | apps/web/lib/build-hours.ts:89-136 | everybody with a record or a membership has one row and nobody else any; sessions add up to the number of records and hours to the summary's total; more hours come first, and among equal ones the name that does |
| `BuildHours.BoardKeepsTies` | apps/web/lib/build-hours.ts:108-122 | rows that hours and names cannot tell apart stand as their users first come up among the records and then the members |
| `BuildHours.RowSays` | apps/web/lib/build-hours.ts:101-120 | a row's name is the one last given for the member, else the first record's; its percentage the nearest, at most 100, none without a goal |
| `BuildHours.SummarySays` | apps/web/lib/build-hours.ts:132-142 | here now are the open sessions, the average is the total shared among those with a record, none without records |
| `BuildHours.UsersPartitionRecords` | apps/web/lib/build-hours.ts:95-120 | any list of distinct users covering the records splits hours and sessions without remainder |
| `BuildHours.OpenIdIsOpen` | apps/web/lib/build-hours.ts:108-117 | a row points at the first open session, exactly when there is one |
| `BuildHours.LeadsIsAPreorder` | apps/web/lib/build-hours.ts:122 | the board's comparator is a total preorder |
| `HourRanges.LetInIff` | apps/web/lib/build-hours.ts:206-219 | a range is let in exactly when it spans 5 minutes to a day and ends at most 5 minutes from now |
| `HourRanges.RefusedIff` | apps/web/lib/build-hours.ts:206-219 | a refused range is told the first thing wrong with it |
| `HourRanges.LetInBesideIff` | apps/web/lib/build-hours.ts:206-236 | a range is let in if and only if it is well-formed and shares no time with another session, an open one counting up to now |
| `HourRanges.OverlappingRecord` | apps/web/lib/build-hours.ts:222-236 | the first record that clashes, none exactly when none does |
| `HourRanges.ClosedLogStaysApart` | apps/web/lib/build-hours.ts:206-236 | closed sessions grown, corrected and deleted through the checks stay apart, whatever the clock shows |
| `HourRanges.TidyIffClear` | apps/web/app/api/hours/route.ts:228-361 | a step of the route keeps a member's time covered once if and only if it is clear: no clock-in before a closed session has ended, and no range starting this very moment let in, typed in or as a correction, beside an open session |
| `HourRanges.TimeCoveredOnceIff` | apps/web/app/api/hours/route.ts:228-361 | over a run under a clock that never runs back, a member's time is covered once at every moment if and only if every step is clear |
| `HourRanges.LetInApartIff` | apps/web/lib/build-hours.ts:198-233 | a range let in is apart from all other sessions if and only if it does not start this very moment beside an open one |
| `HourRanges.ClearOfTheOpenSessionIff` | apps/web/lib/build-hours.ts:221-233 | a range let in, added or corrected, stays clear of an open session however late it closes if and only if it does not start this very moment |
| `HourRanges.PastRangesCoverTimeOnce` | apps/web/app/api/hours/route.ts:228-361 | with clocking in and out beside it, a member's time is covered once as long as typed-in ranges end by the moment they are typed in |
| `HourRanges.SlackCoversTimeTwice` | apps/web/lib/build-hours.ts:198-233 | two runs in which the five-minute slack covers time twice |
| `Consent.SummarizeConsent` | apps/web/lib/consent.ts:93-125 | the one pass counts exactly the people whose own list of missing forms is empty, and those whose list is not |
| `Consent.CompletedForms` | apps/web/lib/consent.ts:107-111 | the map holds each person's completed forms |
| `Consent.CountComplete` | apps/web/lib/consent.ts:112-115 | the loop over the map counts the complete people |
| `Consent.MissingFormsFor` | apps/web/lib/consent.ts:128-135 | the missing ids are exactly the required forms of which no record of the person is submitted or verified |
| `Consent.CountIs` | apps/web/lib/consent.ts:95-106 | a form's counts are the numbers of its records handed in, and verified |
| `Consent.EveryRequiredIffNoneMissing` | apps/web/lib/consent.ts:114 | every required form is in the set exactly when nothing is missing |
| `Consent.OrderDoesNotMatter` | apps/web/lib/consent.ts:93-125 | neither the order of the records nor repeated ones change who is complete |
| `Consent.HandingInHelps` | apps/web/lib/consent.ts:128-135 | a form handed in is no longer missing and makes nobody less complete |

## Left out

- Status events, `lastError`, `lastJobAt`, message texts and button labels of the services: the state they report is modelled, the reporting is not.
- Requests, JSON text, the file system, the keychain, SHA-256, URL parsing, the browser and process start: their answers are parameters, a file is its digest, and allowed addresses and session-cookie names are given predicates.
- `refreshModels` and `setModel`: the model list and `pickLocalModel` are reduced to the picked name, `setModel` to names on the list; changing the base URL is left out.
- Local AI saves are taken to complete in order, so a later save is never overtaken by an earlier one.
- A download's bytes: only its final digest, and what a broken download leaves behind, reach the model; other programs writing to the download directory are left out.
- A waiting `maybeInstall` may resume before its download has ended in the model, which only adds runs.
- Release notes, `parseWebRelease`, reloading of stale or broken pages, and the path rules of live pages (`live` and `inMatch` are given).
- `UpdatePolicy.ParseManifest`: `notes` and `releaseNotes` are not modelled, because nothing is decided by them.
- Numbers too long for a double in `parseVersion`, times outside the range of `Date`, and date text parsing and `toUpperCase`, which are parameters.
- `IcsText.FoldLine`: a character stands for one UTF-16 code unit, surrogates not being characters here; octets are not counted.
- What a shell does after a sign-in succeeded (`applyGate`), and the cookie's other attributes.
- Rounding of doubles in scores, hours and window sizes; non-finite battery readings; `lastSeen` on the board; an empty `clockOut` text.
- Locale collation: an abstract total preorder for names, the place in the order for timestamps.
- The order of the reasons in `Battery.BatteryHealth` and `Battery.CompetitionReadiness`, labels, details and the other cues.
- `Battery.CartSlot` labels and `batteryPitFlags`, `batteryFmeaSignals`: assembly of text from the same gates.
- Roles, sweeping of forgotten sessions and policies of shop hours; the overlap test is modelled as written in `build-hours.ts`, the queries of the route being the same test in SQL.
- Request parsers, counters, pages, loaders and `apps/web/proxy.ts`: each is settled by one branch, is input and output only, or rests on code that is not part of this model.
