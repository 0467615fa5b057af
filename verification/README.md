# Training records, proved

A Dafny model of the backend of a training platform: authors write modules page by page and publish numbered, frozen
versions; learners read the pages of one translation and attest to having done so; administrators assign material,
see who is overdue and have reminders sent; modules travel as archives and are made from Markdown and Word documents.

The project proves what these parts promise together. `dafny verify dfyconfig.toml` checks all of it.

## How the system is modelled

Each HTTP request is one atomic step over the tables. A refused request leaves the tables as they were and gives the
reason; an accepted one may add an event (a publication, a page view, a change of text, an attestation) to a history that only the proofs
see. Tables are maps keyed by id; the foreign-key cascades and unique constraints the routes rely on are part of the
step. The ids a request creates rows under come with the request, and one already in use is a failed insert.

| files | what they hold |
|---|---|
| Common, Domain, Uuids, Documents | options and results, users and assignments, UUIDs and asset URLs, JSON trees |
| Drafts | a module's working pages and the revision token that guards them |
| Variants | which translation a learner is given |
| Records, Frames | the tables, every request as a function on them, runs of requests, and what each kind of request leaves alone |
| Translations, Lifecycle, Pages, Evidence | the four parts of the table invariant, each kept by every request |
| Attestation, Histories | what rows and versions say about the history, kept by every request |
| Runs | the promises over every run |
| Effects | what each accepted request leaves behind, field by field |
| Readership, Writing | what is viewed counts and can be attested; what is written stands and is published |
| Routes | the same requests as methods of a class that updates its tables in place, proved against those functions |
| Assigning, Reporting | due dates and standings, from the learner's, the team's and the administrator's side |
| Reminders, ReminderRuns | the daily job and the manual nudge, and days and weeks of them |
| LiveFacts | what the job and the learner's list read, computed from the tables, against what the viewer opens |
| Validation, Rewriting, Preservation | the body validator, the two reference rewriters, and what rewriting keeps |
| Legality, Leaves | what an accepted body is, and what the rewriters and the search index do to it, said from the document alone |
| Archive, RoundTrips | the export archive, written and read back |
| ObjectCopies | the loops that copy or write stored objects and take them back on failure |
| Conversion, DocxReading, DocxLaws, DocxLetters, DocxImport, MarkdownReading | documents turned into pages |
| RateLimit | the sliding-window limiter of login and the second factor |

Code that computes by recursion or comprehension is a function here, and code that works by updating rows, lists or
counters is a method, with a loop where the source has one. Such a method is proved equal to a function of the state
before it, or to a property that fixes its result, and the lemmas are about that function.

Calls into code that is not part of this model are parameters: `encode`, `decode` and `pack` stand for the manifest's
JSON and schema and for deflate, `faults` and `cleanup` for the object store's answers, `canonical` and `accepted` for
the ProseMirror schema's and the upload sniffer's verdicts. The theorems hold for all of them, the round trip under the
one assumption that `decode` reads back what `encode` wrote for the document at hand.

## Where the code says less than its comments or tests suggest

- After a delete a live sibling's material can be assigned again, although the comment at
  `src/backend/app/routes/content.py:911-913` says it cannot (`Lifecycle.MaterialIsAssignableAgainIff`,
  `Runs.SiblingIsAssignedAfterDelete`).
- The cap of one reminder a day counts rows. Removing an assignment removes its rows, so a learner can get a second mail
  that day (`ReminderRuns.RemovalReopensTheCapIff`, `ReminderRuns.TwoMailsInOneDay`).
- The import rewriter raises on an accepted body that holds a path of the asset shape without a UUID
  (`Rewriting.ByIdOutcome`, `Preservation.AcceptedYetNotRewritable`), and then the objects already written stay behind,
  because only the loop before it cleans up (`ObjectCopies.Store.ImportModule`, `ObjectCopies.ImportThatLeaks`).
- A heading whose `level` is a list or an object makes the validator raise a `TypeError` rather than refuse the body.
  `Validation.CrashIff` says exactly when, and `Preservation.ListAsLevelCrashes` gives such a body.
- The converters' copy of the link rule lacks the validator's length limit, so one over-long link fails an import that
  was meant to drop it (`Conversion.LinkRulesAgreeIff`, `Conversion.LongLinkIsKeptThenRefused`).
- Text that shares a Word run with a drawing is dropped without a report (`DocxReading.TextIsKeptIff`,
  `DocxLaws.SentenceLostUnreported`).
- Which requirement goes with the nearest due date can depend on row order when dates tie
  (`Assigning.RequirementIsDeterminedIff`, `Assigning.RowOrderDecides`); the date does not.
- A failure is counted against Python's clock and stamped with the start of its database transaction, which the second
  factor opens before it checks the limit. So a closed window of 15 minutes can hold eleven failures
  (`RateLimit.ElevenInOneWindow`); the bound is for every run exactly when no stamp comes before its check
  (`RateLimit.WindowsAreBoundedIff`), as at login, whose check comes before its transaction, if the two clocks
  agree. Otherwise the window that is bounded is shorter by the lag (`RateLimit.ShorterWindowsAreBounded`). Nothing is assumed about the order of the attempts in time.

## Model

| member | source | states |
|---|---|---|
| Runs.AttestationIsSound | src/backend/app/routes/learning.py:700-751 | In every state reachable from the empty platform, a completed row names the learner's last attestation; it was of a published version, and every page of that version (the same pages the stored version still lists) has a view by that learner after the latest substantive publish of any variant of the group before the attestation. The row is unsuperseded exactly when no substantive publish has followed, so then the views are of what the group still asks for |
| Runs.CompletionIsExact | src/backend/app/routes/learning.py:745-750 | A reachable row is completed exactly when its learner ever attested to that material, and a row never completed is never superseded |
| Runs.EvidenceSurvivesRuns | src/backend/app/routes/content.py:631-649 | From any reachable state on, no run removes a progress row or un-completes it |
| Runs.EvidenceResolves | src/backend/app/routes/content.py:896-921 | In every reachable state the text being read and the text completed are variants of the row's own group, and the completed number is a version that module has, or lies between 1 and the number its tombstone remembers |
| Runs.VersionsOfEveryRun | src/backend/app/routes/content.py:697-728 | In every reachable state a live module's versions are numbered exactly 1..n with non-empty pages, learners are given number n, and published implies n >= 1 |
| Runs.DeletedForGood | src/backend/app/routes/content.py:869-921 | Deleted is absorbing: whatever requests follow, the tombstone stays the same row, with no pages, assets, versions or catalog visibility |
| Runs.GroupsOfEveryRun | src/backend/app/routes/content.py:1233-1310 | In every reachable state each module lies in exactly one existing group, every group is non-empty with its primary among its own variants, and no two variants of a group share a language |
| Runs.DraftStep | src/backend/app/routes/content.py:316-336 | A request changes a module's draft only by claiming the very revision it was given a token for, which moves it up by one, or by the purge of a delete |
| Runs.SameRevisionSamePages | src/backend/app/routes/content.py:316-336 | No lost update: between two moments of any run at which a live module carries the same revision, its pages are the same, so an accepted edit finds exactly the pages listed under its token |
| Runs.RevisionsAreClaimedOnce | src/backend/app/routes/content.py:316-336 | Of two accepted edits of a module anywhere in a run, the later one carries the strictly larger token |
| Runs.PositionsOfEveryRun | src/backend/app/routes/content.py:411-544 | In every reachable state every draft numbers its pages exactly 0..n-1 |
| Runs.RowDecidesTheVariant | src/backend/app/routes/learning.py:127-160 | With a progress row whose text is readable, every open, view and completion resolves to that text |
| Runs.VariantIsStable | src/backend/app/routes/learning.py:127-160 | Through any run without an explicit switch by that learner, whatever happens to preferences, primaries, links and publishes, the row's text stays the same and is what resolves for as long as it is readable |
| Readership.ViewedAfter | src/backend/app/routes/learning.py:682-707 | One request at a time, for every learner, material and page: the page counts as viewed afterwards exactly when nothing put the learner back and it counted before or was the very page this request viewed |
| Readership.ViewedIsExact | src/backend/app/routes/learning.py:682-707 | In every reachable state exactly those pages count as viewed that the learner has viewed since the last substantive publish of the group and their last switch to another text |
| Readership.CompletionIsAcceptedIff | src/backend/app/routes/learning.py:710-752 | The converse of sound attestation: in every reachable state a completion is accepted exactly when some text opens for the learner and every page of its current version has been viewed by them since they were last put back |
| Readership.ReadingCounts | src/backend/app/routes/learning.py:682-707 | Over any run in which nothing puts the learner back, what counts at the end is what counted before and what they had viewed with success in it |
| Readership.ReadingThroughCompletes | src/backend/app/routes/learning.py:710-752 | Whoever views every page of the text they are given in the course of such a run, among whatever requests of others, has their completion accepted at its end |
| Readership.ReadersCanComplete | src/backend/app/routes/learning.py:682-752 | From every state that agrees with its history, a learner for whom a text opens completes it by viewing what is left of it, page by page, and attesting: no view and no completion in this is refused |
| Readership.WhatOpens | src/backend/app/routes/learning.py:93-160 | In every reachable state, of the texts of a material a learner may read, the one they are reading opens; else the one in their language; else the primary; else the one whose language comes first |
| Writing.TextStays | src/backend/app/routes/content.py:488-519 | Every request but an update of this page, its deletion or its module's leaves the page its title and its body |
| Writing.TextStands | src/backend/app/routes/content.py:488-519 | Over any run, what a page says it says until such a request on it is accepted |
| Writing.AcceptedEditIsWritten | src/backend/app/routes/content.py:411-519 | What an accepted create or update sends stands on the page at once; what an update does not send stays |
| Writing.EditIsPublished | src/backend/app/routes/content.py:488-583 | The title and body an accepted update sends are in the draft for as long as nobody writes over them, and in the version a publish then makes, under the page's id |
| Writing.EveryDraftFits | src/backend/app/routes/content.py:411-455 | In no reachable state does a draft hold more than two hundred pages |
| Histories.StepKeepsWorld | src/backend/app/routes/content.py:604-757 | The whole invariant (tables, page ownership, and what rows and versions say about the history of publishes, views and completions) is kept by every request |
| Histories.EveryRunIsOk | src/backend/app/routes/content.py:674-757 | The whole invariant holds after every run from the empty platform |
| Attestation.CompletingKeepsRows | src/backend/app/routes/learning.py:710-752 | A completion whose version's pages are all among the row's viewed pages records an attestation that the history bears out |
| Attestation.SupersedingKeepsRows | src/backend/app/routes/content.py:604-649 | A substantive publish empties the viewed pages and marks a completion as past in agreement with the history |
| Evidence.EvidenceIsConserved | src/backend/app/routes/learning.py:667-751 | One request at a time: no row disappears, the three completion fields change only together and only by the learner's own completion, and only an explicit switch moves the text being read |
| Evidence.RowsStay | src/backend/app/routes/content.py:631-649 | Every request but a learner's own leaves every row as it is, except that a substantive publish sends back exactly the rows of its own group |
| Evidence.TopNeverFalls | src/backend/app/routes/content.py:709-726 | The highest number a module reached goes up by one on its publish and is otherwise untouched, deletion included |
| Lifecycle.VersionsAreOneToN | src/backend/app/routes/content.py:697-728 | Under the table invariant, a live module has a version numbered k exactly for 1 <= k <= n, and `max(version_number)` and the number learners are given are both n |
| Lifecycle.PublishedVersionShowsTheDraft | src/backend/app/routes/content.py:559-583 | A published version has one page for each draft page, at the draft's position, under its id and with its title and body |
| Pages.DuplicateCopiesPageForPage | src/backend/app/routes/content.py:1037-1056 | A duplicate lists the new ids in order, and the page at each place is the source's page at that place, repointed |
| Lifecycle.VersionsAreFrozen | src/backend/app/models/module.py:171-209 | No request changes a version row; it disappears exactly when its module is deleted |
| Lifecycle.TombstonesAbsorb | src/backend/app/access.py:73-88 | No accepted request changes the row of a deleted module |
| Lifecycle.StepKeepsLifecycle | src/backend/app/routes/content.py:674-803 | The version and status invariant is kept by every request |
| Lifecycle.MaterialIsAssignableAgainIff | src/backend/app/routes/content.py:911-916 | After a delete the material can be assigned anew exactly when a live sibling is left, although the comment there says it can no longer be |
| Translations.StepKeepsGroups | src/backend/app/routes/content.py:220-237 | The partition of modules into translation groups is kept by every request |
| Translations.LinkingTouchesOnlyTheSource | src/backend/app/routes/content.py:1281-1310 | Linking moves one module; the target group's assignments and all progress are untouched, and the only rows that go are the emptied group and its assignments |
| Pages.StepKeepsPages | src/backend/app/routes/content.py:559-583 | Page ids are issued to one module once and for all, every draft page and every snapshotted page belongs to its module, and every draft is contiguous, after every request |
| Pages.FoundedTableOk | src/backend/app/routes/content.py:1037-1056 | A created, duplicated or imported module lists exactly the page ids issued for it, in the source's or the archive's order |
| Runs.VersionsStayFrozen | src/backend/app/models/module.py:171-209 | Over any run, as long as its module is not deleted a version row is there exactly as it was published; once it is deleted none is left |
| Runs.NumbersCountPublications | src/backend/app/routes/content.py:869-921 | In every reachable state the highest number of a module is how often it was published, and a tombstone's `deleted_version_number` is exactly that, or null when it never was |
| Runs.SiblingIsAssignedAfterDelete | src/backend/app/routes/content.py:911-916 | A concrete run from the empty platform on which the comment fails: two linked translations, the first deleted, the second then assigned |
| Effects.ViewIsRecorded | src/backend/app/routes/learning.py:682-707 | After an accepted view exactly the pages viewed before and this one count, the learner is on this page, and the completion and every other row are as they were |
| Effects.SwitchGivesTheLanguage | src/backend/app/routes/learning.py:637-676 | After an accepted switch the learner is on a text in the language asked for that they may read; if it is another than before nothing of it counts as viewed; the completion and every other row are as they were |
| Effects.SwitchIsAcceptedIff | src/backend/app/routes/learning.py:637-676 | A switch is accepted exactly when the learner may read some published text of the material in that language |
| Effects.CompletionIsRecorded | src/backend/app/routes/learning.py:710-752 | An accepted completion records the moment, the text that opened, the number of its current version and no stamp, and leaves what was viewed and every other row |
| Effects.PublishingGivesItOut | src/backend/app/routes/content.py:674-757 | After a publish the module is published and gives out the new version, of the kind asked for; every other module, version and assignment stays, and no row of a learner disappears or, on a minor publish, changes |
| Effects.CatalogDecidesTheRest | src/backend/app/access.py:47-70 | The catalog flag decides for everybody but authors and those whom, or a team of whom, an assignment of the material names: set, they may read the published text; cleared, they may not; other texts are unaffected |
| Effects.AssignmentIsStored | src/backend/app/routes/assignments.py:146-219 | The new row has the group, target, due date, requirement and reminder flag asked for; every other row and table stays |
| Effects.EveryRunAssignsOnce | src/backend/app/routes/assignments.py:146-219 | In every reachable state no material is assigned twice to the same person or team |
| Effects.DeletingTakesOnlyItsOwn | src/backend/app/routes/content.py:848-936 | A delete takes the module's versions and its material's assignments, and no progress, no other module, version or assignment |
| Effects.FoundedIsADraft | src/backend/app/routes/content.py:211-254 | A created, duplicated or imported module is an unpublished draft in a new group whose primary it is, in the language given or the source's; every other module and group stays |
| Effects.AssetsAreKept | src/backend/app/routes/assets.py:220-372 | Uploading adds that asset to its module's, removing takes that one away, and nothing else changes |
| Effects.ImportedPageForPage | src/backend/app/routes/transfer.py:353-391 | Page i of an imported module stands at place i under its own id with the archive's title and body |
| Routes.Platform.PublishModule | src/backend/app/routes/content.py:674-757 | Publishing in place leaves exactly the tables the specification gives, or refuses and leaves them alone, and keeps the invariant |
| Routes.Platform.UnpublishModule | src/backend/app/routes/content.py:761-800 | Unpublishing takes this text from everybody who could read it and no other text from anybody; versions, progress, assignments and the version it points at stay |
| Routes.Platform.SendLearnersBack | src/backend/app/routes/content.py:604-649 | Row by row: in the group every row ends with nothing viewed, its completion fields kept, and a stamp exactly when it held a completion; other rows are untouched; the count is of the rows that then carry the stamp |
| Routes.Platform.HighestVersion | src/backend/app/routes/content.py:709-715 | The scan over version rows finds the highest number of the module, or 0 |
| Routes.Platform.DeleteModule | src/backend/app/routes/content.py:848-936 | The step-by-step delete leaves exactly the specified tombstone and tables |
| Routes.Platform.LinkVariant | src/backend/app/routes/content.py:1213-1338 | The five refusals in their order, the move, and the cascade from the emptied group; no progress row is lost |
| Routes.Platform.SetPrimaryVariant | src/backend/app/routes/content.py:1342-1366 | The nominated variant is what a learner gets who may read it, reads no readable variant yet and has none in their language; everybody with either keeps what they get |
| Routes.Platform.SelectReadable | src/backend/app/routes/learning.py:548-558 | The loop collects exactly the published variants of the group this learner may read |
| Routes.Platform.ResolveReadableVariant | src/backend/app/routes/learning.py:127-160 | The code path resolves the variant that the specification picks from the set of readable ones |
| Routes.Platform.RecordPageView | src/backend/app/routes/learning.py:682-707 | A view is recorded on the row of the resolved text, once per page, or refused without effect; accepted, it adds this page to what counts as viewed, makes it the current page, and leaves the completion and every other row |
| Routes.Platform.SwitchVariantLanguage | src/backend/app/routes/learning.py:637-676 | A switch leaves the learner on a readable text in the language asked for, clears the views exactly when the text changes, keeps the completion, and touches no other row |
| Routes.Platform.CompleteModule | src/backend/app/routes/learning.py:710-752 | Completion is refused exactly when a page of the current version is not viewed, and otherwise records the moment, the text, its current number and no stamp, leaving views and other rows |
| Routes.Platform.CreateAssignment | src/backend/app/routes/assignments.py:146-219 | The refusals in the code's order, or one new row that says what was asked for |
| Drafts.DraftStore.CreatePage | src/backend/app/routes/content.py:411-455 | A page with the given title and validated body is appended at the end under the token, with the refusals in the code's order; all other pages are as they were |
| Drafts.DraftStore.ReorderPages | src/backend/app/routes/content.py:458-485 | The listing becomes exactly the requested permutation, and every page keeps its title and body |
| Drafts.DraftStore.UpdatePage | src/backend/app/routes/content.py:488-519 | The named page has the title and the body that were sent, and what it had of either that was not; its position, the listing and every other page are as before |
| Drafts.DraftStore.DeletePage | src/backend/app/routes/content.py:522-544 | The listing is the old one without the page, renumbered, and the other pages keep their titles and bodies |
| Drafts.DraftStore.ModulePages | src/backend/app/routes/content.py:369-378 | Selecting by position gives the listing, whatever gaps the positions have |
| Drafts.ReorderKeepsPositions | src/backend/app/routes/content.py:458-485 | After an accepted reorder positions are 0..n-1 in the requested order and one revision was spent |
| Drafts.DeleteKeepsPositions | src/backend/app/routes/content.py:522-544 | After an accepted delete the others keep their relative order at positions 0..n-2 and one revision was spent |
| Drafts.CreateKeepsPositions | src/backend/app/routes/content.py:411-455 | After an accepted create positions are contiguous with the new page last and one revision was spent |
| Variants.PickVariant | src/backend/app/routes/learning.py:93-124 | The three-pass choice over a sorted list depends only on which variants there are: it is the first, in the fixed order, of the most favoured kind present |
| Variants.StickyWins | src/backend/app/routes/learning.py:93-124 | The variant being read wins over preference and primary while it is among the readable ones |
| Variants.PrimaryServesTheRest | src/backend/app/routes/learning.py:93-124 | The primary, if readable, is the choice whenever no variant is being read or in the preferred language |
| Variants.ChoiceIsRanked | src/backend/app/routes/learning.py:93-124 | Among variants of distinct languages the one being read is chosen; if none is, the one in the preferred language; else the primary; else the first language |
| Assigning.WinnerIsNearest | src/backend/app/assignments.py:74-99 | The row the loop keeps has the earliest due date of all rows covering the learner and the material, no date only if none of them has one, and there is a row exactly when some row covers them |
| Assigning.SameRowsSameDate | src/backend/app/assignments.py:58-99 | Two queries returning the same covering rows in any orders give the same date |
| Assigning.RequirementIsDeterminedIff | src/backend/app/assignments.py:85-89 | The requirement that comes with the date is independent of row order exactly when all rows tying for the nearest date carry the same one |
| Assigning.RowOrderDecides | src/backend/app/assignments.py:85-89 | A concrete learner assigned the same material twice for one day, directly as mandatory and through a team as optional: in one order of the rows it is mandatory, in the other it is not |
| Assigning.AssignmentsForUser | src/backend/app/assignments.py:74-99 | The dictionary the loop fills holds exactly the winner of each material assigned to the learner |
| Assigning.TargetsAreNamed | src/backend/app/assignments.py:117-143 | Resolved from the target or from the learner's side, an assignment names the same live people |
| Assigning.AssignedGroupsAreWinners | src/backend/app/assignments.py:34-43 | The cheap query the access checks use names exactly the material the full resolution does |
| Reporting.FullRoster | src/backend/app/reporting.py:135-195 | The roster holds exactly the live people covered by an assignment (and, when asked, the others with progress), each with the standing of their nearest date |
| Reporting.OthersAreListedWithoutDate | src/backend/app/reporting.py:172-195 | Asked to, the roster also has every other live learner with a row, without a date, never overdue, completed or in progress as the row says |
| Reporting.GroupStandings | src/backend/app/reporting.py:99-132 | One summary per team assignment, over that team's live members and that assignment's date |
| Reporting.TeamStandingsAreTheTeams | src/backend/app/reporting.py:99-132 | A team's standings are of its live members, against its own assignment's date: not started without a row, completed with a completion that stands, overdue when the date is past and it does not |
| Reporting.ListMyModules | src/backend/app/routes/learning.py:453-545 | The learner's list has exactly one row for each material started, or assigned, unopened and readable |
| Reporting.ViewsAgree | src/backend/app/reporting.py:161-195 | For every live learner and material, whatever order each query returned rows in, the roster, the learner's own resolution and the learner's list show the same due date and overdue flag |
| Reporting.TeamOverdueIsRosterOverdue | src/backend/app/reporting.py:99-132 | Overdue in a team standing implies overdue in the roster, and both show the same state |
| LiveFacts.NotifiedModuleIsPublished | src/backend/app/reminders.py:101-118 | A mail has a module to name exactly when some variant of the group is published, and names a published variant of it, the primary if that is published |
| LiveFacts.FirstLanguageIsNamed | src/backend/app/reminders.py:101-118 | When the primary is not published a mail names the published variant whose language comes first |
| LiveFacts.AvailableOpens | src/backend/app/routes/learning.py:502-506 | The list and the viewer agree: a group is shown as available exactly when opening it resolves |
| LiveFacts.AssignedOpensIff | src/backend/app/routes/learning.py:127-160 | Somebody assigned a material can open it exactly when a mail about it has a module to name |
| LiveFacts.RemindedCanRead | src/backend/app/reminders.py:192-282 | In every reachable state whoever a run reminds, scheduled or manual, is live, has not completed the material and can open it |
| LiveFacts.RemindedFindsItListed | src/backend/app/routes/learning.py:453-545 | And finds it as available on their own list |
| LiveFacts.AudienceFromTheTables | src/backend/app/reminders.py:192-230 | The audience of the daily job read off the tables of any reachable state: reminded before today, or live, without a completion that is still current, the material published, and a mandatory, dated, unmuted assignment naming them or a team of theirs that is due in 7 days, in one, today, or some full weeks ago |
| LiveFacts.ViewsOfEveryState | src/backend/app/reporting.py:161-195 | In every reachable state, for every live learner and material: the roster has the assigned, in the state their row gives; the own list what was opened or is assigned and resolves in the viewer; both show the same date and the same overdue flag, and done is a completion that still stands |
| Reminders.ReminderLog.AlreadyRemindedToday | src/backend/app/reminders.py:133-157 | The count over the log answers whether there is any row, of whatever kind and under whichever assignment, about this learner, this material and today |
| Reminders.ReminderLog.SendManualReminders | src/backend/app/reminders.py:233-282 | The manual path reaches exactly the nudge audience, and its log is the very one that the cap alone gives over the same order of visits, so its own set of learners already reminded changes nothing |
| Reminders.ReminderLog.NudgeMembers | src/backend/app/reminders.py:254-282 | The same for one assignment: skipping learners already in the set first gives the log of the loop without it |
| Reminders.ReminderLog.RunScheduledReminders | src/backend/app/reminders.py:192-230 | The nested loops, in any order, bring every learner of the exact audience to one reminder today and nobody else, and count what they sent; every row added is of an assignment that is mandatory, dated and not muted, to somebody it obliges, on a day its kind is for |
| Reminders.RunsAddProperRows | src/backend/app/reminders.py:50-74 | Whatever a scheduled run or a nudge adds is for today, under a mandatory, dated, unmuted assignment of published material that names a live learner who has not completed it; so optional, muted and undated assignments send nothing |
| Reminders.KindIsOfTheDay | src/backend/app/reminders.py:57-74 | Seven days ahead, one day ahead, on the day and every full week after it are the days with a kind, and each has its own |
| Reminders.ReminderLog.RemindOutstandingLearners | src/backend/app/routes/assignments.py:271-313 | A second nudge about the same material on the same day is refused without effect, whatever the first one sent; an accepted one returns the number of rows it added, all of them manual and proper in the sense of `Reminders.RunsAddProperRows` |
| ReminderRuns.CapHoldsAllDay | src/backend/app/reminders.py:133-157 | Over any interleaving of scheduled runs, nudges and other changes in a day with no assignment removed: at most one reminder row per learner and material, and at most one accepted nudge per material |
| ReminderRuns.RepeatedRunSendsNothing | src/backend/app/reminders.py:192-230 | A scheduled run repeated with nothing else changed leaves the log as it is |
| ReminderRuns.AudienceIsExact | src/backend/app/reminders.py:192-230 | After a scheduled run someone has a reminder today exactly when they had one before, or a mandatory, dated, unmuted assignment of the published material obliges them that is on a checkpoint today |
| ReminderRuns.NudgeAudienceIsExact | src/backend/app/reminders.py:233-282 | After a nudge, exactly when they had one before or such an assignment of this material obliges them, whatever the day |
| ReminderRuns.OverdueReminderIsOverdueInRoster | src/backend/app/reminders.py:201-229 | Whoever is sent an overdue reminder is overdue and not completed in that day's roster |
| ReminderRuns.CadenceInClosedForm | src/backend/app/reminders.py:57-74 | The checkpoints up to any day, counted over the calendar, are 0, 1, 2 and then 3 plus one for each full week overdue |
| ReminderRuns.CadenceIsExact | src/backend/app/reminders.py:57-74 | Daily runs from at least seven days before the due date to 7k days after it remind a learner who stays outstanding, is covered by one assignment of the material and is not nudged about it exactly 3 + k times, whatever other assignments are added, or removed with their rows, and whoever else is nudged in between |
| ReminderRuns.RemindedOnEveryCheckpoint | src/backend/app/reminders.py:192-230 | After each of these days that learner has one reminder for every checkpoint so far, all under that assignment, and none of a later day |
| ReminderRuns.RemovalReopensTheCapIff | src/backend/app/routes/assignments.py:222-242 | Once assignments are removed, one or all of a group at once, a learner already reminded today is reminded once more exactly when their row belonged to one of them |
| ReminderRuns.TwoMailsInOneDay | src/backend/app/routes/assignments.py:222-242 | A concrete day with two mails to one learner: a scheduled reminder, the assignment removed and made again, a nudge |
| Validation.Walk | src/backend/app/content/validation.py:139-197 | The recursive walk with its shared counter returns exactly the first fault in document order, by its code, and accepts a tree exactly when every node is well-formed by itself and depth and node count fit in what is left of the limits; then the counter has grown by that count |
| Validation.Validate | src/backend/app/content/validation.py:60-88 | The outcome is exactly the verdict: no object, too many bytes in the compact serialization, or the first fault of the walk; a body passes exactly when it is a well-formed object within the byte, node and depth limits |
| Validation.FirstFaultIsJustified | src/backend/app/content/validation.py:139-197 | Reading the nodes off in document order and stopping at the first fault finds none exactly in well-formed trees that fit; a limit is blamed only when it is exceeded, anything else only when some node is malformed |
| Validation.CrashIff | src/backend/app/content/validation.py:244-250 | Validation raises a `TypeError` exactly when the first faulty node in document order, within the limits, is a heading, otherwise sound so far, whose `level` is a list or an object |
| Preservation.ListAsLevelCrashes | src/backend/app/content/validation.py:244-250 | A concrete page on which it does: one heading whose `level` is an empty list |
| Legality.NodeIsLegalIff | src/backend/app/content/validation.py:139-197 | The check of one node passes exactly nodes with the five known keys at most, one of the twelve types, attributes of that type only and with legal values, non-empty text exactly on text nodes, and marks of the four known kinds, links leading to a legal address |
| Legality.TreeIsLegalIff | src/backend/app/content/validation.py:139-197 | A tree is well-formed exactly when the node at the end of every path along `content` is such a node |
| Legality.HeightIsDepth | src/backend/app/content/validation.py:139-143 | The height held against the limit is how deep the deepest path goes |
| Legality.NodesAreCounted | src/backend/app/content/validation.py:114-122 | The count held against the limit is the number of distinct paths |
| Legality.SizeIsOfTheText | src/backend/app/content/validation.py:125-136 | The size held against the limit is the UTF-8 length of the compact JSON text |
| Legality.AcceptedIffLegal | src/backend/app/content/validation.py:60-88 | A body passes exactly when every node in it is legal, none lies more than 20 levels deep, there are at most 2000, and its JSON text has at most 262144 bytes |
| Legality.AcceptedLinksAreLegal | src/backend/app/content/validation.py:263-300 | In an accepted body every link with attributes, wherever it stands, leads to a path of the site, an `https` or a mail address of at most 2048 plain characters |
| Legality.AcceptedImagesAreOwn | src/backend/app/content/validation.py:303-316 | In an accepted body every image with attributes shows a path of the platform's own assets |
| Preservation.ExtractSearchText | src/backend/app/content/validation.py:91-111 | The visitor collects the stripped non-empty texts of the tree in document order, joined by single spaces |
| Leaves.JoinedConcat | src/backend/app/content/validation.py:111 | Pieces are joined with one space between them and none around blank ones |
| Leaves.PiecesAreTexts | src/backend/app/content/validation.py:103-110 | The pieces are what the text nodes say, and nothing else: no names of types, no attributes, no addresses |
| Leaves.EveryTextIsFound | src/backend/app/content/validation.py:91-111 | What any text node of a body says, without white space around it, stands in the search text as words of its own |
| Rewriting.RedirectedReferences | src/backend/app/routes/content.py:943-965 | The references of a rewritten tree are the old ones redirected, in the same places |
| Leaves.RedirectedAt | src/backend/app/routes/content.py:943-965 | Place by place: a string that is a `src` or `href` member is followed, and everything else is where it was and as it was |
| Leaves.DuplicateRewritesReferences | src/backend/app/routes/content.py:943-965 | So a duplicate's page has, at every `src` and `href` that is a URL of the source's, the URL of the copy, and is otherwise the source's |
| Leaves.ImportRewritesReferences | src/backend/app/routes/transfer.py:176-192 | And an imported page has, at every one that spells an asset path with an id of the archive's, in any spelling, the new URL, and is otherwise the archive's |
| Rewriting.RedirectsAgree | src/backend/app/routes/content.py:943-965 | Two redirections give the same tree exactly when they agree on every reference in it, so nothing but references is touched |
| Rewriting.NoneLeftBehind | src/backend/app/routes/content.py:943-965 | When no new URL is an old one, no reference to the source's assets is left |
| Rewriting.RewriteUndone | src/backend/app/routes/content.py:943-965 | The inverse map undoes a rewrite exactly when the tree did not already point at a new URL |
| Rewriting.NoneLeftBehindById | src/backend/app/routes/transfer.py:176-192 | When no new URL names an old asset, no reference of an imported body names one |
| Rewriting.RewriteUndoneById | src/backend/app/routes/transfer.py:176-192 | Rewriting by id is undone by the way back exactly when every reference it moved spelled the source's canonical URL and no other named a new asset already |
| Rewriting.ByIdOutcome | src/backend/app/routes/transfer.py:176-192 | The import rewriter redirects, and fails exactly on a tree holding a path of the asset shape without a UUID |
| Rewriting.RewritersAgree | src/backend/app/routes/transfer.py:176-192 | By id and by URL give the same tree exactly when every reference the import would move spells the source module's own canonical URL |
| Preservation.VerdictsAgree | src/backend/app/content/validation.py:60-88 | A redirection between asset paths keeps the validator's whole answer: acceptance, the refusal by its code, or the crash |
| Preservation.DuplicatingKeepsMeaning | src/backend/app/routes/content.py:1037-1056 | A duplicated body has the validator's answer (code included), node count, depth, serialized size and search text of the original |
| Preservation.ImportingKeepsMeaning | src/backend/app/routes/transfer.py:353-379 | So has an imported body, whenever the rewriter comes out at all |
| Preservation.AcceptedYetNotRewritable | src/backend/app/routes/transfer.py:353-364 | A concrete body the validator accepts and the import rewriter raises on, whatever the assets |
| Archive.ParseExportArchive | src/backend/app/content/transfer.py:76-209 | The imperative parse, refusal by refusal in the code's order, computes the specified outcome; a shared budget bounds the reads |
| Archive.BuildExportArchive | src/backend/app/content/transfer.py:56-67 | The writer's loop gives the manifest entry followed by one entry per declared asset |
| Archive.CheckAssetsMatch | src/backend/app/content/transfer.py:212-231 | The three checks of the manifest against the entries, in order |
| RoundTrips.ScanAcceptsIff | src/backend/app/content/transfer.py:107-159 | The first pass accepts exactly the entry lists without directories, suspicious ratios, foreign names or repeated assets whose declared sizes fit the limit |
| RoundTrips.AssetOfIff | src/backend/app/content/transfer.py:36-38 | An entry is an asset's exactly when its name is "assets/", 36 digits or dashes that read as the id, "/" and a file name of 1 to 200 characters without separators or controls |
| RoundTrips.FineIff | src/backend/app/content/transfer.py:107-150 | An entry passes the first pass by itself exactly when it is the manifest or has such a name, and expands to at most the permitted multiple of its packed size |
| RoundTrips.MatchesIff | src/backend/app/content/transfer.py:212-231 | Set sizes, set equality and the name loop together accept exactly when declarations and entries pair off with equal file names |
| RoundTrips.ParseAcceptsIff | src/backend/app/content/transfer.py:76-209 | For any entries, however their metadata lies, the parse returns p exactly when metadata and contents are acceptable and p is what they hold |
| RoundTrips.ParseIsBounded | src/backend/app/content/transfer.py:164-204 | A successful parse holds at most `max_uncompressed_bytes`, manifest included, and returns for each declared asset the whole content of the one entry at its own path, and nothing else |
| RoundTrips.ParseUndoesBuild | src/backend/app/content/transfer.py:56-67 | Parsing a built archive gives back the same document and files, exactly when it keeps within the entry, size and ratio caps |
| RoundTrips.KeptNamesSurvive | src/backend/app/content/uploads.py:238-264 | A file name an upload was kept under can be an archive entry, and is kept unchanged when it is imported again |
| RoundTrips.KeptNamesAreSafe | src/backend/app/content/uploads.py:238-264 | A kept name has 1 to 200 characters, no separator, control or white space at its ends, is no dot path, and ends in a permitted extension |
| ObjectCopies.Store.DuplicateAssets | src/backend/app/routes/content.py:968-1034 | All or nothing: one new object per row, each a copy of its original, or a stop at the first copy that fails, after which the store holds in addition exactly what the cleanup could not delete and what that copy wrote unnoticed, and so is unchanged exactly when there is neither |
| ObjectCopies.Store.ImportModule | src/backend/app/routes/transfer.py:312-391 | The same for the import's asset loop, which stops at the first step whose insert or upload fails and nowhere else; but a failure after the loop leaves every object behind, so a failed import leaves the store unchanged exactly when it was refused before, had no assets, or failed in the loop, was cleaned up, and the failing upload wrote nothing |
| ObjectCopies.ImportThatLeaks | src/backend/app/routes/transfer.py:312-364 | A concrete import of one asset and one accepted body, in which every call to the store succeeds: it fails, and the asset's object stays in the store |
| ObjectCopies.Store.TakeBack | src/backend/app/routes/content.py:1022-1032 | The cleanup loop leaves exactly the objects whose delete failed and the one whose creation went unnoticed |
| ObjectCopies.UrlsAreInvertible | src/backend/app/routes/content.py:989-1013 | The returned URL map is one to one: duplicating back reads it backwards |
| ObjectCopies.DuplicatedBody | src/backend/app/routes/content.py:1037-1056 | A body copied by a duplicate keeps its meaning, points at none of the source's assets, and comes back under a duplicate back exactly when it did not point into the copy already |
| ObjectCopies.ImportedBody | src/backend/app/routes/transfer.py:312-379 | With the ids the asset loop hands out, an imported body keeps its meaning, names none of the archive's assets, and comes back under the way back exactly when its references to them were canonical and none named a new asset |
| ObjectCopies.DuplicatedReferenceShowsTheFile | src/backend/app/routes/content.py:968-1056 | Where a page of the source showed one of its files, the duplicate's page shows in the same place a URL behind which lies an object with the same bytes |
| ObjectCopies.ImportedReferenceShowsTheFile | src/backend/app/routes/transfer.py:312-391 | Where an archived page showed a file of the archive, however spelled, the imported page shows a URL behind which lies an object with that file's bytes |
| Conversion.GroupSections | src/backend/app/content/document_import.py:366-386 | The sections read back as exactly the events, the leading one without a heading and all others with one |
| Conversion.SectionsAreUnique | src/backend/app/content/document_import.py:366-386 | There is only one such way to cut a stream into sections |
| Conversion.FinalizePages | src/backend/app/content/document_import.py:389-408 | One page per section with blocks, in order, with its title clamped; dropped headings and shortened titles are reported in order |
| Conversion.Paginate | src/backend/app/content/document_import.py:389-423 | Concatenating the pages' blocks gives the block events in order, cut into one page per section with blocks and titled after its heading; the document is refused as empty exactly when it has no block, and as too long exactly when more than 200 sections have blocks |
| Conversion.SectionsAreAccountedFor | src/backend/app/content/document_import.py:389-408 | Each empty titled section is reported as often as it occurs and no other heading is; a title is reported shortened exactly when some full title was too long |
| Conversion.ClampTitle | src/backend/app/content/document_import.py:271-281 | The title is the beginning of the full one, at most 200 characters, and being shorter is reported |
| Conversion.FullTitleIs | src/backend/app/content/document_import.py:271-281 | The full title is the given one trimmed, or the fallback trimmed when there is none or nothing else to it |
| Conversion.ClampHeadingLevel | src/backend/app/content/document_import.py:284-295 | The level becomes the nearest of 2 to 4, reported exactly when it moved |
| Conversion.LinkRulesAgreeIff | src/backend/app/content/document_import.py:236-250 | The converters' own link rule and the validator's agree exactly on links of at most 2048 characters; the source calls it a mirror |
| Conversion.LongLinkIsKeptThenRefused | src/backend/app/content/document_import.py:236-250 | A concrete link the converter keeps and the validator then refuses |
| DocxReading.DocxEvents | src/backend/app/content/document_import.py:861-952 | The list-gathering state machine emits exactly the reading by maximal runs, the title, and the report |
| DocxReading.RunsAreMaximal | src/backend/app/content/document_import.py:870-936 | A list block is a maximal stretch of one kind, interrupted only by its last item having images |
| DocxReading.RunsToPm | src/backend/app/content/document_import.py:812-858 | A paragraph's pieces become its marked text and its images, with the report of what was dropped; what the marks are is `DocxLetters.LettersKeepTheirFaces` |
| DocxLetters.LettersKeepTheirFaces | src/backend/app/content/document_import.py:824-858 | Letter by letter: what a paragraph becomes has the letters of its links and of its runs without drawings, in order, bold exactly where the run is bold, italic exactly where it is italic, and linked exactly to the allowed addresses |
| DocxLetters.ImagesAreTheTaken | src/backend/app/content/document_import.py:840-847 | The images of a paragraph are exactly the pictures found and taken in the drawings of its runs |
| DocxLetters.BodyStands | src/backend/app/content/document_import.py:861-952 | Every letter of the body arrives once, in order, in the kind of block its paragraph asks for and set as it was |
| DocxLetters.TitleIsTheFirstHeading | src/backend/app/content/document_import.py:904-912 | The document's title is what a first-level heading at its very start says, if anything |
| DocxLetters.SectionsAreHeaded | src/backend/app/content/document_import.py:915-922 | The sections are headed by what the second-level headings say, in order |
| DocxReading.TextIsKeptIff | src/backend/app/content/document_import.py:846-850 | A paragraph keeps all its text, refused links included, exactly when no run holds both a drawing and text |
| DocxLaws.SentenceLostUnreported | src/backend/app/content/document_import.py:841-846 | A concrete document of one run with a drawing and a sentence: the sentence is gone and the report is empty |
| DocxLaws.NothingIsLostOrReordered | src/backend/app/content/document_import.py:861-952 | With lists opened up, the events are what the items hold, once each and in document order: an item's inline text as its runs are read (so without what shares a run with a drawing), in the form its style asks for, then its images; the module title's text and tables are no part of it |
| DocxLaws.ListsAreNeverEmpty | src/backend/app/content/document_import.py:873-886 | No list block is empty |
| DocxLaws.ReportIsExact | src/backend/app/content/document_import.py:861-952 | An issue is in the report exactly when some item of the document is a reason for it |
| DocxLaws.ReportedOnce | src/backend/app/content/document_import.py:298-300 | Tables, refused links, assumed list styles and unreadable images are reported at most once |
| DocxImport.ConvertDocx | src/backend/app/content/document_import.py:955-1000 | From items to pages: what the items hold apart from section headings stands on the pages once and in order, letter for letter in its kind of block and with its bold, italic and links, and the pages show exactly the pictures that were taken; the document is refused as empty exactly when there is nothing; the pages are the filled sections of the reading; the report is the reading's, then the title's, then the sections' |
| DocxImport.BlocksAreWhatIsShown | src/backend/app/content/document_import.py:366-408 | Cutting a stream into pages takes its section headings out of it and nothing else |
| DocxImport.OnlyTheTitleIsInferred | src/backend/app/content/document_import.py:980-988 | The report says that the title was taken from the file name exactly when the document gave none |
| MarkdownReading.InlineToPm | src/backend/app/content/document_import.py:564-625 | The recursive loop computes the specified inline nodes and report |
| MarkdownReading.NodeToPm | src/backend/app/content/document_import.py:564-625 | And so does its branch for each kind of inline node |
| MarkdownReading.LettersKeepTheirMarks | src/backend/app/content/document_import.py:564-625 | Every visible letter of the source arrives once, in order, with exactly the marks of the formatting around it; a refused link adds no mark and loses no letter |
| MarkdownReading.FormattingIsKept | src/backend/app/content/document_import.py:564-625 | Letter by letter: bold exactly inside strong text, italic inside emphasis, code inside code, and linked exactly to the allowed addresses of the anchors around it |
| MarkdownReading.InlineReportIsExact | src/backend/app/content/document_import.py:564-625 | Every image, unsupported element and refused link is reported, and nothing else is |
| RateLimit.ShorterWindowsAreBounded | src/backend/app/security/rate_limit.py:11-40 | Over any run, in any order of time, no closed window shorter than 15 minutes by the longest lag between a row's stamp and its check holds more than 10 recorded failures of a normalized (email, ip) pair |
| RateLimit.EveryWindowIsBounded | src/backend/app/security/rate_limit.py:11-40 | When no row is stamped before the check that let it in, no closed window of 15 minutes, wherever it lies, holds more than 10 |
| RateLimit.ElevenInOneWindow | src/backend/app/routes/two_factor.py:148-186 | A run in the second factor's order of clocks, the transaction begun a second before the check, with eleven failures in one closed window |
| RateLimit.WindowsAreBoundedIff | src/backend/app/models/login_attempt.py:23-25 | The full window is bounded in every run exactly when no stamp may come before its check |
| RateLimit.PairsAreIndependent | src/backend/app/security/rate_limit.py:15-40 | An attempt with another address, not counting letter case and white space around it, or from another client changes no verdict |
| RateLimit.CountedAsOneIff | src/backend/app/security/rate_limit.py:15-16 | Two addresses are counted as one exactly when they differ at most in letter case and in white space around them |
| RateLimit.NeverLockedOut | src/backend/app/security/rate_limit.py:19-35 | A pair whose failures are all more than a window old is not refused |
| RateLimit.AttemptLog.Try | src/backend/app/routes/auth.py:94-119 | The gate refuses exactly at ten failures of the address and client in the last 900 seconds; a failure then adds one to every count its address, client and moment belong to and to no other; a success or a refusal adds nothing |

## Left out

- Interleaving inside one request: requests are atomic, so the order of the two reads before the row lock in viewing and completing is not modelled.
- Who may call a route: roles, sessions, cookies and the administrator-only rule for individual assignments; `may_read_module` and the draft and deletion guards are modelled.
- Module titles, descriptions, durations, tags, timestamps other than completion times, and the audit log beyond the nudge entry that limits calls.
- The existence check of the team named in a new assignment; a team without members is allowed instead.
- SQL, ORM sessions and row locks: a table is a map and a query result is any sequence holding exactly the matching rows.
- E-mail: a reminder or assignment mail that fails to be sent is not modelled, only the rows that record sends.
- Time zones: a day is an integer, and a row's day is the one whose window contains its time.
- ProseMirror's own content expressions and canonical form: `Validation.Validate` ends where the walk does, and pages hold the canonical body they are given.
- Lone surrogates in JSON strings, duplicate keys in JSON objects as text, and numbers that cannot be serialized; a body is a tree with its keys in order, and `not_serializable` does not arise.
- Case folding and stripping outside the characters `str.strip()` removes and the ASCII letters.
- Zip parsing and inflating: an archive is its list of entries, each with the bytes its stream yields and whether reading past them raises.
- Archive.Suspicious: compares the quotient as a product over the integers; the source divides in floating point, after a size cap that keeps both numbers small enough for the same answer.
- The import route's page and upload checks are one flag, `accepted`, because all of them come before anything is created.
- The zip safety checks of Word files, PDF conversion, Markdown's block structure and the raw-HTML sanitizer, which the parser settings keep from being reached.
- How python-docx classifies a paragraph's style: the model starts from its heading level, its numbering and its runs.
- The catalog, language filters, search, presence, exports of file names, and the frontend.
- Invitations, password resets, two-factor secrets and group administration: separate from everything proved here.
