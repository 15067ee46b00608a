# Verification of Utena's stateful cores

Utena is a daemon that ties terminal sessions to git worktrees, browser
windows, remote workspaces and pull request notifications. This project models
the parts of it that are state machines or algorithms, in Dafny, and proves
what they promise over every run.

- **Browser windows.** `BrowserService` and `BrowserRequests` model the service
  that decides which session owns which browser window: events, timers, user
  requests, disconnects and browser restarts, each one step under the service's
  lock. `BrowserDriver` is the browser as an adversary: it lists any windows and
  fails at will, but gives windows it creates ids of their own and announces
  each created window at most once; every listing it gave, every tab it opened
  and every command it was sent is on record, and the contracts speak of that
  record. `BrowserStore` is the table, whose every operation may fail. While
  neither does (`Reliable`), every step succeeds, but for the reasons its
  contract names. Each change of the table is recorded in a history
  (`WindowTable`), as is every listing, with the condition it was made under:
  what a row saves is a window of the latest listing. The service proves the
  conditions (`BrowserEffects` holds what one step may do to the table,
  `BrowserMeaning` what the functions in the contracts stand for), and
  `WindowHistory` proves what every such history guarantees, and
  `WindowColumns` what the columns of a row tell of it.
  `BrowserTabs` holds tab matching and merging, `Reattach`, `ReattachTheory` and
  `ReattachPicks` the matching of saved rows with the windows of a restarted
  browser and what it means, `Link` and `Placement` the links to the window
  manager and the moves made with them. `LateClose` is a run in which a window
  is closed too late.
- **Session setup.** `SetupPlan` builds the plan and says what it is to do,
  `SetupRun` runs it in waves.
- **Extension stream.** `WebExt` and `WebExtDriver` model connection
  generations, coalescing and the subscriber as interleaved steps;
  `WebExtSteps`, `WebExtLoss` and `WebExtRuns` prove what the subscriber is
  guaranteed; `WebExtCalls` models the requests that wait for an answer,
  `WebExtAnswers` says whose answer they get.
- **Process attribution** (`Attribution`, `AttributionReport`), **pull request
  activity** (`PRActivity`, `PRActivityRuns`, `PRReport`), **disk usage**
  (`DiskUsage`, `DiskUsageRuns`, `DiskUsageSizes`), **slugs** (`Slug`,
  `Decimals`), **Chrome by script** (`ChromeScript`, `ChromeStream`), **ssh
  connections** (`ConnManager`, `ConnSupervision`) and **session status**
  (`SessionStatus`, `SessionOutcomes`).

State that the program updates in place is a class here; where a core is an
interleaving of atomic stretches of code, each method's contract equates the new
state with that of a step function, and the theorems are about all runs of that
function. What the main specification functions mean is said once more without
them, in terms of their inputs or of the history, so that such a function and its
method cannot change together unnoticed.

Some promises turned out not to hold as they stand. Each is stated with an
input for which it fails and with the exact condition under which it holds:
a second install step of a workspace in background mode never starts
(`SetupRun.EveryStepStarts`); a pull request lookup that fails resets the
watermarks (`PRActivityRuns.PullRequestSyncKeepsActivity`); a poll through the
script runner loses the trailing newline of the last title
(`ChromeScript.PolledIff`); a window closed late can take the new window of a
row that was reopened meanwhile (`BrowserService.Service.CloseLate`), shown by
a history and a service that has it (`LateClose`); an activation that ends late
attaches a session that was archived meanwhile (`SessionStatus.DetachedIff`);
a forced deletion lets a late creation end a reactivation
(`SessionStatus.OneEnderIff`); an empty message disturbs the joined error text
(`SessionStatus.AppendedIsJoined`). Three results depend on an assumption that
is shown to be needed: supervisors of a released connection have returned
before it is asked for again (`ConnManager.TooSoonStartsTwo`), a measured root
is in every request (`DiskUsageRuns.ForgottenRootIsQueuedAtOnce`), and nothing
ahead takes a side of two pairs that tie, by itself or by a tie of its own
(`ReattachPicks.EarlierTieBreaksATie`).

`dafny verify dfyconfig.toml` checks the whole project.

## Model

| member | source | states |
|---|---|---|
| WindowTable.ChangeKeepsWellFormed | internal/browser/store.go:36-184 | each update of the table, made under its condition, keeps a row open exactly when it names a window and keeps two open rows from naming the same one |
| WindowTable.AlwaysWellFormed | internal/browser/store.go:36-184 | in every history of permitted changes, at every point, the table is well formed and row ids are below the next one |
| WindowTable.AddedIff | internal/browser/service.go:1513-1526 | adding an open row keeps the table well formed if and only if its window has an id and no owner |
| WindowHistory.DeletionHasCause | internal/browser/service.go:1124-1151 | in every history, a row that once had saved tabs and is gone was deleted with its own session, ejected, or forgotten by a removal timer for the window it held; nothing else takes it away |
| WindowHistory.SavedRowStays | internal/browser/store.go:126-184 | one change removes a row with saved tabs if and only if it is such a deletion; otherwise the row keeps its session and some saved tabs |
| WindowHistory.ForgottenInTheSameConnection | internal/browser/service.go:1124-1151 | a removal that took effect was scheduled earlier for that window, and nothing connected or disconnected in between |
| WindowHistory.NoStaleRemoval | internal/browser/service.go:1025-1045 | after a disconnect or reconnect no removal scheduled before it takes effect: the window was closed again since |
| WindowHistory.PendingIsNeverDropped | internal/browser/window.go:75-89 | in every history, a pending tab of a row that still exists is still pending in it, or the browser's latest listing at some later point showed the row's window (or the one it was archived from while the browser was away) with a tab that stands for it, or opening it in its window succeeded |
| WindowHistory.PendingStays | internal/browser/service.go:1095-1122 | one change drops a pending tab only when it frees it in that sense, and only holding a tab makes one pending |
| WindowHistory.ShownWasListed | internal/browser/service.go:1207-1216 | what counts as listed is what the browser listed last in the history, with no listing after it |
| WindowHistory.ToCloseWasOwned | internal/browser/service.go:636-647 | a window is to be closed for a row only if that row owned it when it was archived while the browser was away |
| WindowTable.AlwaysDated | internal/browser/store.go:99-169 | in every history no row carries a focus or snapshot time later than the time entered last, and entered times never go back but for a row that gets its own time back |
| WindowColumns.ColumnsAfter | internal/browser/store.go:99-184 | what one change does to a row that stays: its session never changes; when it was focused or saved, which window it holds and whether it is open, missing or snapshotted changes exactly by the changes named |
| WindowColumns.RowsComeAndGo | internal/browser/store.go:36-184 | a row appears exactly by being added, under the next number and as given, and disappears exactly by such a deletion or as empty |
| WindowColumns.TabsAfter | internal/browser/store.go:126-160 | the tabs of a row change only by a merge with a listed window, by tabs that were opened and by holding one more |
| WindowColumns.ReleasedAt | internal/browser/service.go:1107-1121 | after loading every tab is where it was, pending exactly if it was and did not load |
| WindowColumns.OpeningsOf | internal/browser/service.go:1107-1121 | the tabs opened are those that loaded, each once, in their order |
| WindowColumns.SessionIsForGood | internal/browser/store.go:36-184 | in every history a row never changes its session |
| WindowColumns.FocusTimeIsTheLast | internal/browser/store.go:99-104 | in every history the focus time of a row is what the last change that focused or reopened it says |
| WindowColumns.SnapshotTimeIsTheLast | internal/browser/store.go:126-160 | in every history the snapshot time of a row is what the last change that saved it says |
| WindowColumns.WindowIsTheLast | internal/browser/store.go:106-176 | in every history a row holds the window it was last reopened in, unless a later change took it away |
| WindowColumns.FocusNeverGoesBack | internal/browser/store.go:99-104 | in every history the focus time of a row never goes back |
| WindowColumns.FocusedIsMostRecent | internal/browser/store.go:66-104 | once a window got the focus, its row counts as more recent than every other row not focused or reopened since |
| BrowserService.OneOwnerEach | internal/browser/service.go:1020-1065 | in every state the service reaches, the table is well formed, owned windows were shown by the browser, and the empty id is never owned |
| BrowserService.Service.Connected | internal/browser/service.go:1025-1040 | connecting starts a new connection and leaves no removal waiting; without a listing exactly the rows of the closed windows are missing with their tabs unchanged (every row after a new run); when nothing failed no row owns and nothing waits for an unlisted window, rows of windows that closed or are not listed are missing with their tabs unchanged, or open in a window that waited, unless they were archived; after a new run a row owns a window exactly if the matching of the missing rows with that listing pairs them, every other row is missing with its tabs unchanged, and while rows are left the restore deadline stands at the restore window after the step began; otherwise every listed pending close was sent and rows keep their listed windows |
| BrowserService.Service.Disconnected | internal/browser/service.go:1041-1045 | disconnecting starts a new connection number, turns exactly the rows of closed windows missing with their tabs unchanged (all of them when the store answers), and clears snapshots and closings |
| BrowserService.Service.WindowCreated | internal/browser/service.go:1046-1047 | a window announced for the first time: only it may gain an owner and every other owner stays; when nothing failed the step listed the windows once, and outside a restore the window goes to the session of the window focused before it, in a restore it is deferred while it shows nothing to compare, else its matched row is reopened in it |
| BrowserService.Service.Adopt | internal/browser/service.go:1452-1480 | the daemon's own and already owned windows are left alone; otherwise the windows are listed and the window is adopted by the parent session of that moment, given to the row the matching pairs it with, or deferred |
| BrowserService.Service.AdoptListed | internal/browser/service.go:1467-1479 | without a restore the window goes to the parent at once; in one it is deferred exactly if it shows nothing to compare, else the row the matching of the missing rows pairs it with is reopened in it |
| BrowserService.Service.AdoptDeferred | internal/browser/service.go:1482-1496 | in a restore the window stays deferred exactly while it shows nothing to compare; settled, it goes to its matched row or else to the parent session kept for it |
| BrowserService.Service.AdoptInto | internal/browser/service.go:1513-1526 | the session owns the window afterwards by a new row that holds what the listing shows of it, and no other row changes; session 0 changes nothing |
| BrowserService.Service.ParentSession | internal/browser/service.go:1498-1511 | the session that owns the last focused window other than the new one, or 0 |
| BrowserService.Service.ResolveDeferred | internal/browser/service.go:1334-1344 | every deferred window that is listed is settled as the listing says or is still deferred with its parent, every unlisted one is dropped, and only listed windows gained owners |
| BrowserService.Service.TabsChanged | internal/browser/service.go:1067-1093 | an owned window gets a snapshot timer and nothing changes; a deferred one is settled against a new listing; another one, during a restore, is given to the row the matching pairs it with, and only to that one |
| BrowserService.Service.FocusChanged | internal/browser/service.go:1052-1061 | remembers the two last focused windows; only the row that owns the window changes, in its tabs and times; when nothing failed it records a time read in this step as its last focus, and exactly its pending tabs were opened, in order, none of which is pending afterwards |
| BrowserService.Service.TouchAndLoad | internal/browser/service.go:1060-1060 | the two effects of a focus: both are attempted, and when neither failed the owning row has its new focus time and no pending tab; every other row is unchanged |
| BrowserService.Service.LoadPending | internal/browser/service.go:1095-1122 | touches only the row of the window; when nothing failed the tabs opened in this step are exactly its pending ones, in order, and none is pending afterwards |
| BrowserService.Service.OpenPending | internal/browser/service.go:1107-1121 | the tabs opened are those marked; once stored exactly they stop being pending and every other tab is unchanged; when all opened nothing is pending |
| BrowserService.Service.WindowRemoved | internal/browser/service.go:1124-1151 | schedules a removal exactly for an owned window that neither the service closed nor already waits; drops deferral, rejection and snapshot of the window |
| BrowserService.Service.RemovalFires | internal/browser/service.go:1143-1150 | a removal callback deletes the row of its window exactly when its timer is the one still waiting, the browser is connected and the store answers; the timer that fired no longer waits |
| BrowserService.Service.FlushRemovals | internal/browser/service.go:1153-1160 | no removal is left waiting; rows of closed windows become missing with nothing else changed, all of them when nothing failed |
| BrowserService.Service.SnapshotFires | internal/browser/service.go:1189-1205 | a stopped or replaced snapshot timer asks and changes nothing; a live one no longer waits and saves what the listing made in this step shows |
| BrowserService.Service.ScheduleSnapshot | internal/browser/service.go:1189-1192 | at most one snapshot waits for a window |
| BrowserService.Service.Snapshot | internal/browser/service.go:1207-1216 | on success the row that owns the window holds the merge of its tabs with what the listing made in this step shows; a window not listed and every other row stay as they are; no row changes owner |
| BrowserService.Service.SaveTabs | internal/browser/service.go:1218-1231 | the same for one window of the latest listing; a window with no web tab changes nothing |
| BrowserService.Service.SnapshotOwned | internal/browser/service.go:1233-1246 | when nothing failed and ids are distinct, every open row holds the merge with its window in the latest listing and every other row its old tabs; saving again would change nothing |
| BrowserService.Service.TrackRun | internal/browser/service.go:1248-1275 | when nothing failed a restart is reported exactly when the run id is given and differs from the known or stored one; then the id is stored, every open row is missing and nothing is deferred, pending or rejected; otherwise nothing changes |
| BrowserService.Service.Resync | internal/browser/service.go:1277-1301 | without a listing nothing changes; with one, made in this step, no pending close is left, no saved row is lost and rows keep their listed windows; on success no row owns and nothing waits for an unlisted window, rows of unlisted windows are missing with their tabs unchanged or open in a window that waited, every listed pending close was sent to the browser, and after a restart a row owns a window exactly if the matching of the missing rows with the listing pairs them |
| BrowserService.Service.ClosePending | internal/browser/service.go:1303-1318 | sends the browser a close for exactly the listed windows waiting to be closed, when nothing failed; each archived row among them holds a last snapshot; no other row changes, no saved row is lost and no window gains an owner |
| BrowserService.Service.CloseLate | internal/browser/service.go:1303-1332 | sends a close exactly if the window is listed, after storing the merge of what the listing shows in its archived row; it leaves every open row its window if and only if the archived row was not reopened meanwhile, or is gone, or its old window is not listed or shows nothing to save |
| LateClose.IsHistory | internal/browser/service.go:1025-1040 | archived while away, restored after a reconnection that could not list, connected again with both windows listed: a history the table can have |
| LateClose.TakesRestoredWindow | internal/browser/service.go:1303-1332 | after it the late snapshot of the old window is permitted and takes the listed new window from its row |
| LateClose.CloseAfterRestore | internal/browser/service.go:1303-1332 | a service that satisfies its invariant and has that history loses the listed new window to the late closing of the old one, with nothing failing |
| BrowserService.Service.SnapshotClosing | internal/browser/service.go:1320-1332 | stores exactly the merge of what the closing window shows with the row's tabs |
| BrowserService.Service.ReattachAll | internal/browser/service.go:1346-1368 | each matched row owns its window when nothing fails, and every other row keeps its place and owner; the matching is the greedy one of the missing rows with the unowned listed windows; exactly the comparable windows it leaves out are rejected |
| BrowserService.Service.ReopenMatches | internal/browser/service.go:1357-1361 | every matched window is owned by its matched row when nothing fails, although each reopening is a separate update; no row appears or goes and no other owner changes |
| BrowserService.Service.RejectOthers | internal/browser/service.go:1362-1366 | exactly the windows with something to compare that are neither matched nor owned are rejected |
| BrowserService.Service.ReattachLate | internal/browser/service.go:1389-1425 | before the deadline, reopens the row that the matching of all missing rows pairs with this window if there is one and nothing fails, and only then, merges its tabs with what the listing shows and changes no other row; the window is listed, unowned, not rejected and not the daemon's own |
| BrowserService.Service.MatchRows | internal/browser/reattach.go:77-139 | returns the whole greedy matching of the missing rows with the listed windows outside the given set, which is one to one |
| BrowserEffects.MatchingIsUnique | internal/browser/reattach.go:98-138 | there is one such matching, whatever order the store lists the rows in |
| BrowserService.Service.Restoring | internal/browser/service.go:1370-1379 | true only before the restore deadline, and then exactly while a row is missing if the store answers; a deadline that finds nothing missing is dropped |
| BrowserService.Service.Archive | internal/browser/service.go:624-671 | when nothing failed no row of the session is open or missing, but for closed windows still to be forgotten; each kept row holds the merge with what its window shows in the listing made in this step; each listed window was sent a close and, while away, each is noted to be closed; other sessions' rows are unchanged and only windows of the session were closed |
| BrowserService.Service.ArchiveRow | internal/browser/service.go:636-660 | the same for one row: on failure the row is as before, or its window was sent a close in vain and the row keeps its snapshot, open again in that window or closed |
| BrowserService.Service.Delete | internal/browser/service.go:673-695 | when nothing failed exactly the rows of the session are gone; each of its windows in the listing made in this step was sent a close and, while away, each is noted to be closed; only windows of the session were closed |
| BrowserService.Service.ReleaseSession | internal/browser/service.go:697-713 | the session is detached, nothing is deferred into it, its open rows are listed once each, and the windows returned are the listing made in this step, one exactly while connected |
| BrowserService.Service.CloseWindow | internal/browser/service.go:715-723 | a closed window has no snapshot waiting and is expected to vanish, unless closing failed |
| BrowserService.Service.OnAppEnd | internal/browser/service.go:985-995 | afterwards nothing is connected and no timer waits |
| BrowserRequests.Restore | internal/browser/service.go:725-760 | the windows returned are, most recently focused first, those of all closed rows opened, each created from the saved URLs of its row; they belong to the session; no owner changes elsewhere; on success no closed row of the session is left, except missing ones, which are left alone exactly while they may still turn up |
| BrowserRequests.RestoreOne | internal/browser/service.go:741-753 | a row without tabs is forgotten; any other is opened in a window created from its saved URLs, its active tab is activated, and it holds what the listing made then shows |
| BrowserRequests.RestoreRow | internal/browser/service.go:762-783 | the row owns a new window that was asked to show all its saved URLs; on failure nothing changes |
| BrowserRequests.ActivateSaved | internal/browser/service.go:785-792 | activates the tab at the place of the first saved active tab that the new window has |
| BrowserRequests.CreateSessionWindow | internal/browser/service.go:816-836 | exactly one row is added, for the new window made from those URLs or that tab; on failure nothing changes |
| BrowserRequests.ProvideAttached | internal/browser/service.go:794-814 | the first time it is asked for and nothing failed, the attached session owns a window afterwards that is listed or new; one that is listed already is left as it is, else its closed rows are opened; a row is added only the first time and only if none could be opened; other sessions' rows are unchanged |
| BrowserRequests.Place | internal/browser/service.go:912-974 | with nothing failing the attached session owns, the first time, a window that is listed or new, and its closed rows are opened if none was listed; on success the windows are linked as resolving says for a listing made in this step and all open rows, and the moves are those of the linked open rows off their workspace; other sessions' rows are unchanged, and nothing changes while disconnected |
| BrowserRequests.TargetWindow | internal/browser/service.go:524-556 | the most recently focused listed window of the session; for no session the last focused window if listed and unowned, else the first listed one nobody owns; none only if there is none |
| BrowserRequests.OpenUrl | internal/browser/service.go:230-321 | on success the step shows the URL in the window returned: created from it, opened in it last, or its best tab for the URL, in a window listed or created in this step, activated last; the window is the listed one to prefer, else one a closed row was restored in, and one made from the URL only if none could be restored; for a session that session owns it, else nobody does; existing owners stay |
| BrowserRequests.FindTarget | internal/browser/service.go:242-271 | finds the listed window to prefer, else the window of the most recently focused of the closed rows it restored, none only if none could be restored; with nothing failing no closed row is left then, but for missing ones that may still turn up |
| BrowserRequests.RestoreTarget | internal/browser/service.go:256-271 | the first restored window, as the listing made after restoring shows it if it shows it |
| BrowserRequests.OpenInWindow | internal/browser/service.go:299-314 | the best tab for the URL is activated, or the URL opened in that very window when no tab stands for it |
| BrowserRequests.OpenRequest | internal/browser/service.go:193-321 | the same for the whole request: the attached session stands for a request that asks for it, an unknown session for none, a failing lookup changes nothing; for a session in the background, not to be activated, of a browser whose loads take the focus the URL is held, exactly unless the window it is held for can show it at once |
| BrowserRequests.Hold | internal/browser/service.go:327-351 | a held URL waits as one more pending tab of the session's most recently focused open row, else closed row, else of a new one that holds nothing else, unless a saved tab stands for it; nothing else changes; when it is not held, the step showed it in a window of the session |
| BrowserRequests.HoldTarget | internal/browser/service.go:353-366 | which row a URL is held in: the most recently focused open one of the session, else the most recently focused closed one |
| BrowserRequests.ActivateHeld | internal/browser/service.go:368-393 | shows the URL in the tab that stands for it, or in a new tab of a focused window, never otherwise |
| BrowserRequests.Eject | internal/browser/eject.go:34-76 | succeeds only for a window of that session, and with nothing failing exactly if the listing made in this step shows it; then exactly its row is gone, with its timers; on failure nothing changes |
| BrowserRequests.MoveTab | internal/browser/move.go:41-87 | the source window belonged to the first session; the target is the other session's most recently focused listed window, where the tab is moved and activated, or, if none of its windows is listed, a new one the tab was detached into and which it owns; other rows are unchanged; with nothing failing it succeeds exactly if the listing shows the window with the tab |
| BrowserRequests.FocusTarget | internal/browser/state.go:167-187 | with nothing failing succeeds exactly for a window of that session that the listing made in this step shows with the tab; returns that listing |
| BrowserMeaning.FirstListedIs | internal/browser/service.go:1427-1434 | of listed windows with one id the first is found |
| BrowserMeaning.LastListedIs | internal/browser/service.go:624-660 | where they are indexed by id the last counts |
| BrowserMeaning.LastFocusIs | internal/browser/service.go:1282-1291 | the last window listed as focused has the focus |
| BrowserMeaning.ActivationIs | internal/browser/service.go:785-792 | the tab activated is the one at the place of the first saved active tab that the new window has |
| BrowserMeaning.ChosenInOrder | internal/browser/service.go:736-760 | the windows returned by a restore keep the order of the rows |
| BrowserMeaning.SavedUrlsAre | internal/browser/service.go:762-772 | a new window is asked to show all saved URLs, in order |
| BrowserMeaning.RejectedIff | internal/browser/service.go:1362-1366 | rejected are exactly the listed windows that show a page with a key and are neither matched nor owned |
| BrowserMeaning.SnapshottingIs | internal/browser/service.go:1207-1231 | saving what a listing shows changes, if the window shows a web tab, exactly the row that holds it, in its tabs and snapshot time |
| BrowserMeaning.MeantIs | internal/browser/service.go:195-221 | a request for no session that asks for the attached one is for that; one for a session nobody knows is for none |
| BrowserStore.Store.GetByWindow | internal/browser/store.go:52-64 | finds the row that owns a window, or reports that none does |
| BrowserStore.Store.ListOpenBySession | internal/browser/store.go:66-72 | all open rows of the session, once each, most recently focused first |
| BrowserStore.Store.ListRestorable | internal/browser/store.go:147-153 | all other rows of the session in the same order |
| BrowserStore.Store.MarkMissingExcept | internal/browser/store.go:106-116 | records that rows of windows not listed became missing, or changes nothing |
| BrowserStore.Store.MarkMissing | internal/browser/store.go:171-176 | the same for one window |
| BrowserStore.Store.SaveTabs | internal/browser/store.go:126-133 | stores in the owning row exactly the merge of a live window with its tabs |
| BrowserStore.Store.SetTabs | internal/browser/store.go:135-139 | replaces the tabs of one row as its cause says |
| BrowserStore.Store.MarkSnapshotted | internal/browser/store.go:155-160 | the row gives up its window and keeps the given tabs |
| BrowserStore.Store.Reopen | internal/browser/store.go:162-169 | the row opens in a window nobody else holds; an empty id changes nothing |
| BrowserStore.Store.DeleteByWindow | internal/browser/store.go:92-97 | forgets the row of a window only in the connection it was closed in |
| BrowserStore.Store.Delete | internal/browser/store.go:178-180 | removes one row, ejected or without tabs |
| BrowserStore.Store.DeleteBySession | internal/browser/store.go:182-184 | removes exactly the rows of the session |
| BrowserStore.Store.Add | internal/browser/store.go:36-39 | adds one row under a new id |
| BrowserTabs.MatchTab | internal/browser/match.go:8-33 | finds a tab exactly when one lies at or below the URL: the first at the same place, else the first below it |
| BrowserTabs.HasSegmentPrefix | internal/browser/match.go:49-59 | true exactly when one path is a prefix of the other |
| BrowserTabs.SavedTabs | internal/browser/window.go:64-73 | the web tabs of a window, in order |
| BrowserTabs.MergeTabs | internal/browser/window.go:75-89 | the live web tabs followed by the pending ones that no live tab stands for; nothing to save leaves the tabs as they were |
| BrowserTabs.MergeKeepsPending | internal/browser/window.go:75-89 | a pending tab is in the merge if and only if it was saved and no live tab stands for it or nothing is saved |
| BrowserTabs.MergeIsIdempotent | internal/browser/window.go:75-89 | saving the same window again changes nothing |
| BrowserTabs.HasSavedUrl | internal/browser/window.go:101-108 | true exactly when a saved tab stands for the URL |
| BrowserTabs.MergedInOrder | internal/browser/window.go:64-89 | the merge is the web tabs as the window shows them, in order, and behind them the pending tabs no live tab stands for, in order and unchanged; without web tabs what was saved |
| BrowserTabs.CoversIff | internal/browser/match.go:8-59 | a live URL stands for another if and only if it has the same host and continues its non-empty path |
| BrowserTabs.BestMatchIff | internal/browser/match.go:8-33 | the tab used is the one that no tab at the same place, and no earlier tab as good, precedes |
| Reattach.MatchRestored | internal/browser/reattach.go:77-139 | lists exactly the pairs of an unowned window and a row that score at least the threshold, in the sorting order, and returns the greedy matching over that list, which ReattachPicks says without list and loop |
| Reattach.Jaccard | internal/browser/reattach.go:64-75 | shared keys over all keys, 0 when a side is empty, always between 0 and 1 |
| Reattach.ComputeUrlSet | internal/browser/reattach.go:28-36 | the non-empty normalised URLs |
| Reattach.ApplyPick | internal/browser/reattach.go:111-137 | one pick: it consumes both sides and those of every rival, and matches only without rivals |
| ReattachTheory.MatchingInjective | internal/browser/reattach.go:108-138 | two windows never get the same row |
| ReattachTheory.NoFreeCandidate | internal/browser/reattach.go:111-137 | no candidate is left with both sides unconsumed |
| ReattachTheory.EveryCandidateSettled | internal/browser/reattach.go:111-137 | of every candidate the window or the row ends in a match scoring at least as high or was given up to a tie at least as high |
| ReattachTheory.NoBlockingPair | internal/browser/reattach.go:98-138 | no admissible pair of a row and a window scores strictly higher than the matches of both in the matching of MatchRestored |
| ReattachTheory.NeverMatchesATie | internal/browser/reattach.go:115-133 | a matched pair had no available rival of the same score when it was picked |
| ReattachTheory.MatchesAreAdmissible | internal/browser/reattach.go:78-97 | every match is an unowned listed window and a listed row scoring at least the threshold |
| ReattachTheory.GreedyIsStable | internal/browser/reattach.go:98-138 | without equal scores the result is a stable matching |
| ReattachTheory.StableIsGreedy | internal/browser/reattach.go:98-138 | and it is the only one |
| ReattachTheory.MatchingIffStable | internal/browser/reattach.go:77-139 | so without equal scores the matching of rows with windows is the one stable matching of their candidates |
| ReattachTheory.OrderIndependent | internal/browser/reattach.go:98-107 | the result does not depend on the order of rows and windows |
| ReattachPicks.MatchingIffPicked | internal/browser/reattach.go:77-139 | a matching is the one computed if and only if it joins exactly the picks without rivals, where, going by score, row and window, a competing pair is picked exactly if no pick ahead of it takes its window or row, a pick takes its own sides and those of all its rivals, and its rivals are the other such pairs of its score that share a side with it |
| ReattachPicks.CandidateIff | internal/browser/reattach.go:28-97 | a pair competes if and only if the row has a loaded page with a key, the window is unowned and the last of its id to show one, and its score, the shared keys over all keys of both, reaches the threshold |
| ReattachPicks.TieIsSpent | internal/browser/reattach.go:115-134 | two competing pairs of one score that share a side are both given up, with both windows and both rows, unless a pair ahead, or one of its score that shares a side with it, shares a side with them |
| ReattachPicks.EarlierTieBreaksATie | internal/browser/reattach.go:115-134 | the second half of that condition is needed: three rows and two windows in which a tie ahead takes a row of the tied pairs, and one of them is matched after all |
| Link.Linker.Resolve | internal/browser/link.go:9-86 | live links stay, dead ones go, and exactly the wanted windows whose title is unique on both sides are linked |
| Link.Linker.LinkCreated | internal/browser/link.go:88-110 | links the created window if and only if exactly one unknown window appeared, and to that one |
| Link.Linker.CountTitles | internal/browser/link.go:61-66 | how often each title occurs among the unlinked windows |
| Link.Linker.FindPair | internal/browser/link.go:67-84 | finds the one window-manager window a browser window can be linked to, if there is one |
| Placement.RunKeepsInjective | internal/browser/link.go:9-110 | over every run of link changes no two windows share a link |
| Placement.LiveLinkUnchanged | internal/browser/link.go:22-26 | a link whose two ends still exist is never changed |
| Placement.NoAmbiguousTitleLinked | internal/browser/link.go:61-84 | a newly linked window is the only unlinked one with its title, and so is its partner |
| Placement.ResolvedIsLive | internal/browser/link.go:22-86 | after resolving every link joins a listed window with a listed window-manager window |
| Placement.UniqueTitleIsLinked | internal/browser/link.go:61-84 | a wanted window without a live link is linked when nobody else without one carries its title and exactly one unclaimed window-manager window does |
| Placement.Place | internal/browser/service.go:938-971 | the moves attempted are those of the linked open rows that are not on their workspace |
| Placement.MovesOnlyOwned | internal/browser/service.go:952-971 | every move is of a window an open row owns, to that row's target |
| Placement.UnownedNeverMoved | internal/browser/service.go:952-971 | a linked window no row owns is never moved |
| Placement.ResolveAgain | internal/browser/link.go:9-86 | resolving again with unchanged titles changes no link |
| Placement.SecondPlacement | internal/browser/service.go:938-971 | a second placement attempts exactly the moves that were refused, hence none if none was |
| Placement.PlacementPutsRight | internal/browser/service.go:952-971 | afterwards each row's linked window is on the browser workspace if its session is the attached one and on the park workspace if not, unless its move was refused; a window no row is linked to stays as it is |
| Placement.AttemptedIff | internal/browser/service.go:952-971 | attempted are exactly the moves of linked windows that are not on that workspace |
| SetupPlan.BuildSetupSteps | internal/session/setupstepdefinition.go:44-51 | the plan is the one IsPlan asks for: after the session directory the workspaces are set up in order and nothing else, each by a worktree step with its id and then its configured copies and installs in order, each waiting for the one before; then the Claude settings, then the terminal session |
| SetupPlan.BuildWorkspaceSetupSteps | internal/session/setupstepdefinition.go:53-72 | the same without the terminal session |
| SetupPlan.AppendActionSteps | internal/session/setupstepdefinition.go:74-115 | copies in order, then installs in order, each waiting for the step before |
| SetupPlan.PlansHaveShape | internal/session/setupstepdefinition.go:44-115 | every plan has one Claude step after all workspace steps, dependencies point back, and no foreground step waits for a background one |
| SetupPlan.PlansSetUp | internal/session/setupstepdefinition.go:44-115 | both plans are what IsPlan asks for, said of the workspaces and their configurations only |
| SetupPlan.ForegroundIsSamePlan | internal/session/sessionservice.go:1050-1055 | in foreground mode the plan is the same, step by step, with nothing in the background |
| SetupPlan.UnchainedIff | internal/session/setupstepdefinition.go:44-115 | no background step of a plan waits for another if and only if no workspace configures two install actions |
| SetupRun.SetupExecution.Run | internal/session/setupexecutor.go:234-286 | the loop ends (pending steps decrease) and, unless broken or cancelled, completes the plan |
| SetupRun.SetupExecution.RunWave | internal/session/setupexecutor.go:253-280 | a wave starts every ready step once, in any interleaving of starts and finishes |
| SetupRun.SetupExecution.CollectReady | internal/session/setupexecutor.go:210-232 | the ready steps are exactly those whose dependencies are terminal |
| SetupRun.SetupExecution.Finish | internal/session/setupexecutor.go:265-277 | a critical failure breaks the run, any other becomes a warning |
| SetupRun.WarningsAreLeft | internal/session/setupexecutor.go:265-277 | the warnings are exactly what the finished steps noted and the messages of failures that did not break the setup |
| SetupRun.NoStall | internal/session/setupexecutor.go:234-250 | when no step is ready every foreground step is terminal and every background step whose dependency is in the foreground was launched |
| SetupRun.EveryStepStarts | internal/session/setupexecutor.go:210-232 | with background steps, an unbroken uncancelled setup starts every step if and only if no workspace configures two install actions |
| SetupRun.SecondInstallNeverStarts | internal/session/setupstepdefinition.go:96-112 | a workspace with two installs: in background mode the second never starts |
| SetupRun.ChainedNeverStarts | internal/session/setupexecutor.go:210-232 | a step that depends on a background step is never claimed |
| SetupRun.StartsAfterDependency | internal/session/setupexecutor.go:210-232 | in every run a step starts once, after its dependency finished |
| SetupRun.ClaudeAfterWorkspaces | internal/session/setupexecutor.go:213-226 | Apply Claude starts after every foreground workspace step finished |
| SetupRun.TerminalSessionLast | internal/session/setupstepdefinition.go:44-51 | with a workspace, the terminal session starts after every other foreground step finished |
| SetupRun.StartedExactlyOnce | internal/session/setupexecutor.go:234-286 | in a completed run every step not chained on a background step started exactly once |
| SetupRun.RunSetup | internal/session/sessionservice.go:1043-1070 | from the builders to the end of the run; in foreground mode every step ends, in background mode every step starts if and only if no workspace configures two install actions |
| WebExtRuns.NoStaleDelivery | internal/webext/driver.go:425-461 | in every interleaving an event is delivered only between the announcement of its own generation and the next announcement, announced generations strictly increase, and with no signal pending and the subscriber waiting the connection announced last is the current one |
| WebExtRuns.EveryChangeIsTold | internal/webext/driver.go:425-461 | in every interleaving what was announced last is the connection as it is, unless a signal is on its way or waiting or the subscriber is about to look |
| WebExtRuns.EveryLookTells | internal/webext/driver.go:428-455 | whenever the subscriber looks, at the start, on a signal and after an event, what was announced last is the connection as it is |
| WebExtRuns.NewConnectionIsTold | internal/webext/driver.go:166-190 | a connection that replaced the one before and was not dropped is the one announced last once all signals are taken |
| WebExtRuns.CoalescedIff | internal/webext/driver.go:230-240 | a reader's tab change is coalesced if and only if a copy of it is queued or was just received |
| WebExtRuns.DroppedIffFull | internal/webext/driver.go:242-256 | what a reader pushes is queued last, unless 256 events are queued already; then it is dropped |
| WebExtRuns.AtMostOneCopy | internal/webext/driver.go:230-256 | the queue never holds two copies of a tab change |
| WebExtRuns.CoalescedIsDelivered | internal/webext/driver.go:230-256 | a tab change coalesced away is followed by a delivery of it, unless its connection ended or a copy is still on its way |
| WebExtRuns.DeliveredExactlyOnceInOrder | internal/webext/driver.go:230-256 | while a connection lasts its queued events are delivered once each and in order |
| WebExtRuns.RunKeepsInvariant | internal/webext/driver.go:166-256 | the invariant of connections, marks and queue holds in every run |
| WebExtDriver.Driver.Swap | internal/webext/driver.go:166-177 | a new connection gets the next generation; the new state is the step's |
| WebExtDriver.Driver.Drop | internal/webext/driver.go:179-190 | a connection that is no longer current only closes itself; the new state is the step's |
| WebExtDriver.Driver.MarkTab | internal/webext/driver.go:231-240 | a tab change already marked is coalesced; the new state is the step's |
| WebExtDriver.Driver.PushTab | internal/webext/driver.go:242-249 | a full queue drops the event and keeps its reader responsible for the mark; the new state is the step's |
| WebExtDriver.Driver.UnmarkTab | internal/webext/driver.go:252-256 | the mark is removed; the new state is the step's |
| WebExtDriver.Driver.ReceiveEvent | internal/webext/driver.go:446-449 | the subscriber takes the oldest event; the new state is the step's |
| WebExtDriver.Driver.DeliverOrDiscard | internal/webext/driver.go:450-458 | the event is delivered only for the announced generation; the new state is the step's |
| WebExtCalls.SettledOnce | internal/webext/driver.go:258-275 | in every run no answer goes into a closed or full channel, an answered or closed channel stays so, and only a call's own connection answers or fails it |
| WebExtCalls.NobodyIsForgotten | internal/webext/driver.go:258-325 | every call waits, returned, has its answer on the way, or finds its channel answered or closed |
| WebExtCalls.FailedConnectionHoldsNobody | internal/webext/driver.go:268-293 | nothing waits on a failed connection and it accepts no call |
| WebExtCalls.Calls.Register | internal/webext/driver.go:277-293 | a call waits on an empty channel of its own unless the connection failed |
| WebExtCalls.Calls.Resolve | internal/webext/driver.go:258-266 | only a response to a call waiting on that connection is taken |
| WebExtCalls.Calls.Deliver | internal/webext/driver.go:263-265 | the answer fits into its channel |
| WebExtCalls.Calls.Fail | internal/webext/driver.go:268-275 | every waiting channel is closed and no other |
| WebExtAnswers.AnswerWasSent | internal/webext/driver.go:258-266 | in every run an answered call got the answer that was sent for it over its own connection while it was waiting there |
| WebExtAnswers.WaitingIsAnswered | internal/webext/driver.go:258-266 | in every run an answer for a waiting call reaches that call and no other, and it waits no longer |
| WebExtAnswers.UnknownIsIgnored | internal/webext/driver.go:258-266 | an answer for a call not waiting there changes nothing |
| WebExtAnswers.FailureCloses | internal/webext/driver.go:268-275 | the end of a connection closes the channels of exactly the calls that wait on it |
| WebExtAnswers.CallIsNew | internal/webext/driver.go:277-293 | a call on a live connection gets a number nobody had and waits there |
| WebExtAnswers.ReturnedWaitsNot | internal/webext/driver.go:294-325 | a call that returns waits no longer |
| Attribution.Attributor.Resolve | internal/mux/resources.go:106-122 | with memo and depth bound, finds the nearest shell ancestor of the plain walk, on cyclic graphs too, and ends |
| Attribution.Attribute | internal/mux/resources.go:100-130 | a listed process is in the result if and only if its plain walk meets a shell, and with that shell's session |
| Attribution.LongPathUnowned | internal/mux/resources.go:106-122 | a climb longer than the number of processes can never meet a shell |
| Attribution.PathSharesOwner | internal/mux/resources.go:106-122 | all processes on a climb have the same owner |
| Attribution.Sampler.Sample | internal/mux/resources.go:45-98 | with both answers: one usage record per owning session, sorted, with its processes in listed order, each with its share, name and memory, and their sums; the readings are kept for the next sample; without an answer nothing changes |
| Attribution.ShareMeasuresInterval | internal/mux/resources.go:56-68 | of a process in two samples in a row at most a minute apart the second reports the processor time used in between as a share of that time; one that used less counts as a new process |
| Attribution.Tally | internal/mux/resources.go:70-92 | the loop gives every owning session exactly its processes and their sums |
| Attribution.TotalsConserved | internal/mux/resources.go:69-98 | the sessions' processor shares, memory and process counts add up to exactly the totals over attributed processes |
| AttributionReport.RecordShows | internal/mux/resources.go:69-136 | each session's record lists its processes as the system did, each with its id, memory, command name and processor share, and its load is their number and the sums of what they show |
| AttributionReport.RecordedIff | internal/mux/resources.go:69-98 | exactly the sessions that own a listed process have a record, one each |
| AttributionReport.CommandNameIs | internal/mux/resources.go:132-137 | the name shown is what follows the last slash, slashes at the end aside |
| AttributionReport.ParentIff | internal/mux/resources.go:100-105 | a parent is what the list says last of a process |
| PRActivity.NewPosts | internal/git/practivity.go:155-209 | reports exactly the reportable posts and the highest id seen |
| PRActivity.ReportedExactly | internal/git/practivity.go:155-209 | a post is reported if and only if it is above a baselined watermark and its author is not ignored |
| PRActivity.ChecksTransition | internal/git/practivity.go:214-264 | the state recorded and the event are those of the transition, which PRReport says in terms of the runs |
| PRActivity.SyncPRActivity | internal/git/practivity.go:92-153 | an activity sync succeeds, reports and writes the activity columns exactly as its answers say; a failed one reports nothing |
| PRReport.RollupToldIff | internal/git/practivity.go:211-264 | a successful sync reports a rollup, last of all, if and only if there were checks on record, all runs of the head commit have finished and how they ended is not on record for it yet; it names the commit, passed or failed, and the failed runs in order |
| PRReport.FinishedIsTold | internal/git/practivity.go:211-264 | so the first finished rollup of a commit is told |
| PRReport.RecordsChecks | internal/git/practivity.go:120-134 | it records for the head commit how its runs ended, or keeps what it recorded as final while they have not |
| PRReport.RecordsPosts | internal/git/practivity.go:97-119 | it records the baseline and the highest post seen and changes neither title nor head |
| PRReport.ReportIsOrdered | internal/git/practivity.go:92-209 | it reports the new reviews as listed, then the new comments from the last listed to the first, then at most a rollup |
| PRReport.LogTellsReports | internal/git/practivity.go:92-153 | a run logs, sync by sync, what the syncs report |
| PRReport.ColumnsWritten | internal/git/prstore.go:105-148 | the two kinds of sync write disjoint columns |
| PRActivity.PRStore.Update | internal/git/prstore.go:105-131 | keeps the activity columns of the stored row |
| PRActivity.PRStore.UpdateActivity | internal/git/prstore.go:133-148 | writes only the activity columns |
| PRActivity.PRStore.Upsert | internal/git/prstore.go:88-103 | overwrites the whole row |
| PRActivity.PRStore.SyncPullRequest | internal/git/gitservice.go:583-599 | updates the row the lookup found, else overwrites it |
| PRActivityRuns.WatermarksNeverDecrease | internal/git/practivity.go:92-153 | over every run with failures, interleaved with pull request syncs, watermarks never decrease and a baseline is never lost |
| PRActivityRuns.RunToldAtMostOnce | internal/git/practivity.go:92-264 | over every run everything told is news |
| PRActivityRuns.ToldAtMostOnce | internal/git/practivity.go:155-264 | hence no review or comment is told twice, and successive rollups for an unchanged head differ |
| PRActivityRuns.FirstSightIsTold | internal/git/practivity.go:155-209 | the first successful sync that sees a post above a baselined watermark by an author not ignored tells it |
| PRActivityRuns.SyncsCommute | internal/git/prstore.go:105-148 | an activity sync and a pull request sync that found its row give the same result in either order |
| PRActivityRuns.SyncOnce | internal/git/practivity.go:92-153 | the method on the store takes the run's step, also when it fails or skips an unneeded write |
| PRActivityRuns.PullRequestSyncKeepsActivity | internal/git/gitservice.go:583-599 | a pull request sync keeps the activity columns if and only if its lookup found the row, or nothing was stored, or the payload carries the same columns |
| PRActivityRuns.LostLookupRepeatsReview | internal/git/gitservice.go:583-599 | a lookup that fails on an existing row resets the columns and a review is told twice |
| DiskUsage.Cache.SizesOf | internal/diskusage/diskusage.go:44-76 | returns exactly the known sizes of the requested roots; the new state is the step's |
| DiskUsage.Cache.TakeNext | internal/diskusage/diskusage.go:79-89 | the oldest queued root is taken, or the drainer retires |
| DiskUsage.Cache.StartWalk | internal/diskusage/diskusage.go:91-91 | the walk starts at the current time |
| DiskUsage.Cache.FinishWalk | internal/diskusage/diskusage.go:92-106 | the root rests ten times as long as its walk took, at least the time to live |
| DiskUsageRuns.RunKeepsInvariant | internal/diskusage/diskusage.go:44-107 | in every run a root is pending exactly when it is queued or being measured, never both and never queued twice; at most one drainer runs and a non-empty queue has one |
| DiskUsageRuns.DutyCycle | internal/diskusage/diskusage.go:44-107 | for a root in every request, successive walks start at least eleven walk times apart, so at most one eleventh of the time is spent on it |
| DiskUsageRuns.ForgottenRootIsQueuedAtOnce | internal/diskusage/diskusage.go:63-67 | the bound needs every request: a root left out once is measured again at once |
| DiskUsageSizes.SizesAreMeasured | internal/diskusage/diskusage.go:44-107 | over every run a size that is answered was asked for and is what the last successful measurement of that root found |
| DiskUsageSizes.MeasuredIsAnswered | internal/diskusage/diskusage.go:44-107 | a root in every request is answered for from its first successful measurement on |
| DiskUsageSizes.RequestQueues | internal/diskusage/diskusage.go:44-76 | a request queues, behind those that wait, exactly the roots asked for that are neither waiting nor being measured nor fresh |
| DiskUsageSizes.QueuedInOrder | internal/diskusage/diskusage.go:44-62 | in the order they were asked for |
| DiskUsageSizes.RequestRetains | internal/diskusage/diskusage.go:63-67 | it forgets exactly the roots not asked for that are neither waiting nor being measured, and keeps the others as they were |
| DiskUsageSizes.MeasuredAgainWhenStale | internal/diskusage/diskusage.go:92-106 | a measured root asked for again is queued once the time to live and ten times what its measurement took have passed, and not before |
| DiskUsageSizes.TakesTheFirst | internal/diskusage/diskusage.go:79-106 | the root that has waited longest is measured |
| Slug.ValidSlugIff | internal/coder/slug.go:12-19 | the pattern accepts exactly the names of at most 32 plain characters and single hyphens that start with a letter and do not end in a hyphen |
| Slug.BaseIsValid | internal/coder/slug.go:21-36 | the base slug of any name is valid |
| Slug.BaseOfValid | internal/coder/slug.go:21-36 | a valid slug is its own base slug |
| Slug.CandidateIsValid | internal/coder/slug.go:47-49 | every numbered candidate is valid |
| Slug.CandidatesDiffer | internal/coder/slug.go:47-49 | differently numbered candidates differ, even after truncation |
| Slug.ChooseSlug | internal/coder/slug.go:38-55 | the base slug if free, else the first free candidate; valid and not taken; fails exactly when all are taken |
| Slug.FailingTakesManyNames | internal/coder/slug.go:38-55 | failing needs at least 9998 different taken names |
| Slug.CollapseKeeps | internal/coder/slug.go:21-36 | collapsing keeps exactly the plain characters, in order, and puts one hyphen where each run of other characters begins |
| Slug.StemIsCut | internal/coder/slug.go:21-36 | the stem is the collapsed name without the hyphens and digits it begins with and the hyphens it ends with |
| Slug.BaseIsCut | internal/coder/slug.go:21-36 | the base slug is the stem, or "session" when there is none, cut to 32 characters and the last one that is no hyphen |
| Slug.CandidateIsCut | internal/coder/slug.go:47-49 | a candidate is the base cut to what fits before its number, without hyphens at the end |
| Decimals.DecimalRoundTrip | internal/coder/slug.go:48-48 | decimal notation reads back as the number it prints |
| ChromeScript.ParseSnapshot | internal/chromescript/driver.go:172-203 | the parser computes the snapshot a text describes, or rejects it |
| ChromeScript.PrintedIsReadBack | internal/chromescript/driver.go:138-203 | parsing what the script prints gives back windows, tabs, active tab and focus, for any number of them, with unit separators allowed in titles |
| ChromeScript.PolledIff | internal/chromescript/driver.go:117-124 | through the script runner the round trip holds if and only if the very last title does not end in a newline |
| ChromeScript.NewlineIsLost | internal/chromescript/driver.go:117-124 | one window with one tab whose title ends in a newline is read back wrongly |
| ChromeScript.JoinSplit | internal/chromescript/driver.go:196-196 | joining the pieces of a title restores it |
| ChromeScript.SeenIs | internal/chromescript/driver.go:138-203 | what is read: every window with its tabs in order, focused when it is the front window of a browser in front, its active tab by position |
| ChromeStream.ComputeDiff | internal/chromescript/driver.go:456-482 | the difference of two polls |
| ChromeStream.DiffIsExact | internal/chromescript/driver.go:456-482 | created, removed, changed and focused are reported for exactly the right windows |
| ChromeStream.RunKeepsInformed | internal/chromescript/driver.go:401-433 | in every sequence of polls, failed ones among them, the windows rebuilt from delivered events are the current ones and exactly those that vanished in the last difference |
| ChromeStream.Subscription.TakePoll | internal/chromescript/driver.go:405-432 | removals of the last difference are delivered first, those of this one are held back |
| ChromeStream.PollTells | internal/chromescript/driver.go:401-482 | a poll tells the removals of the one before, then new and changed windows as listed, then the focus, and holds back the removals it finds |
| ChromeStream.EndedIff | internal/chromescript/driver.go:405-419 | the stream has ended if and only if a poll found the browser gone or was the third in a row that failed |
| ChromeStream.FocusedIs | internal/chromescript/driver.go:126-136 | the focus is with the first focused window of a browser in front |
| ChromeStream.FindIsLast | internal/chromescript/driver.go:456-462 | a window is known as it was listed last |
| ConnManager.AtMostOneRuns | internal/coder/conn.go:153-209 | in every run in which a released workspace is asked for again only after its supervisors returned, at most one recorded process runs, the entry's own, and processes of failed attempts are gone |
| ConnManager.OnlyTheCurrentMarksDown | internal/coder/conn.go:344-352 | a supervisor marks the connection down only when the connection's own process exited |
| ConnManager.GenerationsGrow | internal/coder/conn.go:197-205 | while an entry lives its generation never falls and a new process gets a higher one |
| ConnManager.RunKeepsInvariant | internal/coder/conn.go:153-377 | the invariant behind it, with restart backoff always within 1 and 30 seconds |
| ConnManager.TooSoonStartsTwo | internal/coder/conn.go:344-377 | without that condition an old supervisor marks a new connection down and two processes run |
| ConnSupervision.NeverAbandoned | internal/coder/conn.go:344-361 | in every such run a connection that is down, with nothing closed, has its own supervisor, which rests or asks for it |
| ConnSupervision.ExitIsNoticed | internal/coder/conn.go:344-352 | the exit of the entry's process is noticed by its supervisor, which marks the connection down and rests the shortest time |
| ConnSupervision.DownIsBroughtBack | internal/coder/conn.go:344-361 | rested, it asks; if nobody else is connecting and the process then started answers, the connection is up with the next generation and a supervisor of its own |
| ConnSupervision.FailureRestsLonger | internal/coder/conn.go:344-361 | attempts that fail in a row rest 1, 2, 4, 8, 16 and then 30 seconds |
| ConnSupervision.StaleReturns | internal/coder/conn.go:353-361 | a supervisor whose connection is not the current one, or that wakes when all is closed, returns without asking |
| ConnSupervision.UpIsUsed | internal/coder/conn.go:153-172 | asked for while it is up, the connection is used as it is and the asking supervisor returns |
| ConnManager.Manager.AskFor | internal/coder/conn.go:153-172 | a live connection is used, else connecting begins |
| ConnManager.Manager.Finish | internal/coder/conn.go:186-208 | the process becomes the entry's with the next generation, or is killed after closing |
| ConnManager.Manager.FailTrial | internal/coder/conn.go:282-293 | the process of a failed attempt is killed |
| ConnManager.Manager.NoticeExit | internal/coder/conn.go:346-351 | only the current generation marks the connection down |
| ConnManager.Manager.RetryAfterRest | internal/coder/conn.go:353-361 | a superseded watcher returns |
| ConnManager.Manager.Drop | internal/coder/conn.go:365-377 | the entry is gone and its process killed |
| SessionStatus.SessionStore.UpdateStatusWhere | internal/session/sessionstore.go:412-415 | changes the row exactly when its status is among the given ones |
| SessionStatus.SessionStore.FinishRemoteCreate | internal/session/sessionstore.go:417-420 | changes the row only while it is being created, and forgets what to create |
| SessionStatus.SessionStore.AppendStatusError | internal/session/sessionstore.go:426-429 | appends to the error text only in the given statuses |
| SessionStatus.SessionStore.ApplyRemoteState | internal/session/sessionstore.go:435-447 | records attention and time of the poll in any case, and writes a mirrored status over a mirrored status only |
| SessionStatus.AppendedIsJoined | internal/session/sessionstore.go:426-429 | appending gives the joined text of all messages if and only if the only message before is not empty |
| SessionStatus.TextHoldsEverything | internal/session/sessionservice.go:1072-1094 | in every interleaving of a setup's end with its background steps the error text is the foreground warnings followed by each finished background failure once |
| SessionStatus.SetupEnd.CompleteSetup | internal/session/sessionservice.go:1072-1094 | the session becomes active with its warnings, or broken |
| SessionStatus.SetupEnd.RecordBackgroundFailure | internal/session/setupexecutor.go:288-303 | a background failure is appended after the setup is complete |
| SessionStatus.PollOnlyMirrors | internal/session/sessionstore.go:435-447 | a remote poll always records its attention and time and never moves a session into or out of being created, archived or deleted |
| SessionStatus.ArchivedStays | internal/session/remotebackend.go:234-300 | an archived session stays archived through all late completions and polls |
| SessionStatus.DeletedStays | internal/session/remotebackend.go:303-332 | a deleted session stays deleted until a deletion ends |
| SessionStatus.CompletionsEndTheirOwn | internal/session/remotebackend.go:176-272 | in every run without a forced deletion exactly one operation can end being created, the one started for it |
| SessionStatus.OneEnderIff | internal/session/remotebackend.go:303-315 | a step keeps that if and only if it is no forced deletion of a detached session being created |
| SessionStatus.ForcedDeletionConfuses | internal/session/remotebackend.go:176-332 | after such a deletion fails and the session is brought back, the late creation marks it active while its reactivation is under way |
| SessionStatus.DetachedIff | internal/session/remotebackend.go:234-272 | a step from a state in which a session that is archived, deleted or being created is not attached keeps that if and only if it is not an activation that ends late |
| SessionStatus.DetachedThroughout | internal/session/remotebackend.go:234-272 | a run keeps it at every point if and only if no activation ends late in it |
| SessionStatus.OrderlyStaysDetached | internal/session/remotebackend.go:209-315 | in runs where nobody archives or deletes while an activation is under way it always holds |
| SessionStatus.LateActivationAttaches | internal/session/remotebackend.go:258-267 | activated while active and archived before that ended, any session ends archived and attached |
| SessionOutcomes.NeverStuck | internal/session/remotebackend.go:176-332 | in every run, restarts and forced deletions included, a session that is being created or deleted has an operation under way that will end that |
| SessionOutcomes.CreationEnds | internal/session/remotebackend.go:176-190 | a creation ends active without error or broken with its message, and what was to be created is off the record |
| SessionOutcomes.ReactivationEnds | internal/session/remotebackend.go:234-266 | a reactivation ends active and attached, or archived again with its message |
| SessionOutcomes.ActivationEnds | internal/session/remotebackend.go:234-266 | an activation attaches and clears the error, or leaves its message |
| SessionOutcomes.ArchivingEnds | internal/session/remotebackend.go:288-297 | a failed archiving leaves its message, nothing else |
| SessionOutcomes.DeletionEnds | internal/session/remotebackend.go:317-332 | a deletion ends with the session gone, or archived with its message |
| SessionOutcomes.LateEnd | internal/session/remotebackend.go:176-332 | in any other status the end of an operation changes nothing but that a successful activation still attaches and a successful deletion still removes |
| SessionOutcomes.PollMirrors | internal/session/sessionstore.go:435-447 | a poll is taken over exactly between statuses the remote side may set |
| SessionOutcomes.RestartRecovers | internal/session/remotebackend.go:192-207 | a restart takes a creation or deletion up again, ends a reactivation it cannot take up archived, any other creation broken, and leaves the rest |
| SessionOutcomes.ActivationStarts | internal/session/remotebackend.go:209-232 | refused while being created, broken or deleted; an archived session is created again; any other is attached unless it is |
| SessionOutcomes.ArchivingAndDeletionStart | internal/session/remotebackend.go:278-315 | archiving takes a session the remote side runs; deleting a detached one that is archived, or any detached one by force |
| SessionStatus.RemoteSession.RunPoll | internal/session/remotebackend.go:72-81 | a remote poll; the new state is the protocol step's |
| SessionStatus.RemoteSession.FinishArchive | internal/session/remotebackend.go:288-297 | the late end of an archiving; the new state is the protocol step's |
| SessionStatus.RemoteSession.FinishCreate | internal/session/remotebackend.go:176-190 | the late end of a creation; the new state is the protocol step's |
| SessionStatus.RemoteSession.FinishActivate | internal/session/remotebackend.go:234-266 | the late end of an activation; the new state is the protocol step's |
| SessionStatus.RemoteSession.FinishDelete | internal/session/remotebackend.go:317-332 | the late end of a deletion; the new state is the protocol step's |
| SessionStatus.RemoteSession.ActivateSession | internal/session/remotebackend.go:209-232 | an archived session becomes created again, others are only attached; the new state is the protocol step's |
| SessionStatus.RemoteSession.ArchiveSession | internal/session/remotebackend.go:278-300 | the session is archived at once; the new state is the protocol step's |
| SessionStatus.RemoteSession.DeleteSession | internal/session/remotebackend.go:303-315 | the session is marked deleted at once; the new state is the protocol step's |

## Left out

- Rounding: scores are exact reals, not 64-bit floats; the threshold is one half.
- URL parsing: a URL carries its normalised form, host and path segments, and whether it is a web URL.
- Lower-casing and Unicode: slugs start from the lower-cased name.
- Order of rows listed for matching and for link placement: any order; recency order is modelled where a request depends on it.
- Rows of other browser drivers in the same table, and claiming rows recorded before drivers were.
- Linking a window as it is created or focused, within the steps that open or move: Link and Placement model it by themselves, and placement composes it; a refused move is given by window id.
- BrowserRequests.EnsurePlaced: whether the window manager answers is left open; its links and moves are those of Place.
- Focus handling after opening or moving (focus settling, refocusing, unparking), polling for a new window's link, and the view of windows returned to clients.
- Signals to the placement loop and the queue of lifecycle operations: each operation is one step that may run at any time.
- The clock of the browser service never goes back, neither within a step, where several readings may differ, nor between steps; all other clocks are step parameters.
- BrowserService.Service.WindowCreated: requires that ids are not empty and that a window is announced at most once, which the browser has to provide.
- BrowserService.Service.SnapshotOwned: states what each row holds only for listings without repeated ids.
- SetupRun.RunSetup: step bodies are outcomes chosen in advance; labels, texts, timeouts and the reuse of stored step records are not modelled.
- WebExt: one subscription at a time; frames, handshakes and the outdated flag are not modelled.
- Attribution.Sampler.Sample: processor shares are exact, not 64-bit floats.
- Pull request activity runs hold one loaded copy at a time, so two activity syncs of a pull request that overlap are excluded.
- PRActivityRuns.RunToldAtMostOnce: covers runs in which pull request lookups succeed; the failing lookup is stated separately.
- DiskUsage: measuring a directory is a step that returns any size or an error.
- ChromeScript.PrintedIsReadBack: window and tab positions fit into 64 bits.
- ConnManager: ports, hosts and the idle timer are not modelled; a killed process counts as exited at once; one workspace at a time.
- SessionStatus: one session at a time, which another one's activation may detach; branches are not modelled; a request loads and saves in one atomic step.
- SessionStatus.TextHoldsEverything: assumes that appending to the error text does not fail and that other requests do not touch the session meanwhile.
- Git, ssh, the coder command line, osascript and GitHub themselves: their answers are parameters.
- HTTP controllers, the terminal interface, migrations, configuration and file copying: no state of their own worth a proof.
